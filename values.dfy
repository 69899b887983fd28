/** Python values as the OMEVV helpers see them: decoded JSON documents,
    dicts with optional keys, `None`, truthiness and `str.join`. */
module Values {

  datatype Option<T> = None | Some(value: T)

  /** The Python exceptions that the modelled code can raise. */
  datatype PyError = TypeError | KeyError | AttributeError | IndexError

  datatype Result<T> = Ok(value: T) | Err(error: PyError)

  /** A JSON document decoded into Python objects: None, bool, int, str, list, dict. */
  datatype Json =
    | JNull
    | JBool(b: bool)
    | JInt(i: int)
    | JStr(s: string)
    | JList(items: seq<Json>)
    | JObj(fields: map<string, Json>)

  /** A Python dict with string keys (a request payload, a record of a response). */
  type Obj = map<string, Json>

  /** `d.get(key)`: the stored value, or None when the key is absent. */
  function Get(d: Obj, key: string): Json
  {
    if key in d then d[key] else JNull
  }

  /** A Python argument that is either a str or None. */
  function FromOpt(o: Option<string>): (j: Json)
    ensures j == JNull <==> o.None?
  {
    match o
    case None => JNull
    case Some(s) => JStr(s)
  }

  /** `bool(o)` for a str-or-None argument. */
  predicate OptTruthy(o: Option<string>)
  {
    o.Some? && o.value != ""
  }

  /** `bool(j)`: None, False, 0 and empty containers are falsy. */
  predicate Truthy(j: Json)
  {
    match j
    case JNull => false
    case JBool(b) => b
    case JInt(i) => i != 0
    case JStr(s) => s != ""
    case JList(items) => items != []
    case JObj(fields) => fields != map[]
  }

  /** The list of str values of `names`, as Python values. */
  function Strs(names: seq<string>): (r: seq<Json>)
    ensures |r| == |names|
    ensures forall i :: 0 <= i < |names| ==> r[i] == JStr(names[i])
  {
    seq(|names|, i requires 0 <= i < |names| => JStr(names[i]))
  }

  /** `sep.join(items)`: raises TypeError as soon as an item is not a str. */
  function Join(sep: string, items: seq<Json>): (r: Result<string>)
    ensures r.Ok? <==> forall i :: 0 <= i < |items| ==> items[i].JStr?
    ensures r.Err? ==> r.error == TypeError
  {
    if items == [] then Ok("")
    else if !items[0].JStr? then Err(TypeError)
    else if |items| == 1 then Ok(items[0].s)
    else
      match Join(sep, items[1..])
      case Err(e) => Err(e)
      case Ok(rest) => Ok(items[0].s + sep + rest)
  }

  /** `sep.join(names)` for a list that holds only str values. */
  function JoinStrs(sep: string, names: seq<string>): string
  {
    Join(sep, Strs(names)).value
  }

}
