/** First-match lookup of a record by the value of one of its keys, the search
    that both profile helpers perform (`d.get(key) == name`, first hit wins,
    `{}` when nothing matches). */
module Lookup {
  import opened Values

  /** Record `d` has the str `name` under `key`. */
  predicate Has(d: Obj, key: string, name: string)
  {
    Get(d, key) == JStr(name)
  }

  /** The first record of `data` that has `name` under `key`, or the empty dict. */
  function FirstWith(data: seq<Obj>, key: string, name: string): Obj
  {
    if data == [] then map[]
    else if Has(data[0], key, name) then data[0]
    else FirstWith(data[1..], key, name)
  }

  /** The lookup yields `{}` exactly when no record matches (a matching record
      holds `key`, so it is never empty); otherwise it yields a matching record
      at some index before which no record matches. */
  lemma {:induction false} FirstWithIsFirstMatch(data: seq<Obj>, key: string, name: string)
    ensures FirstWith(data, key, name) == map[]
        <==> forall i :: 0 <= i < |data| ==> !Has(data[i], key, name)
    ensures FirstWith(data, key, name) != map[] ==>
      exists i :: 0 <= i < |data| && FirstWith(data, key, name) == data[i]
        && Has(data[i], key, name)
        && forall j :: 0 <= j < i ==> !Has(data[j], key, name)
  {
    if data != [] {
      FirstWithIsFirstMatch(data[1..], key, name);
      if Has(data[0], key, name) {
        assert key in data[0];
      } else if FirstWith(data, key, name) != map[] {
        var i :| 0 <= i < |data| - 1 && FirstWith(data[1..], key, name) == data[1..][i]
          && Has(data[1..][i], key, name)
          && forall j :: 0 <= j < i ==> !Has(data[1..][j], key, name);
        assert FirstWith(data, key, name) == data[i + 1];
        assert forall j :: 0 <= j < i + 1 ==> !Has(data[j], key, name) by {
          forall j | 0 <= j < i + 1 ensures !Has(data[j], key, name) {
            if j > 0 { assert data[j] == data[1..][j - 1]; }
          }
        }
      } else {
        forall i | 0 <= i < |data| ensures !Has(data[i], key, name) {
          if i > 0 { assert data[i] == data[1..][i - 1]; }
        }
      }
    }
  }
}
