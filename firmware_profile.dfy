/** The firmware repository profile client (`OMEVVFirmwareProfile`): payload
    builders, the lookup by `profileName`, and the create, modify and
    test-connection calls, each issuing its single request through the
    transport. */
module FirmwareProfile {
  import opened Values
  import opened Transport
  import opened Lookup

  /** The fields of a repository profile that the client sends; each may be
      None, as the Python arguments may. */
  datatype ProfileFields = ProfileFields(
    name: Option<string>,
    catalogPath: Option<string>,
    description: Option<string>,
    protocolType: Option<string>,
    shareUsername: Option<string>,
    sharePassword: Option<string>,
    shareDomain: Option<string>)

  const CredentialKeys: set<string> := {"username", "password", "domain"}

  /** The `shareCredential` sub-document. */
  function Credential(username: Json, password: Json, domain: Json): (c: Obj)
    ensures c.Keys == CredentialKeys
  {
    map["username" := username, "password" := password, "domain" := domain]
  }

  /** The payload that creates a repository profile. */
  function CreatePayload(name: Option<string>, catalogPath: Option<string>, description: Option<string>,
                         protocolType: Option<string>, shareUsername: Option<string>,
                         sharePassword: Option<string>, shareDomain: Option<string>): (p: Obj)
    ensures p.Keys == {"profileName", "protocolType", "sharePath", "profileType", "shareCredential"}
                      + (if description.Some? then {"description"} else {})
    ensures "description" in p <==> description.Some?
    ensures p["profileType"] == JStr("Firmware")
    ensures p["shareCredential"].JObj? && p["shareCredential"].fields.Keys == CredentialKeys
    ensures forall k :: k in p && k != "shareCredential" ==> p[k].JStr? || p[k] == JNull
    ensures forall k :: k in CredentialKeys ==> p["shareCredential"].fields[k].JStr? || p["shareCredential"].fields[k] == JNull
  {
    var p := map["profileName" := FromOpt(name), "protocolType" := FromOpt(protocolType),
                 "sharePath" := FromOpt(catalogPath)];
    var p := if description.Some? then p["description" := JStr(description.value)] else p;
    p["profileType" := JStr("Firmware")]
     ["shareCredential" := JObj(Credential(FromOpt(shareUsername), FromOpt(sharePassword), FromOpt(shareDomain)))]
  }

  /** The payload that modifies a repository profile: no protocol and no profile type. */
  function ModifyPayload(name: Option<string>, catalogPath: Option<string>, description: Option<string>,
                         shareUsername: Option<string>, sharePassword: Option<string>,
                         shareDomain: Option<string>): (p: Obj)
    ensures p.Keys == {"profileName", "sharePath", "shareCredential"}
                      + (if description.Some? then {"description"} else {})
    ensures "description" in p <==> description.Some?
    ensures p["shareCredential"].JObj? && p["shareCredential"].fields.Keys == CredentialKeys
    ensures forall k :: k in p && k != "shareCredential" ==> p[k].JStr? || p[k] == JNull
    ensures forall k :: k in CredentialKeys ==> p["shareCredential"].fields[k].JStr? || p["shareCredential"].fields[k] == JNull
  {
    var p := map["profileName" := FromOpt(name), "sharePath" := FromOpt(catalogPath)];
    var p := if description.Some? then p["description" := JStr(description.value)] else p;
    p["shareCredential" := JObj(Credential(FromOpt(shareUsername), FromOpt(sharePassword), FromOpt(shareDomain)))]
  }

  /** A credential field of the test-connection payload: a missing value is sent as "". */
  function BlankIfNone(o: Option<string>): Json
  {
    JStr(if o.Some? then o.value else "")
  }

  /** The payload of a connection test. */
  function ConnPayload(protocolType: Option<string>, catalogPath: Option<string>, shareUsername: Option<string>,
                       sharePassword: Option<string>, shareDomain: Option<string>): (p: Obj)
    ensures p.Keys == {"protocolType", "catalogPath", "shareCredential", "checkCertificate"}
    ensures p["checkCertificate"] == JBool(false)
    ensures p["shareCredential"].JObj? && p["shareCredential"].fields.Keys == CredentialKeys
    ensures forall k :: k in CredentialKeys ==> p["shareCredential"].fields[k].JStr?
  {
    map["protocolType" := FromOpt(protocolType), "catalogPath" := FromOpt(catalogPath),
        "shareCredential" := JObj(Credential(BlankIfNone(shareUsername), BlankIfNone(sharePassword),
                                             BlankIfNone(shareDomain))),
        "checkCertificate" := JBool(false)]
  }

  /** A str-or-None value read back from a payload. */
  function ToOpt(j: Json): Option<string>
  {
    if j.JStr? then Some(j.s) else None
  }

  /** How a profile payload reads back: an absent key or a null value means "not given". */
  function ReadPayload(p: Obj): ProfileFields
  {
    var cred := if "shareCredential" in p && p["shareCredential"].JObj? then p["shareCredential"].fields else map[];
    ProfileFields(ToOpt(Get(p, "profileName")), ToOpt(Get(p, "sharePath")), ToOpt(Get(p, "description")),
                  ToOpt(Get(p, "protocolType")), ToOpt(Get(cred, "username")), ToOpt(Get(cred, "password")),
                  ToOpt(Get(cred, "domain")))
  }

  /** The create payload loses nothing: every field, a missing description
      included, reads back as given. */
  lemma CreatePayloadRoundTrip(f: ProfileFields)
    ensures ReadPayload(CreatePayload(f.name, f.catalogPath, f.description, f.protocolType,
                                      f.shareUsername, f.sharePassword, f.shareDomain)) == f
  {
  }

  /** The modify payload is the create payload without `protocolType` and
      `profileType`, whatever protocol the create payload would carry. */
  lemma ModifyIsCreateWithoutTypes(f: ProfileFields)
    ensures ModifyPayload(f.name, f.catalogPath, f.description, f.shareUsername, f.sharePassword, f.shareDomain)
         == CreatePayload(f.name, f.catalogPath, f.description, f.protocolType,
                          f.shareUsername, f.sharePassword, f.shareDomain) - {"protocolType", "profileType"}
  {
  }

  /** The test-connection credential carries the given value of each field and
      "" for a missing one; when all three are given it is the credential of
      the create payload, and protocol and path are those of the create payload. */
  lemma ConnPayloadCredential(f: ProfileFields)
    ensures var c := ConnPayload(f.protocolType, f.catalogPath, f.shareUsername, f.sharePassword, f.shareDomain)
                     ["shareCredential"].fields;
            && (f.shareUsername.Some? ==> c["username"] == JStr(f.shareUsername.value))
            && (f.shareUsername.None? ==> c["username"] == JStr(""))
            && (f.sharePassword.Some? ==> c["password"] == JStr(f.sharePassword.value))
            && (f.sharePassword.None? ==> c["password"] == JStr(""))
            && (f.shareDomain.Some? ==> c["domain"] == JStr(f.shareDomain.value))
            && (f.shareDomain.None? ==> c["domain"] == JStr(""))
    ensures var conn := ConnPayload(f.protocolType, f.catalogPath, f.shareUsername, f.sharePassword, f.shareDomain);
            var create := CreatePayload(f.name, f.catalogPath, f.description, f.protocolType,
                                        f.shareUsername, f.sharePassword, f.shareDomain);
            && conn["protocolType"] == create["protocolType"]
            && conn["catalogPath"] == create["sharePath"]
            && (f.shareUsername.Some? && f.sharePassword.Some? && f.shareDomain.Some? ==>
                  conn["shareCredential"] == create["shareCredential"])
  {
  }

  /** `search_profile_name`: the first profile named `profileName`, or `{}`. */
  method SearchProfileName(data: seq<Obj>, profileName: string) returns (r: Obj)
    ensures r == FirstWith(data, "profileName", profileName)
  {
    for i := 0 to |data|
      invariant FirstWith(data[i..], "profileName", profileName) == FirstWith(data, "profileName", profileName)
    {
      if Get(data[i], "profileName") == JStr(profileName) {
        return data[i];
      }
      assert data[i..][1..] == data[i + 1..];
    }
    return map[];
  }

  /** What `get_firmware_repository_profile` returns: the whole list, or one
      profile (possibly `{}`) when a name was asked for. */
  datatype ProfileInfo = Profiles(profiles: seq<Obj>) | Profile(profile: Obj)

  predicate InfoTruthy(info: ProfileInfo)
  {
    match info
    case Profiles(ps) => ps != []
    case Profile(p) => p != map[]
  }

  /** `get_firmware_repository_profile`: one GET of all profiles; with a
      non-empty name, the first profile of that name or `{}`; without one, the
      list; an unsuccessful response reads as the empty list. */
  function GetFirmwareRepositoryProfile(invoke: Invoke, profileName: Option<string>): (r: Outcome<ProfileInfo>)
    ensures r.Returned? && r.sent == [Request(GET, ProfileUri, None)]
    ensures var resp := invoke(Request(GET, ProfileUri, None));
            && (!resp.success ==> r.value == Profiles([]))
            && (resp.success && !OptTruthy(profileName) ==> r.value == Profiles(resp.jsonData))
            && (resp.success && OptTruthy(profileName) ==>
                  && r.value.Profile?
                  && (r.value.profile == map[] <==>
                        forall i :: 0 <= i < |resp.jsonData| ==> !Has(resp.jsonData[i], "profileName", profileName.value))
                  && (r.value.profile != map[] ==>
                        exists i :: 0 <= i < |resp.jsonData| && r.value.profile == resp.jsonData[i]
                          && Has(resp.jsonData[i], "profileName", profileName.value)
                          && forall j :: 0 <= j < i ==> !Has(resp.jsonData[j], "profileName", profileName.value)))
  {
    var req := Request(GET, ProfileUri, None);
    var resp := invoke(req);
    if !resp.success then Returned([req], Profiles([]))
    else if OptTruthy(profileName) then
      FirstWithIsFirstMatch(resp.jsonData, "profileName", profileName.value);
      Returned([req], Profile(FirstWith(resp.jsonData, "profileName", profileName.value)))
    else Returned([req], Profiles(resp.jsonData))
  }

  /** `test_connection`: exactly one POST to the test-connection endpoint,
      carrying the connection payload, whose answer is returned. */
  function TestConnection(invoke: Invoke, protocolType: Option<string>, catalogPath: Option<string>,
                          shareUsername: Option<string>, sharePassword: Option<string>,
                          shareDomain: Option<string>): (r: Outcome<Response>)
    ensures r.Returned? && |r.sent| == 1
    ensures r.sent[0] == Request(POST, TestConnectionUri,
                                 Some(ConnPayload(protocolType, catalogPath, shareUsername, sharePassword, shareDomain)))
    ensures r.value == invoke(r.sent[0])
  {
    var req := Request(POST, TestConnectionUri,
                       Some(ConnPayload(protocolType, catalogPath, shareUsername, sharePassword, shareDomain)));
    Returned([req], invoke(req))
  }

  /** `[param for param in required_params if param is None]`. */
  function NoneValues(params: seq<Json>): (r: seq<Json>)
    ensures |r| <= |params|
    ensures forall i :: 0 <= i < |r| ==> r[i] == JNull
    ensures r == [] <==> forall i :: 0 <= i < |params| ==> params[i] != JNull
  {
    if params == [] then []
    else (if params[0] == JNull then [JNull] else []) + NoneValues(params[1..])
  }

  const RequiredPrefix: string := "Required parameters such as: "

  /** The required-parameter check as written: the None values themselves are
      joined, so a missing parameter raises TypeError before any request is
      sent and the error message is never produced. */
  function CheckRequired(required: seq<Json>): (r: Result<Option<string>>)
    ensures r.Ok? <==> forall i :: 0 <= i < |required| ==> required[i] != JNull
    ensures r.Ok? ==> r.value == None
  {
    var missing := NoneValues(required);
    if missing == [] then Ok(None)
    else
      match Join(", ", missing)
      case Err(e) => Err(e)
      case Ok(s) => Ok(Some(RequiredPrefix + s))
  }

  /** `create_firmware_repository_profile` as written: with name, catalog path
      and protocol all given, one POST of the create payload and no error
      message; with any of them missing, TypeError and no request at all. */
  function CreateFirmwareRepositoryProfile(invoke: Invoke, name: Option<string>, catalogPath: Option<string>,
                                           description: Option<string>, protocolType: Option<string>,
                                           shareUsername: Option<string>, sharePassword: Option<string>,
                                           shareDomain: Option<string>): (r: Outcome<(Response, Option<string>)>)
    ensures r.Raised? <==> name.None? || catalogPath.None? || protocolType.None?
    ensures r.Raised? ==> r.error == TypeError && r.sent == []
    ensures r.Returned? ==>
      && r.sent == [Request(POST, ProfileUri, Some(CreatePayload(name, catalogPath, description, protocolType,
                                                                 shareUsername, sharePassword, shareDomain)))]
      && r.value == (invoke(r.sent[0]), None)
  {
    var required := [FromOpt(name), FromOpt(catalogPath), FromOpt(protocolType)];
    assert (forall i :: 0 <= i < |required| ==> required[i] != JNull)
       <==> name.Some? && catalogPath.Some? && protocolType.Some? by {
      assert required[0] == FromOpt(name) && required[1] == FromOpt(catalogPath) && required[2] == FromOpt(protocolType);
    }
    match CheckRequired(required)
    case Err(e) => Raised([], e)
    case Ok(errMsg) =>
      var req := Request(POST, ProfileUri, Some(CreatePayload(name, catalogPath, description, protocolType,
                                                              shareUsername, sharePassword, shareDomain)));
      Returned([req], (invoke(req), errMsg))
  }

  /** `modify_firmware_repository_profile` as written: with name and catalog
      path given, one PUT of the modify payload to the profile's URI and no
      error message; with either missing, TypeError and no request at all. */
  function ModifyFirmwareRepositoryProfile(invoke: Invoke, profileId: int, name: Option<string>,
                                           catalogPath: Option<string>, description: Option<string>,
                                           shareUsername: Option<string>, sharePassword: Option<string>,
                                           shareDomain: Option<string>): (r: Outcome<(Response, Option<string>)>)
    ensures r.Raised? <==> name.None? || catalogPath.None?
    ensures r.Raised? ==> r.error == TypeError && r.sent == []
    ensures r.Returned? ==>
      && r.sent == [Request(PUT, ProfileIdUri(profileId),
                            Some(ModifyPayload(name, catalogPath, description, shareUsername, sharePassword, shareDomain)))]
      && r.value == (invoke(r.sent[0]), None)
  {
    var required := [FromOpt(name), FromOpt(catalogPath)];
    assert (forall i :: 0 <= i < |required| ==> required[i] != JNull) <==> name.Some? && catalogPath.Some? by {
      assert required[0] == FromOpt(name) && required[1] == FromOpt(catalogPath);
    }
    match CheckRequired(required)
    case Err(e) => Raised([], e)
    case Ok(errMsg) =>
      var req := Request(PUT, ProfileIdUri(profileId),
                         Some(ModifyPayload(name, catalogPath, description, shareUsername, sharePassword, shareDomain)));
      Returned([req], (invoke(req), errMsg))
  }

  /** A create without a name: the join over `[None]` raises TypeError, no
      request reaches the appliance, and the advisory message is never built. */
  lemma CreateWithoutNameSendsNothing(invoke: Invoke, catalogPath: string, protocolType: string)
    ensures Join(", ", [JNull]) == Err(TypeError)
    ensures CreateFirmwareRepositoryProfile(invoke, None, Some(catalogPath), None, Some(protocolType), None, None, None)
         == Raised([], TypeError)
  {
  }

  /** A modify without a catalog path raises before its PUT, likewise. */
  lemma ModifyWithoutPathSendsNothing(invoke: Invoke, profileId: int, name: string)
    ensures ModifyFirmwareRepositoryProfile(invoke, profileId, Some(name), None, None, None, None, None)
         == Raised([], TypeError)
  {
  }

  // The check as evidently intended: it names the missing parameters and the
  // request is still sent, the error message being advisory.

  /** The names of the parameters whose value is None, in order. */
  function MissingNames(params: seq<(string, Option<string>)>): (r: seq<string>)
    ensures |r| <= |params|
    ensures forall n :: n in r <==> exists i :: 0 <= i < |params| && params[i].0 == n && params[i].1.None?
  {
    if params == [] then []
    else
      var rest := MissingNames(params[1..]);
      assert forall i :: 0 < i < |params| ==> params[i] == params[1..][i - 1];
      if params[0].1.None? then [params[0].0] + rest else rest
  }

  /** The missing names keep the parameters' order and list each missing
      parameter once: one pair contributes its name exactly when its value is
      None, and the names of a concatenation are those of its first part
      followed by those of its second. */
  lemma {:induction false} MissingNamesConcat(a: seq<(string, Option<string>)>, b: seq<(string, Option<string>)>)
    ensures forall n, o :: MissingNames([(n, o)]) == if o.None? then [n] else []
    ensures MissingNames(a + b) == MissingNames(a) + MissingNames(b)
  {
    forall n, o ensures MissingNames([(n, o)]) == if o.None? then [n] else [] {
      assert [(n, o)][1..] == [];
    }
    if a == [] {
      assert a + b == b;
    } else {
      assert (a + b)[0] == a[0];
      assert (a + b)[1..] == a[1..] + b;
      MissingNamesConcat(a[1..], b);
      if a[0].1.None? {
        assert [a[0].0] + (MissingNames(a[1..]) + MissingNames(b))
            == ([a[0].0] + MissingNames(a[1..])) + MissingNames(b);
      }
    }
  }

  /** The advisory message naming the missing parameters, if any is missing. */
  function MissingMessage(params: seq<(string, Option<string>)>): (r: Option<string>)
    ensures r.None? <==> forall i :: 0 <= i < |params| ==> params[i].1.Some?
    ensures r.Some? ==> r.value == RequiredPrefix + JoinStrs(", ", MissingNames(params))
  {
    var missing := MissingNames(params);
    if missing == [] then
      assert forall i :: 0 <= i < |params| ==> params[i].0 !in missing;
      None
    else
      assert missing[0] in missing;
      Some(RequiredPrefix + JoinStrs(", ", missing))
  }

  /** Create as intended: the POST is always sent, and the message is present
      exactly when a required parameter is missing. */
  function CreateFirmwareRepositoryProfileIntended(invoke: Invoke, name: Option<string>, catalogPath: Option<string>,
                                                   description: Option<string>, protocolType: Option<string>,
                                                   shareUsername: Option<string>, sharePassword: Option<string>,
                                                   shareDomain: Option<string>): (r: Outcome<(Response, Option<string>)>)
    ensures r.Returned?
    ensures r.sent == [Request(POST, ProfileUri, Some(CreatePayload(name, catalogPath, description, protocolType,
                                                                    shareUsername, sharePassword, shareDomain)))]
    ensures r.value.0 == invoke(r.sent[0])
    ensures r.value.1.None? <==> name.Some? && catalogPath.Some? && protocolType.Some?
    ensures r.value.1 == MissingMessage([("name", name), ("catalog_path", catalogPath), ("protocol_type", protocolType)])
  {
    var params := [("name", name), ("catalog_path", catalogPath), ("protocol_type", protocolType)];
    assert (forall i :: 0 <= i < |params| ==> params[i].1.Some?)
       <==> name.Some? && catalogPath.Some? && protocolType.Some? by {
      assert params[0].1 == name && params[1].1 == catalogPath && params[2].1 == protocolType;
    }
    var errMsg := MissingMessage(params);
    var req := Request(POST, ProfileUri, Some(CreatePayload(name, catalogPath, description, protocolType,
                                                            shareUsername, sharePassword, shareDomain)));
    Returned([req], (invoke(req), errMsg))
  }

  /** Modify as intended: the PUT is always sent, and the message is present
      exactly when the name or the catalog path is missing. */
  function ModifyFirmwareRepositoryProfileIntended(invoke: Invoke, profileId: int, name: Option<string>,
                                                   catalogPath: Option<string>, description: Option<string>,
                                                   shareUsername: Option<string>, sharePassword: Option<string>,
                                                   shareDomain: Option<string>): (r: Outcome<(Response, Option<string>)>)
    ensures r.Returned?
    ensures r.sent == [Request(PUT, ProfileIdUri(profileId),
                               Some(ModifyPayload(name, catalogPath, description, shareUsername, sharePassword, shareDomain)))]
    ensures r.value.0 == invoke(r.sent[0])
    ensures r.value.1.None? <==> name.Some? && catalogPath.Some?
    ensures r.value.1 == MissingMessage([("name", name), ("catalog_path", catalogPath)])
  {
    var params := [("name", name), ("catalog_path", catalogPath)];
    assert (forall i :: 0 <= i < |params| ==> params[i].1.Some?) <==> name.Some? && catalogPath.Some? by {
      assert params[0].1 == name && params[1].1 == catalogPath;
    }
    var errMsg := MissingMessage(params);
    var req := Request(PUT, ProfileIdUri(profileId),
                       Some(ModifyPayload(name, catalogPath, description, shareUsername, sharePassword, shareDomain)));
    Returned([req], (invoke(req), errMsg))
  }

  /** The intended create without a name still sends its POST and reports
      exactly the name as missing. */
  lemma IntendedCreateNamesMissingName(invoke: Invoke, catalogPath: string, protocolType: string)
    ensures var r := CreateFirmwareRepositoryProfileIntended(invoke, None, Some(catalogPath), None,
                                                             Some(protocolType), None, None, None);
            |r.sent| == 1 && r.value.1 == Some(RequiredPrefix + "name")
  {
    var params: seq<(string, Option<string>)> :=
      [("name", None), ("catalog_path", Some(catalogPath)), ("protocol_type", Some(protocolType))];
    assert MissingNames(params[2..]) == [];
    assert MissingNames(params[1..]) == [];
    assert MissingNames(params) == ["name"];
    assert Strs(["name"]) == [JStr("name")];
    assert JoinStrs(", ", ["name"]) == "name";
  }
}
