/** The baseline (compliance) profile client (`OMEVVBaselineProfile`): the
    lookup by `name`, job schedules, the baseline payload, the resolution of
    cluster names to entity ids and group ids, the repository id of a named
    profile, and the validation of profile and cluster names. */
module BaselineProfile {
  import opened Values
  import opened Transport
  import opened Lookup
  import FirmwareProfile

  /** `search_baseline_profile_name`: the first baseline profile named `profileName`, or `{}`. */
  method SearchBaselineProfileName(data: seq<Obj>, profileName: string) returns (r: Obj)
    ensures r == FirstWith(data, "name", profileName)
  {
    for i := 0 to |data|
      invariant FirstWith(data[i..], "name", profileName) == FirstWith(data, "name", profileName)
    {
      if Get(data[i], "name") == JStr(profileName) {
        return data[i];
      }
      assert data[i..][1..] == data[i + 1..];
    }
    return map[];
  }

  /** `get_baseline_profiles`: one GET of the console's baseline profiles; an
      unsuccessful response reads as no profiles. */
  function GetBaselineProfiles(invoke: Invoke, vcenterUuid: string): (r: Outcome<seq<Obj>>)
    ensures r.Returned? && r.sent == [Request(GET, BaselineProfileUri(vcenterUuid), None)]
    ensures invoke(r.sent[0]).success ==> r.value == invoke(r.sent[0]).jsonData
    ensures !invoke(r.sent[0]).success ==> r.value == []
  {
    var req := Request(GET, BaselineProfileUri(vcenterUuid), None);
    var resp := invoke(req);
    Returned([req], if resp.success then resp.jsonData else [])
  }

  /** `get_baseline_profile_by_name`: `{}` exactly when no listed profile has
      that name; otherwise the first profile that has it. */
  function GetBaselineProfileByName(invoke: Invoke, profileName: string, vcenterUuid: string): (r: Outcome<Obj>)
    ensures r.Returned? && r.sent == [Request(GET, BaselineProfileUri(vcenterUuid), None)]
    ensures var resp := invoke(r.sent[0]);
            var profiles := if resp.success then resp.jsonData else [];
            && (r.value == map[] <==> forall i :: 0 <= i < |profiles| ==> !Has(profiles[i], "name", profileName))
            && (r.value != map[] ==>
                  exists i :: 0 <= i < |profiles| && r.value == profiles[i] && Has(profiles[i], "name", profileName)
                    && forall j :: 0 <= j < i ==> !Has(profiles[j], "name", profileName))
  {
    var listed := GetBaselineProfiles(invoke, vcenterUuid);
    var found := FirstWith(listed.value, "name", profileName);
    FirstWithIsFirstMatch(listed.value, "name", profileName);
    if found != map[] then Returned(listed.sent, found) else Returned(listed.sent, map[])
  }

  const DayNames: seq<string> := ["monday", "tuesday", "wednesday", "thursday", "friday", "saturday", "sunday"]

  /** The keys of a job schedule: the seven days and the time. */
  const ScheduleKeys: set<string> := (set d | d in DayNames) + {"time"}

  /** `create_job_schedule`: no schedule unless both a non-empty day list and a
      non-empty time are given; "all" selects every day, otherwise each day is
      selected exactly when its lower-case name is listed (other strings are
      ignored); the time is copied. */
  function JobSchedule(days: Option<seq<string>>, time: Option<string>): (r: Option<Obj>)
    ensures r.None? <==> days.None? || days.value == [] || !OptTruthy(time)
    ensures r.Some? ==>
      && r.value.Keys == ScheduleKeys
      && r.value["time"] == JStr(time.value)
      && forall d :: d in DayNames ==> r.value[d] == JBool("all" in days.value || d in days.value)
  {
    if days.Some? && days.value != [] && OptTruthy(time) then
      var selected := set d | d in days.value;
      var flags := map d | d in DayNames :: JBool("all" in selected || d in selected);
      Some(flags["time" := JStr(time.value)])
    else None
  }

  /** `if job_schedule:` for a dict-or-None schedule. */
  predicate ScheduleTruthy(jobSchedule: Option<Obj>)
  {
    jobSchedule.Some? && jobSchedule.value != map[]
  }

  /** The baseline `get_create_payload_details`: name, repository id and group
      ids always; the description whenever one is given (even ""), the
      schedule only when it is a non-empty dict. */
  function BaselinePayload(name: Option<string>, firmwareRepoId: Json, groupIds: seq<Json>,
                           jobSchedule: Option<Obj>, description: Option<string>): (p: Obj)
    ensures p.Keys == {"name", "firmwareRepoId", "groupIds"}
                      + (if description.Some? then {"description"} else {})
                      + (if ScheduleTruthy(jobSchedule) then {"jobSchedule"} else {})
    ensures p["name"] == FromOpt(name) && p["firmwareRepoId"] == firmwareRepoId && p["groupIds"] == JList(groupIds)
    ensures description.Some? ==> p["description"] == JStr(description.value)
    ensures ScheduleTruthy(jobSchedule) ==> p["jobSchedule"] == JObj(jobSchedule.value)
  {
    var p := map["name" := FromOpt(name), "firmwareRepoId" := firmwareRepoId, "groupIds" := JList(groupIds)];
    var p := if description.Some? then p["description" := JStr(description.value)] else p;
    if ScheduleTruthy(jobSchedule) then p["jobSchedule" := JObj(jobSchedule.value)] else p
  }

  /** A schedule built by `create_job_schedule` reaches the payload exactly
      when one was built; an empty dict is dropped while an empty description
      is kept, the two optional keys following different rules. */
  lemma PayloadCarriesBuiltSchedule(name: Option<string>, firmwareRepoId: Json, groupIds: seq<Json>,
                                    days: Option<seq<string>>, time: Option<string>, description: Option<string>)
    ensures var s := JobSchedule(days, time);
            "jobSchedule" in BaselinePayload(name, firmwareRepoId, groupIds, s, description) <==> s.Some?
    ensures "jobSchedule" !in BaselinePayload(name, firmwareRepoId, groupIds, Some(map[]), description)
    ensures "description" in BaselinePayload(name, firmwareRepoId, groupIds, None, Some(""))
  {
    var s := JobSchedule(days, time);
    if s.Some? {
      assert "time" in s.value;
    }
  }

  const MissingBaselineMsg: string := "Required parameters: name, firmware_repo_id, or group_ids are missing."

  /** `create_baseline_profile`: exactly one POST of the caller's payload,
      unchanged, to the console's baseline endpoint, whatever the other
      arguments; the advisory message is present exactly when the name, the
      repository id or the group id list is falsy. */
  function CreateBaselineProfile(invoke: Invoke, name: Option<string>, firmwareRepoId: Json, groupIds: seq<Json>,
                                 vcenterUuid: string, jobSchedule: Option<Obj>, payload: Obj,
                                 description: Option<string>): (r: Outcome<(Response, Option<string>)>)
    ensures r.Returned? && r.sent == [Request(POST, BaselineProfileUri(vcenterUuid), Some(payload))]
    ensures r.value.0 == invoke(r.sent[0])
    ensures r.value.1.Some? <==> !OptTruthy(name) || !Truthy(firmwareRepoId) || groupIds == []
  {
    var errMsg := if !OptTruthy(name) || !Truthy(firmwareRepoId) || groupIds == [] then Some(MissingBaselineMsg)
                  else None;
    var req := Request(POST, BaselineProfileUri(vcenterUuid), Some(payload));
    Returned([req], (invoke(req), errMsg))
  }

  /** `c['name'] in cluster_names`: a str value among the given names. */
  predicate NameIn(v: Json, names: seq<string>)
  {
    v.JStr? && v.s in names
  }

  /** Cluster `c` is selected by `names` and contributes the entity id `v`. */
  predicate Picks(c: Obj, names: seq<string>, v: Json)
  {
    "name" in c && NameIn(c["name"], names) && "entityId" in c && c["entityId"] == v
  }

  /** Cluster `c` can be read by the comprehension: it has a name, and an
      entity id when it is selected. */
  predicate Readable(c: Obj, names: seq<string>)
  {
    "name" in c && (NameIn(c["name"], names) ==> "entityId" in c)
  }

  /** `[c['entityId'] for c in clusters if c['name'] in cluster_names]`:
      KeyError exactly when some cluster cannot be read; otherwise the entity
      ids of exactly the selected clusters. */
  function EntityIds(clusters: seq<Obj>, names: seq<string>): (r: Result<seq<Json>>)
    ensures r.Ok? <==> forall i :: 0 <= i < |clusters| ==> Readable(clusters[i], names)
    ensures r.Err? ==> r.error == KeyError
    ensures r.Ok? ==> |r.value| <= |clusters|
    ensures r.Ok? ==> forall v :: v in r.value <==> exists i :: 0 <= i < |clusters| && Picks(clusters[i], names, v)
  {
    if clusters == [] then Ok([])
    else
      var c := clusters[0];
      var rest := EntityIds(clusters[1..], names);
      assert forall i :: 0 < i < |clusters| ==> clusters[i] == clusters[1..][i - 1];
      if "name" !in c then Err(KeyError)
      else if !NameIn(c["name"], names) then rest
      else if "entityId" !in c then Err(KeyError)
      else
        match rest
        case Err(e) => Err(e)
        case Ok(ids) => Ok([c["entityId"]] + ids)
  }

  /** Two results of a comprehension run over consecutive parts of a list. */
  function Concat(a: Result<seq<Json>>, b: Result<seq<Json>>): Result<seq<Json>>
  {
    match a
    case Err(e) => Err(e)
    case Ok(x) =>
      match b
      case Err(e) => Err(e)
      case Ok(y) => Ok(x + y)
  }

  /** The entity ids keep the order of the clusters in the response: the ids
      of a concatenation are the ids of the first part followed by those of
      the second. */
  lemma {:induction false} EntityIdsConcat(a: seq<Obj>, b: seq<Obj>, names: seq<string>)
    ensures EntityIds(a + b, names) == Concat(EntityIds(a, names), EntityIds(b, names))
  {
    if a == [] {
      assert a + b == b;
      if EntityIds(b, names).Ok? {
        assert [] + EntityIds(b, names).value == EntityIds(b, names).value;
      }
    } else {
      assert (a + b)[0] == a[0];
      assert (a + b)[1..] == a[1..] + b;
      EntityIdsConcat(a[1..], b, names);
      if EntityIds(a[1..], names).Ok? && EntityIds(b, names).Ok? {
        var x, y := EntityIds(a[1..], names).value, EntityIds(b, names).value;
        if Readable(a[0], names) && NameIn(a[0]["name"], names) {
          assert [a[0]["entityId"]] + (x + y) == ([a[0]["entityId"]] + x) + y;
        }
      }
    }
  }

  /** The clusters a response lists; an unsuccessful response lists none. */
  function ClustersOf(resp: Response): seq<Obj>
  {
    if resp.success then resp.jsonData else []
  }

  /** `get_cluster_id`: one GET of the console's clusters, then the entity ids
      of the clusters named in `clusterNames`; no ids when the GET fails. */
  function GetClusterId(invoke: Invoke, clusterNames: seq<string>, vcenterUuid: string): (r: Outcome<seq<Json>>)
    ensures r.sent == [Request(GET, ClusterUri(vcenterUuid), None)]
    ensures !invoke(r.sent[0]).success ==> r.Returned? && r.value == []
    ensures r.Raised? ==> r.error == KeyError
    ensures r.Returned? ==>
      var ids := EntityIds(ClustersOf(invoke(r.sent[0])), clusterNames);
      ids.Ok? && r.value == ids.value
    ensures r.Raised? <==> EntityIds(ClustersOf(invoke(r.sent[0])), clusterNames).Err?
  {
    var req := Request(GET, ClusterUri(vcenterUuid), None);
    match EntityIds(ClustersOf(invoke(req)), clusterNames)
    case Err(e) => Raised([req], e)
    case Ok(ids) => Returned([req], ids)
  }

  /** `[g[key] for g in records]`: KeyError exactly when a record lacks the
      key; otherwise the key's value of each record, in order. */
  function Pluck(records: seq<Obj>, key: string): (r: Result<seq<Json>>)
    ensures r.Ok? <==> forall i :: 0 <= i < |records| ==> key in records[i]
    ensures r.Err? ==> r.error == KeyError
    ensures r.Ok? ==> |r.value| == |records| && forall i :: 0 <= i < |records| ==> r.value[i] == records[i][key]
  {
    if records == [] then Ok([])
    else if key !in records[0] then Err(KeyError)
    else
      var rest := Pluck(records[1..], key);
      assert forall i :: 0 < i < |records| ==> records[i] == records[1..][i - 1];
      match rest
      case Err(e) => Err(e)
      case Ok(vs) => Ok([records[0][key]] + vs)
  }

  /** The request that resolves cluster entity ids to group ids. */
  function GroupsRequest(vcenterUuid: string, clusterIds: seq<Json>): Request
  {
    Request(POST, ClusterIdsUri(vcenterUuid), Some(map["clustIds" := JList(clusterIds)]))
  }

  /** `get_group_ids_for_clusters`: the cluster GET, then the group POST only
      when some cluster was selected; the group ids in response order, or no
      ids when nothing was selected or the POST failed. */
  function GetGroupIdsForClusters(invoke: Invoke, vcenterUuid: string, clusterNames: seq<string>): (r: Outcome<seq<Json>>)
    ensures |r.sent| >= 1 && r.sent[0] == Request(GET, ClusterUri(vcenterUuid), None)
    ensures var ids := EntityIds(ClustersOf(invoke(r.sent[0])), clusterNames);
            && (|r.sent| == 2 <==> ids.Ok? && ids.value != [])
            && (ids.Err? ==> r == Raised([r.sent[0]], KeyError))
            && (ids == Ok([]) ==> r == Returned([r.sent[0]], []))
            && (ids.Ok? && ids.value != [] ==>
                  && r.sent[1] == GroupsRequest(vcenterUuid, ids.value)
                  && var groups := invoke(r.sent[1]);
                     && (!groups.success ==> r == Returned(r.sent, []))
                     && (groups.success ==>
                           && (r.Raised? <==> exists i :: 0 <= i < |groups.jsonData| && "groupId" !in groups.jsonData[i])
                           && (r.Raised? ==> r.error == KeyError)
                           && (r.Returned? ==>
                                 && |r.value| == |groups.jsonData|
                                 && forall i :: 0 <= i < |groups.jsonData| ==> r.value[i] == groups.jsonData[i]["groupId"])))
  {
    var getReq := Request(GET, ClusterUri(vcenterUuid), None);
    match EntityIds(ClustersOf(invoke(getReq)), clusterNames)
    case Err(e) => Raised([getReq], e)
    case Ok(ids) =>
      if ids == [] then Returned([getReq], [])
      else
        var postReq := GroupsRequest(vcenterUuid, ids);
        var groups := invoke(postReq);
        if !groups.success then Returned([getReq, postReq], [])
        else
          match Pluck(groups.jsonData, "groupId")
          case Err(e) => Raised([getReq, postReq], e)
          case Ok(groupIds) => Returned([getReq, postReq], groupIds)
  }

  /** `get_repo_id`: one GET of the repository profiles. With a non-empty
      name: the `id` of the first profile of that name (None when no profile
      has it). Without one the whole list comes back, and calling `.get` on a
      non-empty list raises AttributeError. A failed GET gives None. */
  function GetRepoId(invoke: Invoke, repositoryProfile: Option<string>): (r: Outcome<Json>)
    ensures r.sent == [Request(GET, ProfileUri, None)]
    ensures var resp := invoke(r.sent[0]);
            && (!resp.success ==> r.Returned? && r.value == JNull)
            && (resp.success && OptTruthy(repositoryProfile) ==>
                  && r.Returned?
                  && ((forall i :: 0 <= i < |resp.jsonData| ==> !Has(resp.jsonData[i], "profileName", repositoryProfile.value))
                        ==> r.value == JNull)
                  && (forall i :: 0 <= i < |resp.jsonData| && Has(resp.jsonData[i], "profileName", repositoryProfile.value)
                        && (forall j :: 0 <= j < i ==> !Has(resp.jsonData[j], "profileName", repositoryProfile.value))
                        ==> r.value == Get(resp.jsonData[i], "id")))
            && (resp.success && !OptTruthy(repositoryProfile) ==>
                  && (r.Raised? <==> resp.jsonData != [])
                  && (r.Raised? ==> r.error == AttributeError)
                  && (r.Returned? ==> r.value == JNull))
  {
    var got := FirmwareProfile.GetFirmwareRepositoryProfile(invoke, repositoryProfile);
    var info := got.value;
    if !FirmwareProfile.InfoTruthy(info) then Returned(got.sent, JNull)
    else
      match info
      case Profile(p) => Returned(got.sent, Get(p, "id"))
      case Profiles(_) => Raised(got.sent, AttributeError)
  }

  /** `[c for c in cluster_names if c not in available_cluster_names]`: the
      requested names that are not among the available ones, in request order. */
  function InvalidNames(clusterNames: seq<string>, available: seq<Json>): (r: seq<string>)
    ensures |r| <= |clusterNames|
    ensures forall n :: n in r <==> n in clusterNames && JStr(n) !in available
  {
    if clusterNames == [] then []
    else
      var rest := InvalidNames(clusterNames[1..], available);
      assert forall n :: n in clusterNames <==> n == clusterNames[0] || n in clusterNames[1..];
      if JStr(clusterNames[0]) !in available then [clusterNames[0]] + rest else rest
  }

  /** The invalid names keep the request order and its duplicates: one name
      is reported as itself exactly when it is unavailable, and the invalid
      names of a concatenation are those of its first part followed by those
      of its second. */
  lemma {:induction false} InvalidNamesConcat(a: seq<string>, b: seq<string>, available: seq<Json>)
    ensures forall n :: InvalidNames([n], available) == if JStr(n) in available then [] else [n]
    ensures InvalidNames(a + b, available) == InvalidNames(a, available) + InvalidNames(b, available)
  {
    forall n ensures InvalidNames([n], available) == if JStr(n) in available then [] else [n] {
      assert [n][1..] == [];
    }
    if a == [] {
      assert a + b == b;
    } else {
      assert (a + b)[0] == a[0];
      assert (a + b)[1..] == a[1..] + b;
      InvalidNamesConcat(a[1..], b, available);
      if JStr(a[0]) !in available {
        assert [a[0]] + (InvalidNames(a[1..], available) + InvalidNames(b, available))
            == ([a[0]] + InvalidNames(a[1..], available)) + InvalidNames(b, available);
      }
    }
  }

  /** `[record.get(key) for record in records]`. */
  function Column(records: seq<Obj>, key: string): (r: seq<Json>)
    ensures |r| == |records|
    ensures forall i :: 0 <= i < |records| ==> r[i] == Get(records[i], key)
  {
    seq(|records|, i requires 0 <= i < |records| => Get(records[i], key))
  }

  /** The invalid-name list of `validate_cluster_names`: one GET of the
      clusters; no message exactly when every requested name is the name of a
      listed cluster; otherwise the message that lists the invalid names. */
  function ValidateClusterNames(invoke: Invoke, clusterNames: seq<string>, vcenterUuid: string): (r: Outcome<Option<string>>)
    ensures r.Returned? && r.sent == [Request(GET, ClusterUri(vcenterUuid), None)]
    ensures var clusters := invoke(r.sent[0]).jsonData;
            r.value.None? <==>
              forall n :: n in clusterNames ==> exists i :: 0 <= i < |clusters| && Has(clusters[i], "name", n)
    ensures r.value.Some? ==>
      var invalid := InvalidNames(clusterNames, Column(invoke(r.sent[0]).jsonData, "name"));
      r.value.value == "Invalid cluster names: " + JoinStrs(", ", invalid) + ". Please provide valid clusters."
  {
    var req := Request(GET, ClusterUri(vcenterUuid), None);
    var clusters := invoke(req).jsonData;
    var available := Column(clusters, "name");
    var invalid := InvalidNames(clusterNames, available);
    assert forall n :: JStr(n) in available <==> exists i :: 0 <= i < |clusters| && Has(clusters[i], "name", n) by {
      forall n ensures JStr(n) in available <==> exists i :: 0 <= i < |clusters| && Has(clusters[i], "name", n) {
        if JStr(n) in available {
          var i :| 0 <= i < |available| && available[i] == JStr(n);
          assert Has(clusters[i], "name", n);
        }
      }
    }
    if invalid == [] then
      assert forall n :: n in clusterNames ==> n !in invalid;
      Returned([req], None)
    else
      assert invalid[0] in invalid;
      Returned([req], Some("Invalid cluster names: " + JoinStrs(", ", invalid) + ". Please provide valid clusters."))
  }

  /** `str(repository_profile)`, None included. */
  function Display(o: Option<string>): string
  {
    if o.Some? then o.value else "None"
  }

  /** The check of `validate_repository_profile`: one GET of the profiles; no
      message exactly when some listed profile has the given `profileName`
      (a missing name matching a profile without one, as `.get` yields None);
      otherwise the invalid-profile message. */
  function ValidateRepositoryProfile(invoke: Invoke, repositoryProfile: Option<string>): (r: Outcome<Option<string>>)
    ensures r.Returned? && r.sent == [Request(GET, ProfileUri, None)]
    ensures var profiles := invoke(r.sent[0]).jsonData;
            r.value.None? <==>
              exists i :: 0 <= i < |profiles| && Get(profiles[i], "profileName") == FromOpt(repositoryProfile)
    ensures r.value.Some? ==>
      r.value.value == "Invalid repository profile: " + Display(repositoryProfile) + ". Please provide a valid profile."
  {
    var req := Request(GET, ProfileUri, None);
    var available := Column(invoke(req).jsonData, "profileName");
    if FromOpt(repositoryProfile) !in available then
      Returned([req], Some("Invalid repository profile: " + Display(repositoryProfile) + ". Please provide a valid profile."))
    else
      Returned([req], None)
  }
}
