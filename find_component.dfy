/** The compliance filter of the firmware integration tests
    (`find_component.py`): for the reports of one cluster, the components of
    each host (by service tag) whose update action is the requested one, and
    under `common` the components shared by every entry. */
module FindComponent {
  import opened Values

  datatype Compliance = Compliance(updateAction: string, sourceName: string)

  datatype HostReport = HostReport(serviceTag: string, componentCompliances: seq<Compliance>)

  /** One element of the input list; `cluster` is what `.get('cluster')` yields. */
  datatype ClusterReport = ClusterReport(cluster: Json, hostComplianceReports: seq<HostReport>)

  /** A value of the result dict: the component list of one service tag, or
      the `common` entry, a set turned into a list in an order not modelled. */
  datatype Names = Listed(names: seq<string>) | Common(common: set<string>)

  /** `set(value)`. */
  function Elems(v: Names): set<string>
  {
    match v
    case Listed(ns) => set n | n in ns
    case Common(c) => c
  }

  function LowerChar(c: char): char
  {
    if 'A' <= c <= 'Z' then (c as int + 32) as char else c
  }

  /** `s.lower()` on ASCII letters. */
  function Lower(s: string): string
  {
    seq(|s|, i requires 0 <= i < |s| => LowerChar(s[i]))
  }

  /** `action.lower() == operation.lower()`. */
  predicate SameAction(action: string, operation: string)
  {
    Lower(action) == Lower(operation)
  }

  /** The source names of the components whose update action is `operation`,
      in input order (the list one report contributes). */
  function Matching(operation: string, cs: seq<Compliance>): seq<string>
  {
    if cs == [] then []
    else
      var last := cs[|cs| - 1];
      Matching(operation, cs[..|cs| - 1]) + (if SameAction(last.updateAction, operation) then [last.sourceName] else [])
  }

  /** The result dict after the reports of one cluster have been added to `acc`. */
  function AddReports(acc: map<string, Names>, operation: string, reports: seq<HostReport>): map<string, Names>
  {
    if reports == [] then acc
    else
      var last := reports[|reports| - 1];
      AddReports(acc, operation, reports[..|reports| - 1])[last.serviceTag := Listed(Matching(operation, last.componentCompliances))]
  }

  /** Every name held by some entry of `m`. */
  function AllNames(m: map<string, Names>): set<string>
  {
    set k, x | k in m && x in Elems(m[k]) :: x
  }

  /** The names held by every entry of `m`. */
  function CommonOf(m: map<string, Names>): set<string>
  {
    set x | x in AllNames(m) && forall k :: k in m ==> x in Elems(m[k])
  }

  /** `all_value[0].intersection(*all_value[1:])`: IndexError on an empty dict. */
  function IntersectAll(m: map<string, Names>): Result<set<string>>
  {
    if m == map[] then Err(IndexError) else Ok(CommonOf(m))
  }

  /** One turn of the outer loop: an entry of another cluster changes nothing;
      one of the requested cluster adds its reports, then `common`. */
  function Visit(acc: map<string, Names>, clusterName: string, operation: string, entry: ClusterReport): Result<map<string, Names>>
  {
    if entry.cluster != JStr(clusterName) then Ok(acc)
    else
      var m := AddReports(acc, operation, entry.hostComplianceReports);
      match IntersectAll(m)
      case Err(e) => Err(e)
      case Ok(c) => Ok(m["common" := Common(c)])
  }

  /** The whole script on `input`, as a left fold; an exception ends it. */
  function Run(clusterName: string, operation: string, input: seq<ClusterReport>): Result<map<string, Names>>
  {
    if input == [] then Ok(map[])
    else
      match Run(clusterName, operation, input[..|input| - 1])
      case Err(e) => Err(e)
      case Ok(acc) => Visit(acc, clusterName, operation, input[|input| - 1])
  }

  /** An exception raised while the first `k` entries are processed is the
      outcome of the whole run. */
  lemma {:induction false} RunKeepsError(clusterName: string, operation: string, input: seq<ClusterReport>, k: nat)
    requires k <= |input| && Run(clusterName, operation, input[..k]).Err?
    ensures Run(clusterName, operation, input) == Run(clusterName, operation, input[..k])
    decreases |input| - k
  {
    if k < |input| {
      assert input[..k + 1][..k] == input[..k];
      RunKeepsError(clusterName, operation, input, k + 1);
    } else {
      assert input[..k] == input;
    }
  }

  /** The common entry, computed as the script does: start from the set of
      one entry and intersect it with the set of every other entry. */
  method IntersectValues(m: map<string, Names>) returns (r: Result<set<string>>)
    ensures r == IntersectAll(m)
  {
    if m == map[] {
      return Err(IndexError);
    }
    var first :| first in m;
    var common := Elems(m[first]);
    var rest := m.Keys - {first};
    while rest != {}
      invariant rest <= m.Keys && first !in rest
      invariant forall x :: x in common <==>
                  x in Elems(m[first]) && forall k :: k in m && k !in rest ==> x in Elems(m[k])
      decreases rest
    {
      var k :| k in rest;
      common := common * Elems(m[k]);
      rest := rest - {k};
    }
    assert common == CommonOf(m) by {
      forall x | x in common ensures x in AllNames(m) {
        assert x in Elems(m[first]);
      }
    }
    return Ok(common);
  }

  /** The script: for each entry of the requested cluster, the matching
      components of each report replace the entry of its service tag, and then
      `common` is set to the intersection of all entries. */
  method Find(clusterName: string, updateOperation: string, inputList: seq<ClusterReport>)
    returns (r: Result<map<string, Names>>)
    ensures r == Run(clusterName, updateOperation, inputList)
  {
    var resultDict: map<string, Names> := map[];
    for i := 0 to |inputList|
      invariant Run(clusterName, updateOperation, inputList[..i]) == Ok(resultDict)
    {
      var eachCluster := inputList[i];
      assert inputList[..i + 1][..i] == inputList[..i];
      if eachCluster.cluster == JStr(clusterName) {
        var reports := eachCluster.hostComplianceReports;
        ghost var before := resultDict;
        for j := 0 to |reports|
          invariant resultDict == AddReports(before, updateOperation, reports[..j])
        {
          var eachReport := reports[j];
          var comps := eachReport.componentCompliances;
          var found: seq<string> := [];
          for l := 0 to |comps|
            invariant found == Matching(updateOperation, comps[..l])
          {
            assert comps[..l + 1][..l] == comps[..l];
            if Lower(comps[l].updateAction) == Lower(updateOperation) {
              found := found + [comps[l].sourceName];
            }
          }
          assert comps[..|comps|] == comps;
          assert reports[..j + 1][..j] == reports[..j];
          resultDict := resultDict[eachReport.serviceTag := Listed(found)];
        }
        assert reports[..|reports|] == reports;
        var common := IntersectValues(resultDict);
        if common.Err? {
          RunKeepsError(clusterName, updateOperation, inputList, i + 1);
          return Err(common.error);
        }
        resultDict := resultDict["common" := Common(common.value)];
      }
    }
    assert inputList[..|inputList|] == inputList;
    return Ok(resultDict);
  }

  /** A name is listed for a report exactly when some component with a
      matching update action has it as source name. */
  lemma {:induction false} MatchingMembers(operation: string, cs: seq<Compliance>, s: string)
    ensures s in Matching(operation, cs) <==>
      exists i :: 0 <= i < |cs| && SameAction(cs[i].updateAction, operation) && cs[i].sourceName == s
  {
    if cs != [] {
      var init := cs[..|cs| - 1];
      MatchingMembers(operation, init, s);
      assert forall i :: 0 <= i < |init| ==> init[i] == cs[i];
    }
  }

  /** The list keeps input order and multiplicity: one component contributes
      its source name once when its action matches and nothing otherwise, and
      the matches of two consecutive runs of components are the matches of
      the first followed by those of the second. */
  lemma MatchingConcat(operation: string, a: seq<Compliance>, b: seq<Compliance>)
    ensures forall c :: Matching(operation, [c]) == if SameAction(c.updateAction, operation) then [c.sourceName] else []
    ensures Matching(operation, a + b) == Matching(operation, a) + Matching(operation, b)
  {
    forall c ensures Matching(operation, [c]) == if SameAction(c.updateAction, operation) then [c.sourceName] else [] {
      assert [c][..0] == [];
    }
    MatchingAppend(operation, a, b);
  }

  lemma {:induction false} MatchingAppend(operation: string, a: seq<Compliance>, b: seq<Compliance>)
    ensures Matching(operation, a + b) == Matching(operation, a) + Matching(operation, b)
  {
    if b == [] {
      assert a + b == a;
    } else {
      var init := b[..|b| - 1];
      assert (a + b)[..|a + b| - 1] == a + init;
      assert (a + b)[|a + b| - 1] == b[|b| - 1];
      MatchingAppend(operation, a, init);
    }
  }

  /** A service tag's entry is the list of the LAST report with that tag:
      a later report replaces an earlier list, lists are never merged. */
  lemma {:induction false} LastReportWins(acc: map<string, Names>, operation: string, reports: seq<HostReport>, j: nat)
    requires j < |reports|
    requires forall k :: j < k < |reports| ==> reports[k].serviceTag != reports[j].serviceTag
    ensures var m := AddReports(acc, operation, reports);
            reports[j].serviceTag in m && m[reports[j].serviceTag] == Listed(Matching(operation, reports[j].componentCompliances))
  {
    if j < |reports| - 1 {
      var init := reports[..|reports| - 1];
      assert init[j] == reports[j];
      LastReportWins(acc, operation, init, j);
    }
  }

  /** Keys that no report carries keep their earlier entry (or stay absent). */
  lemma {:induction false} OtherTagsUntouched(acc: map<string, Names>, operation: string, reports: seq<HostReport>, t: string)
    requires forall k :: 0 <= k < |reports| ==> reports[k].serviceTag != t
    ensures var m := AddReports(acc, operation, reports);
            (t in m <==> t in acc) && (t in acc ==> m[t] == acc[t])
  {
    if reports != [] {
      var init := reports[..|reports| - 1];
      assert forall k :: 0 <= k < |init| ==> init[k] == reports[k];
      OtherTagsUntouched(acc, operation, init, t);
    }
  }

  /** `common` as a set is the intersection of the sets of all entries. */
  lemma CommonIsIntersection(m: map<string, Names>)
    requires m != map[]
    ensures IntersectAll(m).Ok?
    ensures forall x :: x in IntersectAll(m).value <==> forall k :: k in m ==> x in Elems(m[k])
  {
    var k0 :| k0 in m;
    forall x | forall k :: k in m ==> x in Elems(m[k])
      ensures x in AllNames(m)
    {
      assert x in Elems(m[k0]);
    }
  }

  /** A visit of the requested cluster that returns sets `common` to the
      intersection of all entries present after its reports were added, an
      earlier `common` entry included; with no entry at all it raises
      IndexError instead. */
  lemma VisitSetsCommon(acc: map<string, Names>, clusterName: string, operation: string, entry: ClusterReport)
    requires entry.cluster == JStr(clusterName)
    ensures var m := AddReports(acc, operation, entry.hostComplianceReports);
            var r := Visit(acc, clusterName, operation, entry);
            && (m == map[] ==> r == Err(IndexError))
            && (m != map[] ==>
                  && r.Ok? && "common" in r.value
                  && forall x :: x in Elems(r.value["common"]) <==> forall k :: k in m ==> x in Elems(m[k]))
  {
    var m := AddReports(acc, operation, entry.hostComplianceReports);
    if m != map[] {
      CommonIsIntersection(m);
    }
  }

  /** The entries of the requested cluster, in order. */
  function Selected(clusterName: string, input: seq<ClusterReport>): (r: seq<ClusterReport>)
    ensures forall i :: 0 <= i < |r| ==> r[i].cluster == JStr(clusterName)
  {
    if input == [] then []
    else
      var last := input[|input| - 1];
      Selected(clusterName, input[..|input| - 1]) + (if last.cluster == JStr(clusterName) then [last] else [])
  }

  /** Only entries of the requested cluster contribute: the run on the whole
      input is the run on those entries alone. */
  lemma {:induction false} OnlyRequestedClusterCounts(clusterName: string, operation: string, input: seq<ClusterReport>)
    ensures Run(clusterName, operation, input) == Run(clusterName, operation, Selected(clusterName, input))
  {
    if input != [] {
      var init := input[..|input| - 1];
      var last := input[|input| - 1];
      OnlyRequestedClusterCounts(clusterName, operation, init);
      var s := Selected(clusterName, init);
      if last.cluster == JStr(clusterName) {
        assert Selected(clusterName, input) == s + [last];
        assert (s + [last])[..|s + [last]| - 1] == s;
        assert (s + [last])[|s + [last]| - 1] == last;
      } else {
        assert Selected(clusterName, input) == s;
      }
    }
  }

  /** With no entry of the requested cluster the result is the empty dict,
      without a `common` key. */
  lemma NoEntryNoResult(clusterName: string, operation: string, input: seq<ClusterReport>)
    requires forall i :: 0 <= i < |input| ==> input[i].cluster != JStr(clusterName)
    ensures Run(clusterName, operation, input) == Ok(map[])
  {
    OnlyRequestedClusterCounts(clusterName, operation, input);
    var s := Selected(clusterName, input);
    if s != [] {
      assert s[0].cluster == JStr(clusterName);
      SelectedFrom(clusterName, input, s[0]);
      assert false;
    }
  }

  /** Every selected entry comes from the input. */
  lemma {:induction false} SelectedFrom(clusterName: string, input: seq<ClusterReport>, e: ClusterReport)
    requires e in Selected(clusterName, input)
    ensures e in input
  {
    if input != [] {
      var init := input[..|input| - 1];
      if e in Selected(clusterName, init) {
        SelectedFrom(clusterName, init, e);
        assert init <= input;
      }
    }
  }
}
