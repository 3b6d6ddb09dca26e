/**
  The status part of the cluster state registry (clusterstate/clusterstate.go): when each
  clusterwide condition last changed, and since when each unregistered node has been known.
 */
module ClusterState {
  import opened Wrappers

  datatype ConditionKind = Health | ScaleUp | ScaleDown

  datatype ConditionStatus =
    | Healthy | Unhealthy
    | CandidatesPresent | NoCandidates
    | Needed | NotNeeded | InProgress | NoActivity | Backoff

  datatype Condition = Condition(kind: ConditionKind, status: ConditionStatus,
                                 lastProbeTime: int, lastTransitionTime: int)

  datatype Readiness = Readiness(unready: int, time: int)

  datatype UnregisteredNode = UnregisteredNode(name: string, unregisteredSince: int)

  // ---------------------------------------------------------------- transition times of one list

  // The first old condition of a kind.
  function FirstOfKind(conds: seq<Condition>, kind: ConditionKind): Option<Condition> {
    if conds == [] then None
    else if conds[0].kind == kind then Some(conds[0])
    else FirstOfKind(conds[1..], kind)
  }

  lemma {:induction false} FirstOfKindIs(conds: seq<Condition>, kind: ConditionKind)
    ensures var c := FirstOfKind(conds, kind);
      && (c.None? <==> forall d :: d in conds ==> d.kind != kind)
      && (c.Some? ==> exists j :: 0 <= j < |conds| && conds[j] == c.value && conds[j].kind == kind
                                  && forall i :: 0 <= i < j ==> conds[i].kind != kind)
  {
    if conds != [] {
      var rest := conds[1..];
      FirstOfKindIs(rest, kind);
      assert conds == [conds[0]] + rest;
      if conds[0].kind != kind && FirstOfKind(rest, kind).Some? {
        var j :| 0 <= j < |rest| && rest[j] == FirstOfKind(rest, kind).value && rest[j].kind == kind
                 && forall i :: 0 <= i < j ==> rest[i].kind != kind;
        assert conds[j + 1] == rest[j];
        assert forall i :: 1 <= i < j + 1 ==> conds[i] == rest[i - 1];
      }
    }
  }

  // A condition keeps its transition time if the previous list has it with the same status.
  function Carried(before: seq<Condition>, c: Condition): Condition {
    var previous := FirstOfKind(before, c.kind);
    c.(lastTransitionTime := if previous.Some? && previous.value.status == c.status
                             then previous.value.lastTransitionTime else c.lastProbeTime)
  }

  /** A condition is reported as it is observed, and dates from its probe unless the first old condition of its
      kind has the same status: then it dates from when that one does. */
  lemma CarriedIs(before: seq<Condition>, c: Condition, j: nat)
    ensures Carried(before, c) == c.(lastTransitionTime := Carried(before, c).lastTransitionTime)
    ensures (forall d :: d in before ==> d.kind != c.kind) ==> Carried(before, c).lastTransitionTime == c.lastProbeTime
    ensures j < |before| && before[j].kind == c.kind && (forall i :: 0 <= i < j ==> before[i].kind != c.kind) ==>
      Carried(before, c).lastTransitionTime
        == if before[j].status == c.status then before[j].lastTransitionTime else c.lastProbeTime
  {
    FirstOfKindIs(before, c.kind);
  }

  function CarriedAll(before: seq<Condition>, conds: seq<Condition>): (r: seq<Condition>)
    ensures |r| == |conds|
    ensures forall i :: 0 <= i < |conds| ==> r[i] == Carried(before, conds[i])
  {
    seq(|conds|, i requires 0 <= i < |conds| => Carried(before, conds[i]))
  }

  method UpdateLastTransitionSingleList(oldConds: seq<Condition>, newConds: seq<Condition>)
    returns (result: seq<Condition>)
    ensures result == CarriedAll(oldConds, newConds)
  {
    result := [];
    for i := 0 to |newConds|
      invariant |result| == i
      invariant forall k :: 0 <= k < i ==> result[k] == Carried(oldConds, newConds[k])
    {
      var condition := newConds[i].(lastTransitionTime := newConds[i].lastProbeTime);
      var j := 0;
      while j < |oldConds|
        invariant j <= |oldConds|
        invariant condition == newConds[i].(lastTransitionTime := newConds[i].lastProbeTime)
        invariant FirstOfKind(oldConds[j..], condition.kind) == FirstOfKind(oldConds, condition.kind)
      {
        if condition.kind == oldConds[j].kind {
          if condition.status == oldConds[j].status {
            condition := condition.(lastTransitionTime := oldConds[j].lastTransitionTime);
          }
          break;
        }
        assert oldConds[j..][1..] == oldConds[j + 1..];
        j := j + 1;
      }
      result := result + [condition];
    }
  }

  // ---------------------------------------------------------------- transition times over a run

  // Each call of GetStatus observes the three clusterwide conditions, in this order.
  ghost predicate IsObservation(conds: seq<Condition>) {
    |conds| == 3 && conds[0].kind == Health && conds[1].kind == ScaleUp && conds[2].kind == ScaleDown
  }

  ghost predicate AreObservations(run: seq<seq<Condition>>) {
    forall i :: 0 <= i < |run| ==> IsObservation(run[i])
  }

  // The status reported after a run of calls.
  function StatusAfter(run: seq<seq<Condition>>): seq<Condition> {
    if run == [] then [] else CarriedAll(StatusAfter(run[..|run| - 1]), run[|run| - 1])
  }

  // Call k opened the current stretch of unchanged status of condition c.
  ghost predicate OpensStretch(run: seq<seq<Condition>>, c: nat, k: nat)
    requires AreObservations(run) && c < 3
  {
    && k < |run|
    && (forall i :: k <= i < |run| ==> run[i][c].status == run[|run| - 1][c].status)
    && (k > 0 ==> run[k - 1][c].status != run[|run| - 1][c].status)
  }

  /** After any run of calls there are three conditions of different kinds, each carrying the latest
      status, and its transition time is the probe time of the call that opened the current stretch. */
  lemma {:induction false} TransitionTimes(run: seq<seq<Condition>>, c: nat) returns (k: nat)
    requires AreObservations(run) && run != [] && c < 3
    ensures IsObservation(StatusAfter(run))
    ensures StatusAfter(run)[c].status == run[|run| - 1][c].status
    ensures StatusAfter(run)[c].lastProbeTime == run[|run| - 1][c].lastProbeTime
    ensures OpensStretch(run, c, k) && forall j: nat :: OpensStretch(run, c, j) ==> j == k
    ensures StatusAfter(run)[c].lastTransitionTime == run[k][c].lastProbeTime
  {
    var front, n := run[..|run| - 1], |run| - 1;
    k := n;
    if front != [] {
      var start := TransitionTimes(front, c);
      FirstIsThatOne(StatusAfter(front), c);
      if front[n - 1][c].status == run[n][c].status {
        k := start;
      }
    }
  }

  lemma FirstIsThatOne(conds: seq<Condition>, c: nat)
    requires IsObservation(conds) && c < 3
    ensures FirstOfKind(conds, conds[c].kind) == Some(conds[c])
  {
    var kind := conds[c].kind;
    assert conds[1..][0] == conds[1] && conds[1..][1..] == conds[2..] && conds[2..][0] == conds[2];
    assert FirstOfKind(conds, kind) == if c == 0 then Some(conds[0]) else FirstOfKind(conds[1..], kind);
    assert c > 0 ==> FirstOfKind(conds[1..], kind) == if c == 1 then Some(conds[1]) else FirstOfKind(conds[2..], kind);
  }

  // ---------------------------------------------------------------- unregistered nodes over a run

  function LastEntry(nodes: seq<UnregisteredNode>, name: string): Option<UnregisteredNode> {
    if nodes == [] then None
    else
      var last := nodes[|nodes| - 1];
      if last.name == name then Some(last) else LastEntry(nodes[..|nodes| - 1], name)
  }

  // The entry of a name is its last one in the list, and it has one exactly if the list has the name.
  lemma {:induction false} LastEntryIs(nodes: seq<UnregisteredNode>, name: string)
    ensures var e := LastEntry(nodes, name);
      && (e.None? <==> forall n :: n in nodes ==> n.name != name)
      && (e.Some? ==> exists k :: 0 <= k < |nodes| && nodes[k] == e.value && nodes[k].name == name
                                  && forall j :: k < j < |nodes| ==> nodes[j].name != name)
  {
    if nodes != [] {
      var front, n := nodes[..|nodes| - 1], |nodes| - 1;
      LastEntryIs(front, name);
      assert nodes == front + [nodes[n]];
      if nodes[n].name == name {
        assert nodes[n] in nodes;
      } else if LastEntry(front, name).Some? {
        var k :| 0 <= k < |front| && front[k] == LastEntry(front, name).value && front[k].name == name
                 && forall j :: k < j < |front| ==> front[j].name != name;
        assert nodes[k] == front[k];
        assert forall j :: k < j < |front| ==> nodes[j] == front[j];
      }
    }
  }

  predicate Lists(nodes: seq<UnregisteredNode>, name: string) { LastEntry(nodes, name).Some? }

  // The record kept for a name after an update: the one already known, or else the new one.
  function RecordAfter(known: map<string, UnregisteredNode>, nodes: seq<UnregisteredNode>, name: string)
    : Option<UnregisteredNode>
  {
    var entry := LastEntry(nodes, name);
    if entry.Some? && name in known then Some(known[name]) else entry
  }

  ghost predicate Holds(m: map<string, UnregisteredNode>, name: string, r: Option<UnregisteredNode>) {
    if r.None? then name !in m else name in m && m[name] == r.value
  }

  // Update k is where the current unbroken stretch of a name starts.
  ghost predicate FirstSeen(updates: seq<seq<UnregisteredNode>>, name: string, k: nat) {
    && k < |updates|
    && (forall i :: k <= i < |updates| ==> Lists(updates[i], name))
    && (k > 0 ==> !Lists(updates[k - 1], name))
  }

  // What the map has to say about a name after a run of updates.
  ghost predicate Remembers(updates: seq<seq<UnregisteredNode>>, m: map<string, UnregisteredNode>, name: string) {
    && (name in m <==> updates != [] && Lists(updates[|updates| - 1], name))
    && (name in m ==> exists k: nat :: FirstSeen(updates, name, k) && Some(m[name]) == LastEntry(updates[k], name))
  }

  /** One more update keeps the records right: a name is recorded if and only if the last list has it,
      with the entry of the first update of its current unbroken stretch. */
  lemma UpdateRemembers(updates: seq<seq<UnregisteredNode>>, before: map<string, UnregisteredNode>,
                        nodes: seq<UnregisteredNode>, after: map<string, UnregisteredNode>, name: string)
    requires Remembers(updates, before, name)
    requires Holds(after, name, RecordAfter(before, nodes, name))
    ensures Remembers(updates + [nodes], after, name)
  {
    var n, all := |updates|, updates + [nodes];
    if name in after {
      if name in before {
        var k: nat :| FirstSeen(updates, name, k) && Some(before[name]) == LastEntry(updates[k], name);
        assert FirstSeen(all, name, k) && all[k] == updates[k];
      } else {
        assert FirstSeen(all, name, n) && all[n] == nodes;
      }
    }
  }

  // ---------------------------------------------------------------- the registry

  class ClusterStateRegistry {
    const maxTotalUnreadyPercentage: real
    const okTotalUnreadyCount: int
    var nodeCount: nat
    var totalReadiness: Readiness
    var candidatesForScaleDown: map<string, seq<string>>
    var lastScaleDownUpdateTime: int
    var lastStatus: seq<Condition>
    var unregisteredNodes: map<string, UnregisteredNode>
    // What GetStatus observed and what the unregistered nodes were updated with, call by call.
    ghost var observed: seq<seq<Condition>>
    ghost var updates: seq<seq<UnregisteredNode>>

    ghost predicate Valid()
      reads this
    {
      && AreObservations(observed) && lastStatus == StatusAfter(observed)
      && forall name :: Remembers(updates, unregisteredNodes, name)
    }

    constructor (maxTotalUnreadyPercentage: real, okTotalUnreadyCount: int)
      ensures Valid() && observed == [] && updates == []
    {
      this.maxTotalUnreadyPercentage, this.okTotalUnreadyCount := maxTotalUnreadyPercentage, okTotalUnreadyCount;
      nodeCount, totalReadiness := 0, Readiness(0, 0);
      candidatesForScaleDown, lastScaleDownUpdateTime := map[], 0;
      lastStatus, unregisteredNodes := [], map[];
      observed, updates := [], [];
    }

    // Healthy unless too many nodes are not ready, both in number and as a share in percent.
    predicate IsClusterHealthy(): (healthy: bool)
      reads this
      ensures healthy <==> totalReadiness.unready <= okTotalUnreadyCount
                           || 100.0 * totalReadiness.unready as real <= maxTotalUnreadyPercentage * nodeCount as real
    {
      !(totalReadiness.unready > okTotalUnreadyCount
        && totalReadiness.unready as real > maxTotalUnreadyPercentage / 100.0 * nodeCount as real)
    }

    // The clusterwide conditions as built from the registry; there are no node group statuses, so a
    // scale-up is never reported in progress.
    function Observation(): (r: seq<Condition>)
      reads this
      ensures IsObservation(r)
      ensures r[0].status == Healthy || r[0].status == Unhealthy
      ensures r[0].status == Healthy <==>
        totalReadiness.unready <= okTotalUnreadyCount
        || 100.0 * totalReadiness.unready as real <= maxTotalUnreadyPercentage * nodeCount as real
      ensures r[1].status == NoActivity
      ensures r[2].status == CandidatesPresent || r[2].status == NoCandidates
      ensures r[2].status == CandidatesPresent <==>
        exists g :: g in candidatesForScaleDown && candidatesForScaleDown[g] != []
      ensures r[0].lastProbeTime == r[1].lastProbeTime == totalReadiness.time
      ensures r[2].lastProbeTime == lastScaleDownUpdateTime
    {
      [ Condition(Health, if IsClusterHealthy() then Healthy else Unhealthy, totalReadiness.time, 0),
        Condition(ScaleUp, NoActivity, totalReadiness.time, 0),
        Condition(ScaleDown,
                  if exists g :: g in candidatesForScaleDown && |candidatesForScaleDown[g]| > 0
                  then CandidatesPresent else NoCandidates,
                  lastScaleDownUpdateTime, 0) ]
    }

    method GetStatus() returns (status: seq<Condition>)
      requires Valid()
      modifies this`lastStatus, this`observed
      ensures Valid() && observed == old(observed) + [old(Observation())]
      ensures status == lastStatus
    {
      var conditions := Observation();
      status := UpdateLastTransitionSingleList(lastStatus, conditions);
      lastStatus := status;
      observed := observed + [conditions];
      assert observed[..|observed| - 1] == old(observed);
    }

    method UpdateUnregisteredNodes(nodes: seq<UnregisteredNode>)
      requires Valid()
      modifies this`unregisteredNodes, this`updates
      ensures Valid() && updates == old(updates) + [nodes]
    {
      var result := map[];
      for i := 0 to |nodes|
        invariant forall name :: Holds(result, name, RecordAfter(unregisteredNodes, nodes[..i], name))
      {
        var unregistered := nodes[i];
        ghost var before, done := result, nodes[..i + 1];
        if unregistered.name in unregisteredNodes {
          result := result[unregistered.name := unregisteredNodes[unregistered.name]];
        } else {
          result := result[unregistered.name := unregistered];
        }
        forall name ensures Holds(result, name, RecordAfter(unregisteredNodes, done, name)) {
          assert done[..i] == nodes[..i];
          assert Holds(before, name, RecordAfter(unregisteredNodes, nodes[..i], name));
        }
      }
      assert nodes[..|nodes|] == nodes;
      forall name ensures Remembers(updates + [nodes], result, name) {
        UpdateRemembers(updates, unregisteredNodes, nodes, result, name);
      }
      unregisteredNodes := result;
      updates := updates + [nodes];
    }
  }

  // GetStatus never reports a scale-up transition after the first call.
  lemma ScaleUpNeverChanges(run: seq<seq<Condition>>)
    requires AreObservations(run) && run != []
    requires forall i :: 0 <= i < |run| ==> run[i][1].status == NoActivity
    ensures IsObservation(StatusAfter(run)) && StatusAfter(run)[1].lastTransitionTime == run[0][1].lastProbeTime
  {
    var k := TransitionTimes(run, 1);
    assert OpensStretch(run, 1, 0);
  }
}
