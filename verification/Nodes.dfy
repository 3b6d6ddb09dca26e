/**
  Kubernetes nodes as the repairer sees them: how readiness is folded out of conditions and taints
  (utils/kubernetes/ready.go) and how the filtered node listers split a cluster
  (utils/kubernetes/listers.go).
 */
module Nodes {
  import opened Selections
  import opened Wrappers

  datatype ConditionType = NodeReady | DiskPressure | NetworkUnavailable | OtherCondition

  datatype ConditionStatus = StatusTrue | StatusFalse | StatusUnknown | OtherStatus

  datatype Condition = Condition(kind: ConditionType, status: ConditionStatus, lastTransitionTime: int, reason: string)

  datatype TaintKey = NotReadyTaint | DiskPressureTaint | NetworkUnavailableTaint | OtherTaint

  datatype Taint = Taint(key: TaintKey, timeAdded: Option<int>)

  datatype Node = Node(name: string, creationTimestamp: int, unschedulable: bool,
                       conditions: seq<Condition>, taints: seq<Taint>)

  datatype NodeReadiness = NodeReadiness(ready: bool, lastTransitionTime: int, reason: string)

  datatype ReadinessError = ReadinessNotFound

  // The zero value of the time type.
  const ZERO_TIME := 0

  // ---------------------------------------------------------------- what readiness means

  predicate IsNotReadyStatus(status: ConditionStatus) { status in {StatusFalse, StatusUnknown} }

  predicate SpoilsReadiness(c: Condition) {
    match c.kind
    case NodeReady => IsNotReadyStatus(c.status)
    case DiskPressure => c.status == StatusTrue
    case NetworkUnavailable => c.status == StatusTrue
    case OtherCondition => false
  }

  predicate HasReadiness(conditions: seq<Condition>) {
    exists c :: c in conditions && c.kind == NodeReady
  }

  predicate AllGood(conditions: seq<Condition>, taints: seq<Taint>) {
    && (forall c :: c in conditions ==> !SpoilsReadiness(c))
    && (forall t :: t in taints ==> t.key == OtherTaint)
  }

  // The times readiness may date from: every condition and timed taint that matters to it.
  ghost function ChangeTimes(conditions: seq<Condition>, taints: seq<Taint>): set<int> {
    {ZERO_TIME}
    + (set c | c in conditions && c.kind != OtherCondition :: c.lastTransitionTime)
    + (set t | t in taints && t.key != OtherTaint && t.timeAdded.Some? :: t.timeAdded.value)
  }

  ghost predicate IsLatest(t: int, times: set<int>) {
    t in times && forall u :: u in times ==> u <= t
  }

  // The reason of the last Ready condition that says the node is not ready.
  function LastReason(conditions: seq<Condition>): string {
    if conditions == [] then ""
    else
      var last := conditions[|conditions| - 1];
      if last.kind == NodeReady && IsNotReadyStatus(last.status) then last.reason
      else LastReason(conditions[..|conditions| - 1])
  }

  ghost predicate IsReadinessOf(node: Node, r: Result<NodeReadiness, ReadinessError>) {
    && (r.Failure? <==> !HasReadiness(node.conditions))
    && (r.Success? ==>
          && r.value.ready == AllGood(node.conditions, node.taints)
          && IsLatest(r.value.lastTransitionTime, ChangeTimes(node.conditions, node.taints))
          && r.value.reason == LastReason(node.conditions))
  }

  /** When a node is ready: it has a Ready condition, none that is false or unknown, no disk pressure, no network
      that is unavailable, and no taint that says any of this. */
  lemma ReadyIff(node: Node)
    ensures IsReady(node) <==>
      && (exists c :: c in node.conditions && c.kind == NodeReady)
      && (forall c :: c in node.conditions ==>
            && (c.kind == NodeReady ==> c.status != StatusFalse && c.status != StatusUnknown)
            && (c.kind == DiskPressure || c.kind == NetworkUnavailable ==> c.status != StatusTrue))
      && (forall t :: t in node.taints ==>
            t.key != NotReadyTaint && t.key != DiskPressureTaint && t.key != NetworkUnavailableTaint)
    ensures forall r: Result<NodeReadiness, ReadinessError> :: IsReadinessOf(node, r) ==>
      && (r.Success? && r.value.ready <==> IsReady(node))
      && (r.Success? <==> exists c :: c in node.conditions && c.kind == NodeReady)
  {
  }

  /** Since when: the latest change of a condition or timed taint that matters, or the zero time. */
  lemma LatestChange(node: Node, r: Result<NodeReadiness, ReadinessError>)
    requires IsReadinessOf(node, r) && r.Success?
    ensures var time := r.value.lastTransitionTime;
      && (forall c :: c in node.conditions && c.kind != OtherCondition ==> c.lastTransitionTime <= time)
      && (forall t :: t in node.taints && t.key != OtherTaint && t.timeAdded.Some? ==> t.timeAdded.value <= time)
      && (|| time == 0
          || (exists c :: c in node.conditions && c.kind != OtherCondition && c.lastTransitionTime == time)
          || (exists t :: t in node.taints && t.key != OtherTaint && t.timeAdded == Some(time)))
  {
    var times := ChangeTimes(node.conditions, node.taints);
    assert forall c :: c in node.conditions && c.kind != OtherCondition ==> c.lastTransitionTime in times;
    assert forall t :: t in node.taints && t.key != OtherTaint && t.timeAdded.Some? ==> t.timeAdded.value in times;
  }

  // Why not: the reason of the Ready condition at k, after which none says that the node is not ready.
  ghost predicate SpeaksLast(conditions: seq<Condition>, k: nat) {
    && k < |conditions| && conditions[k].kind == NodeReady && conditions[k].status in {StatusFalse, StatusUnknown}
    && forall j :: k < j < |conditions| ==>
         conditions[j].kind != NodeReady || conditions[j].status !in {StatusFalse, StatusUnknown}
  }

  lemma {:induction false} LastReasonIs(conditions: seq<Condition>, k: nat)
    ensures SpeaksLast(conditions, k) ==> LastReason(conditions) == conditions[k].reason
    ensures (forall c :: c in conditions ==> c.kind != NodeReady || c.status !in {StatusFalse, StatusUnknown}) ==>
      LastReason(conditions) == ""
  {
    if conditions != [] {
      var front, last := conditions[..|conditions| - 1], conditions[|conditions| - 1];
      LastReasonIs(front, k);
      if SpeaksLast(conditions, k) && k < |front| {
        assert SpeaksLast(front, k);
        assert conditions[|front|] == last;
      }
    }
  }

  // The variables of the fold, and what they mean for the conditions and taints seen so far.
  datatype Fold = Fold(readyFound: bool, canNodeBeReady: bool, lastTransitionTime: int, reason: string)

  ghost predicate IsFold(f: Fold, conditions: seq<Condition>, taints: seq<Taint>) {
    && f.readyFound == HasReadiness(conditions)
    && f.canNodeBeReady == AllGood(conditions, taints)
    && IsLatest(f.lastTransitionTime, ChangeTimes(conditions, taints))
    && f.reason == LastReason(conditions)
  }

  function Later(a: int, b: int): int { if a < b then b else a }

  function SeenCondition(f: Fold, c: Condition): Fold {
    if c.kind == OtherCondition then f
    else f.(readyFound := f.readyFound || c.kind == NodeReady,
            canNodeBeReady := f.canNodeBeReady && !SpoilsReadiness(c),
            lastTransitionTime := Later(f.lastTransitionTime, c.lastTransitionTime),
            reason := if c.kind == NodeReady && SpoilsReadiness(c) then c.reason else f.reason)
  }

  function SeenTaint(f: Fold, t: Taint): Fold {
    if t.key == OtherTaint then f
    else f.(canNodeBeReady := false,
            lastTransitionTime := if t.timeAdded.Some? then Later(f.lastTransitionTime, t.timeAdded.value)
                                  else f.lastTransitionTime)
  }

  function FoldOfConditions(conditions: seq<Condition>): Fold {
    if conditions == [] then Fold(false, true, ZERO_TIME, "")
    else SeenCondition(FoldOfConditions(conditions[..|conditions| - 1]), conditions[|conditions| - 1])
  }

  function FoldOfTaints(f: Fold, taints: seq<Taint>): Fold {
    if taints == [] then f
    else SeenTaint(FoldOfTaints(f, taints[..|taints| - 1]), taints[|taints| - 1])
  }

  lemma OneMoreTime(before: seq<Condition>, c: Condition, taints: seq<Taint>)
    ensures ChangeTimes(before + [c], taints) ==
      ChangeTimes(before, taints) + if c.kind == OtherCondition then {} else {c.lastTransitionTime}
  {
    assert forall d :: d in before + [c] <==> d in before || d == c;
  }

  lemma OneMoreTaintTime(conditions: seq<Condition>, before: seq<Taint>, t: Taint)
    ensures ChangeTimes(conditions, before + [t]) == ChangeTimes(conditions, before)
      + if t.key != OtherTaint && t.timeAdded.Some? then {t.timeAdded.value} else {}
  {
    assert forall u :: u in before + [t] <==> u in before || u == t;
  }

  lemma {:induction false} FoldReadsConditions(conditions: seq<Condition>)
    ensures IsFold(FoldOfConditions(conditions), conditions, [])
  {
    if conditions != [] {
      var before, c := conditions[..|conditions| - 1], conditions[|conditions| - 1];
      FoldReadsConditions(before);
      assert conditions == before + [c];
      OneMoreTime(before, c, []);
    }
  }

  // The fold computes what readiness means.
  lemma {:induction false} FoldReadsAll(conditions: seq<Condition>, taints: seq<Taint>)
    ensures IsFold(FoldOfTaints(FoldOfConditions(conditions), taints), conditions, taints)
  {
    if taints == [] {
      FoldReadsConditions(conditions);
    } else {
      var before, t := taints[..|taints| - 1], taints[|taints| - 1];
      FoldReadsAll(conditions, before);
      assert taints == before + [t];
      OneMoreTaintTime(conditions, before, t);
    }
  }

  /** Folds readiness out of the conditions and then the taints. */
  method GetNodeReadiness(node: Node) returns (r: Result<NodeReadiness, ReadinessError>)
    ensures IsReadinessOf(node, r)
  {
    var canNodeBeReady, readyFound, lastTransitionTime, reason := true, false, ZERO_TIME, "";
    var conditions, taints := node.conditions, node.taints;
    for i := 0 to |conditions|
      invariant Fold(readyFound, canNodeBeReady, lastTransitionTime, reason) == FoldOfConditions(conditions[..i])
    {
      var cond := conditions[i];
      assert conditions[..i + 1][..i] == conditions[..i];
      match cond.kind {
        case NodeReady =>
          readyFound := true;
          if cond.status == StatusFalse || cond.status == StatusUnknown {
            canNodeBeReady := false;
            reason := cond.reason;
          }
          if lastTransitionTime < cond.lastTransitionTime {
            lastTransitionTime := cond.lastTransitionTime;
          }
        case DiskPressure =>
          if cond.status == StatusTrue {
            canNodeBeReady := false;
          }
          if lastTransitionTime < cond.lastTransitionTime {
            lastTransitionTime := cond.lastTransitionTime;
          }
        case NetworkUnavailable =>
          if cond.status == StatusTrue {
            canNodeBeReady := false;
          }
          if lastTransitionTime < cond.lastTransitionTime {
            lastTransitionTime := cond.lastTransitionTime;
          }
        case OtherCondition =>
      }
    }
    assert conditions[..|conditions|] == conditions;
    ghost var f := FoldOfConditions(conditions);
    for i := 0 to |taints|
      invariant Fold(readyFound, canNodeBeReady, lastTransitionTime, reason) == FoldOfTaints(f, taints[..i])
    {
      var taint := taints[i];
      assert taints[..i + 1][..i] == taints[..i];
      if taint.key in {NotReadyTaint, DiskPressureTaint, NetworkUnavailableTaint} {
        canNodeBeReady := false;
        if taint.timeAdded.Some? && lastTransitionTime < taint.timeAdded.value {
          lastTransitionTime := taint.timeAdded.value;
        }
      }
    }
    assert taints[..|taints|] == taints;
    FoldReadsAll(conditions, taints);
    if !readyFound {
      return Failure(ReadinessNotFound);
    }
    return Success(NodeReadiness(canNodeBeReady, lastTransitionTime, reason));
  }

  // Readiness, its error and its date do not depend on the order of conditions and taints.
  lemma ReadinessIgnoresOrder(n: Node, m: Node, r: Result<NodeReadiness, ReadinessError>,
                              q: Result<NodeReadiness, ReadinessError>)
    requires multiset(n.conditions) == multiset(m.conditions) && multiset(n.taints) == multiset(m.taints)
    requires IsReadinessOf(n, r) && IsReadinessOf(m, q)
    ensures r.Success? == q.Success?
    ensures r.Success? ==> r.value.ready == q.value.ready && r.value.lastTransitionTime == q.value.lastTransitionTime
  {
    assert forall c :: c in n.conditions <==> c in multiset(m.conditions);
    assert forall t :: t in n.taints <==> t in multiset(m.taints);
    assert ChangeTimes(n.conditions, n.taints) == ChangeTimes(m.conditions, m.taints);
  }

  // ---------------------------------------------------------------- unready copies

  function WithoutReady(conditions: seq<Condition>): (r: seq<Condition>)
    ensures forall c :: c in r <==> c in conditions && c.kind != NodeReady
  {
    if conditions == [] then []
    else
      var last := conditions[|conditions| - 1];
      WithoutReady(conditions[..|conditions| - 1]) + if last.kind != NodeReady then [last] else []
  }

  function UnreadyCopy(node: Node, reason: string): Node {
    node.(conditions :=
      [Condition(NodeReady, StatusFalse, node.creationTimestamp, reason)] + WithoutReady(node.conditions))
  }

  /** The copy is the node with one Ready condition, in front, that is false since the node's creation for the
      given reason, and all its conditions of other kinds after it. */
  lemma UnreadyCopyIs(node: Node, reason: string) returns (at: seq<nat>)
    ensures var copy := UnreadyCopy(node, reason);
      && copy == node.(conditions := copy.conditions) && copy.conditions != []
      && copy.conditions[0] == Condition(NodeReady, StatusFalse, node.creationTimestamp, reason)
      && Selects(node.conditions, OfOtherKind, Same, at, copy.conditions[1..])
  {
    at := OthersSelected(node.conditions);
    assert UnreadyCopy(node, reason).conditions[1..] == WithoutReady(node.conditions);
  }

  predicate OfOtherKind(c: Condition) { c.kind != NodeReady }

  lemma {:induction false} OthersSelected(conditions: seq<Condition>) returns (at: seq<nat>)
    ensures Selects(conditions, OfOtherKind, Same, at, WithoutReady(conditions))
  {
    hide Selects;
    NoEntries(OfOtherKind, Same<Condition>);
    at := [];
    if conditions != [] {
      var front, last := conditions[..|conditions| - 1], conditions[|conditions| - 1];
      at := OthersSelected(front);
      OneMoreEntry(front, last, OfOtherKind, Same, at, WithoutReady(front));
      assert conditions == front + [last];
      assert WithoutReady(conditions)
          == if OfOtherKind(last) then WithoutReady(front) + [last] else WithoutReady(front);
      at := if OfOtherKind(last) then at + [|front|] else at;
    }
  }

  method GetUnreadyNodeCopy(node: Node, reason: string) returns (copy: Node)
    ensures copy == UnreadyCopy(node, reason)
  {
    var newNodeConditions := [Condition(NodeReady, StatusFalse, node.creationTimestamp, reason)];
    for i := 0 to |node.conditions|
      invariant newNodeConditions ==
        [Condition(NodeReady, StatusFalse, node.creationTimestamp, reason)] + WithoutReady(node.conditions[..i])
    {
      assert node.conditions[..i + 1][..i] == node.conditions[..i];
      if node.conditions[i].kind != NodeReady {
        newNodeConditions := newNodeConditions + [node.conditions[i]];
      }
    }
    assert node.conditions[..|node.conditions|] == node.conditions;
    copy := node.(conditions := newNodeConditions);
  }

  lemma {:induction false} ReasonAtFront(first: Condition, rest: seq<Condition>)
    requires first.kind == NodeReady && IsNotReadyStatus(first.status)
    requires forall c :: c in rest ==> c.kind != NodeReady
    ensures LastReason([first] + rest) == first.reason
  {
    if rest != [] {
      var front := rest[..|rest| - 1];
      ReasonAtFront(first, front);
      assert ([first] + rest)[..|rest|] == [first] + front;
    }
  }

  // Whatever the node looked like, its unready copy reads back as not ready for the given reason.
  lemma UnreadyCopyReadsBack(node: Node, reason: string, r: Result<NodeReadiness, ReadinessError>)
    requires IsReadinessOf(UnreadyCopy(node, reason), r)
    ensures r.Success? && !r.value.ready && r.value.reason == reason
    ensures node.creationTimestamp <= r.value.lastTransitionTime
  {
    var copy := UnreadyCopy(node, reason);
    var ready := copy.conditions[0];
    assert ready in copy.conditions && ready.kind == NodeReady && SpoilsReadiness(ready);
    ReasonAtFront(ready, WithoutReady(node.conditions));
    assert node.creationTimestamp in ChangeTimes(copy.conditions, copy.taints);
  }

  // ---------------------------------------------------------------- listers

  predicate IsReady(node: Node) { HasReadiness(node.conditions) && AllGood(node.conditions, node.taints) }

  // GetReadinessState gives the zero readiness, which is not ready, when it fails.
  method GetReadinessState(node: Node) returns (ready: bool)
    ensures ready == IsReady(node)
  {
    var r := GetNodeReadiness(node);
    ready := r.Success? && r.value.ready;
  }

  predicate ReadyAndSchedulable(node: Node) { IsReady(node) && !node.unschedulable }

  predicate NotReadyNode(node: Node) { !IsReady(node) }

  method IsNodeReadyAndSchedulable(node: Node) returns (b: bool)
    ensures b == ReadyAndSchedulable(node)
  {
    var ready := GetReadinessState(node);
    if !ready { return false; }
    if node.unschedulable { return false; }
    return true;
  }

  method IsNotNodeReadyAndSchedulable(node: Node) returns (b: bool)
    ensures b == NotReadyNode(node)
  {
    var ready := GetReadinessState(node);
    if !ready { return true; }
    if node.unschedulable { return false; }
    return false;
  }

  function Filtered(nodes: seq<Node>, p: Node -> bool): (r: seq<Node>)
    ensures forall n :: n in r <==> n in nodes && p(n)
  {
    if nodes == [] then []
    else
      var last := nodes[|nodes| - 1];
      Filtered(nodes[..|nodes| - 1], p) + if p(last) then [last] else []
  }

  lemma {:induction false} FilteredSelects(nodes: seq<Node>, p: Node -> bool) returns (at: seq<nat>)
    ensures Selects(nodes, p, Same, at, Filtered(nodes, p))
  {
    hide Selects;
    NoEntries(p, Same);
    at := [];
    if nodes != [] {
      var front, last := nodes[..|nodes| - 1], nodes[|nodes| - 1];
      at := FilteredSelects(front, p);
      OneMoreEntry(front, last, p, Same, at, Filtered(front, p));
      assert nodes == front + [last];
      assert Filtered(nodes, p) == if p(last) then Filtered(front, p) + [last] else Filtered(front, p);
      at := if p(last) then at + [|front|] else at;
    }
  }

  method FilterNodes(nodes: seq<Node>, p: Node -> bool) returns (filtered: seq<Node>)
    ensures filtered == Filtered(nodes, p)
  {
    filtered := [];
    for i := 0 to |nodes|
      invariant filtered == Filtered(nodes[..i], p)
    {
      assert nodes[..i + 1][..i] == nodes[..i];
      if p(nodes[i]) {
        filtered := filtered + [nodes[i]];
      }
    }
    assert nodes[..|nodes|] == nodes;
  }

  predicate ReadyButCordoned(node: Node) { IsReady(node) && node.unschedulable }

  // Filtering keeps every occurrence of a node that passes and none of one that does not.
  lemma {:induction false} FilteredCount(nodes: seq<Node>, p: Node -> bool, n: Node)
    ensures multiset(Filtered(nodes, p))[n] == if p(n) then multiset(nodes)[n] else 0
  {
    if nodes != [] {
      var front, last := nodes[..|nodes| - 1], nodes[|nodes| - 1];
      FilteredCount(front, p, n);
      assert nodes == front + [last];
    }
  }

  // The two listers share nothing; together they miss exactly the cordoned ready nodes.
  lemma ListersPartition(nodes: seq<Node>, n: Node)
    ensures multiset(nodes)[n] == multiset(Filtered(nodes, ReadyAndSchedulable))[n]
                                + multiset(Filtered(nodes, NotReadyNode))[n]
                                + multiset(Filtered(nodes, ReadyButCordoned))[n]
    ensures n in nodes ==> (n !in Filtered(nodes, ReadyAndSchedulable) && n !in Filtered(nodes, NotReadyNode)
                            <==> ReadyButCordoned(n))
  {
    FilteredCount(nodes, ReadyAndSchedulable, n);
    FilteredCount(nodes, NotReadyNode, n);
    FilteredCount(nodes, ReadyButCordoned, n);
  }

  // Who is in which list.
  lemma ListedIff(nodes: seq<Node>, n: Node)
    ensures n in Filtered(nodes, ReadyAndSchedulable) <==> n in nodes && IsReady(n) && !n.unschedulable
    ensures n in Filtered(nodes, NotReadyNode) <==> n in nodes && !IsReady(n)
    ensures n in Filtered(nodes, ReadyButCordoned) <==> n in nodes && IsReady(n) && n.unschedulable
  {
  }
}
