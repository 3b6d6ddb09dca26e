/**
  Distribution of new nodes over node groups (utils/nodegroupset/scale_up.go).

  The balancer caps the request at the groups' capacity, sorts the groups by size and then
  fills them one node at a time: a group that turns out to be full is swapped to the front of
  the array and left behind `startIndex`, any other group at `currentIndex` grows by one.
 */
module NodeGroupSet {
  import opened Selections
  import opened Wrappers

  // What the cloud provider answers for a group; `None` is a failed TargetSize call.
  datatype NodeGroup = NodeGroup(targetSize: Option<int>, maxSize: int)

  datatype ScaleUpInfo = ScaleUpInfo(currentSize: int, newSize: int, maxSize: int)

  datatype BalanceError = NoGroups | CloudProviderError

  // ---------------------------------------------------------------- sums

  function Total(s: seq<ScaleUpInfo>, f: ScaleUpInfo -> int): int {
    if s == [] then 0 else f(s[0]) + Total(s[1..], f)
  }

  function Growth(info: ScaleUpInfo): int { info.newSize - info.currentSize }

  function Slack(info: ScaleUpInfo): int { info.maxSize - info.newSize }

  // Room left in a group, never negative.
  function Free(info: ScaleUpInfo): int { if Slack(info) > 0 then Slack(info) else 0 }

  lemma {:induction false} TotalConcat(s: seq<ScaleUpInfo>, t: seq<ScaleUpInfo>, f: ScaleUpInfo -> int)
    ensures Total(s + t, f) == Total(s, f) + Total(t, f)
  {
    if s == [] {
      assert s + t == t;
    } else {
      TotalConcat(s[1..], t, f);
      assert (s + t)[1..] == s[1..] + t;
    }
  }

  lemma TotalUpdate(s: seq<ScaleUpInfo>, i: nat, x: ScaleUpInfo, f: ScaleUpInfo -> int)
    requires i < |s|
    ensures Total(s[i := x], f) == Total(s, f) - f(s[i]) + f(x)
  {
    TotalConcat(s[..i], [s[i]] + s[i + 1..], f);
    TotalConcat(s[..i], [x] + s[i + 1..], f);
    assert s == s[..i] + ([s[i]] + s[i + 1..]);
    assert s[i := x] == s[..i] + ([x] + s[i + 1..]);
  }

  function RemoveAt(s: seq<ScaleUpInfo>, i: nat): seq<ScaleUpInfo>
    requires i < |s|
  {
    s[..i] + s[i + 1..]
  }

  lemma TotalRemoveAt(s: seq<ScaleUpInfo>, i: nat, f: ScaleUpInfo -> int)
    requires i < |s|
    ensures Total(s, f) == f(s[i]) + Total(RemoveAt(s, i), f)
  {
    TotalConcat(s[..i], s[i + 1..], f);
    TotalConcat(s[..i], s[i..], f);
    assert s == s[..i] + s[i..];
    assert s[i..][1..] == s[i + 1..];
  }

  lemma RemoveAtContents(s: seq<ScaleUpInfo>, i: nat)
    requires i < |s|
    ensures multiset(RemoveAt(s, i)) == multiset(s) - multiset{s[i]}
  {
    assert s == s[..i] + [s[i]] + s[i + 1..];
  }

  lemma {:induction false} TotalPermutation(s: seq<ScaleUpInfo>, t: seq<ScaleUpInfo>, f: ScaleUpInfo -> int)
    requires multiset(s) == multiset(t)
    ensures Total(s, f) == Total(t, f)
  {
    if s == [] {
      assert |multiset(t)| == 0;
    } else {
      assert s[0] in multiset(t);
      var i :| 0 <= i < |t| && t[i] == s[0];
      TotalRemoveAt(t, i, f);
      RemoveAtContents(t, i);
      RemoveAtContents(s, 0);
      assert RemoveAt(s, 0) == s[1..];
      TotalPermutation(s[1..], RemoveAt(t, i), f);
    }
  }

  lemma {:induction false} PositiveTotal(s: seq<ScaleUpInfo>, f: ScaleUpInfo -> int)
    requires Total(s, f) > 0
    ensures exists i :: 0 <= i < |s| && f(s[i]) > 0
  {
    if f(s[0]) <= 0 {
      PositiveTotal(s[1..], f);
      var i :| 0 <= i < |s[1..]| && f(s[1..][i]) > 0;
      assert s[i + 1] == s[1..][i];
    }
  }

  // ---------------------------------------------------------------- what a plan promises

  // A plan with its increases forgotten.
  function Bare(info: ScaleUpInfo): ScaleUpInfo { info.(newSize := info.currentSize) }

  function Unplanned(s: seq<ScaleUpInfo>): (r: seq<ScaleUpInfo>)
    ensures |r| == |s|
    ensures forall i :: 0 <= i < |s| ==> r[i] == Bare(s[i])
  {
    seq(|s|, i requires 0 <= i < |s| => Bare(s[i]))
  }

  // No group shrinks, and a group that grows stays within its maximum.
  ghost predicate WithinLimits(s: seq<ScaleUpInfo>) {
    forall i :: 0 <= i < |s| ==>
      s[i].currentSize <= s[i].newSize && (s[i].newSize > s[i].currentSize ==> s[i].newSize <= s[i].maxSize)
  }

  // A group that received a node is at most one node larger than any group with room left.
  ghost predicate Fair(s: seq<ScaleUpInfo>) {
    forall i, j :: 0 <= i < |s| && 0 <= j < |s| && s[i].newSize > s[i].currentSize && s[j].newSize < s[j].maxSize
      ==> s[i].newSize <= s[j].newSize + 1
  }

  // The groups the balancer works on: those not exactly at their maximum.
  function Candidates(groups: seq<NodeGroup>): seq<ScaleUpInfo>
    requires forall g :: g in groups ==> g.targetSize.Some?
  {
    if groups == [] then []
    else
      var g := groups[|groups| - 1];
      var size := g.targetSize.value;
      Candidates(groups[..|groups| - 1]) + (if size == g.maxSize then [] else [ScaleUpInfo(size, size, g.maxSize)])
  }

  function Min(a: int, b: int): int { if a < b then a else b }

  function Max(a: int, b: int): int { if a < b then b else a }

  // `plan` is a permutation of the groups with exactly `newNodes` nodes added, none if negative.
  ghost predicate Filled(groups: seq<ScaleUpInfo>, newNodes: int, plan: seq<ScaleUpInfo>) {
    && multiset(Unplanned(plan)) == multiset(groups)
    && Total(plan, Growth) == Max(0, newNodes)
    && WithinLimits(plan)
    && Fair(plan)
  }

  // The request, capped at the capacity the balancer computes.
  function Capped(candidates: seq<ScaleUpInfo>, newNodes: int): int {
    Min(newNodes, Total(candidates, Slack))
  }

  function Changed(s: seq<ScaleUpInfo>): (r: seq<ScaleUpInfo>)
    ensures forall info :: info in r <==> info in s && info.newSize != info.currentSize
  {
    if s == [] then []
    else
      var last := s[|s| - 1];
      Changed(s[..|s| - 1]) + if last.newSize != last.currentSize then [last] else []
  }

  // ---------------------------------------------------------------- sorting

  predicate Sorted(s: seq<ScaleUpInfo>) {
    forall i, j :: 0 <= i < j < |s| ==> s[i].newSize <= s[j].newSize
  }

  function Insert(x: ScaleUpInfo, s: seq<ScaleUpInfo>): (r: seq<ScaleUpInfo>)
    requires Sorted(s)
    ensures |r| == |s| + 1 && (r[0] == x || (s != [] && r[0] == s[0]))
    ensures Sorted(r)
  {
    if s == [] || x.newSize <= s[0].newSize then [x] + s else [s[0]] + Insert(x, s[1..])
  }

  lemma {:induction false} InsertAdds(x: ScaleUpInfo, s: seq<ScaleUpInfo>)
    requires Sorted(s)
    ensures multiset(Insert(x, s)) == multiset(s) + multiset{x}
  {
    if s != [] && x.newSize > s[0].newSize {
      InsertAdds(x, s[1..]);
      assert s == [s[0]] + s[1..];
    }
  }

  // Stands for the library sort; the fill loop relies on nothing but this contract.
  function SortBySize(s: seq<ScaleUpInfo>): (r: seq<ScaleUpInfo>)
    ensures Sorted(r)
    ensures multiset(r) == multiset(s)
  {
    if s == [] then []
    else
      var rest := SortBySize(s[1..]);
      InsertAdds(s[0], rest);
      assert s == [s[0]] + s[1..];
      Insert(s[0], rest)
  }

  // ---------------------------------------------------------------- the fill loop

  /** The invariant of the fill loop. `level` is the size at `currentIndex`: slots already visited
      in this pass hold one more, slots still to visit are sorted and start at `level`. Removed
      slots are full; a full slot that has not been visited yet may still be in the array. */
  ghost predicate FillState(s: seq<ScaleUpInfo>, startIndex: nat, currentIndex: nat, level: int) {
    && startIndex <= currentIndex <= |s|
    && (currentIndex == |s| ==> startIndex == |s|)
    && (forall i :: 0 <= i < startIndex ==> s[i].newSize >= s[i].maxSize)
    && (forall i :: startIndex <= i < currentIndex ==> s[i].newSize == level + 1)
    && (forall i, j :: currentIndex <= i < j < |s| ==> s[i].newSize <= s[j].newSize)
    && (currentIndex < |s| ==> s[currentIndex].newSize == level)
    && (forall i :: 0 <= i < |s| && s[i].newSize > s[i].currentSize ==> s[i].newSize <= level + 1)
    && WithinLimits(s)
  }

  // Where the loop looks next, given the array after the grow or the removal.
  function NextIndex(s: seq<ScaleUpInfo>, startIndex: nat, currentIndex: nat): nat
    requires currentIndex < |s|
  {
    if currentIndex < |s| - 1 && s[currentIndex].newSize > s[currentIndex + 1].newSize
    then currentIndex + 1 else startIndex
  }

  // The level at the next index; at the end of the array any level will do.
  function NextLevel(s: seq<ScaleUpInfo>, index: nat, level: int): int {
    if index < |s| then s[index].newSize else level
  }

  function Grown(s: seq<ScaleUpInfo>, i: nat): seq<ScaleUpInfo>
    requires i < |s|
  {
    s[i := s[i].(newSize := s[i].newSize + 1)]
  }

  function Swapped(s: seq<ScaleUpInfo>, i: nat, j: nat): (r: seq<ScaleUpInfo>)
    requires i < |s| && j < |s|
    ensures multiset(r) == multiset(s)
  {
    s[i := s[j]][j := s[i]]
  }

  lemma GrowKeepsFillState(s: seq<ScaleUpInfo>, startIndex: nat, currentIndex: nat, level: int)
    requires FillState(s, startIndex, currentIndex, level)
    requires currentIndex < |s| && s[currentIndex].newSize < s[currentIndex].maxSize
    ensures var t := Grown(s, currentIndex);
            var next := NextIndex(t, startIndex, currentIndex);
            FillState(t, startIndex, next, NextLevel(t, next, level))
  {
  }

  lemma RemoveKeepsFillState(s: seq<ScaleUpInfo>, startIndex: nat, currentIndex: nat, level: int)
    requires FillState(s, startIndex, currentIndex, level)
    requires currentIndex < |s| && s[currentIndex].newSize >= s[currentIndex].maxSize
    ensures var t := Swapped(s, startIndex, currentIndex);
            var next := NextIndex(t, startIndex + 1, currentIndex);
            FillState(t, startIndex + 1, next, NextLevel(t, next, level))
  {
  }

  // Neither step changes which groups are in the array.
  lemma GrowKeepsGroups(s: seq<ScaleUpInfo>, i: nat)
    requires i < |s|
    ensures Unplanned(Grown(s, i)) == Unplanned(s)
    ensures Total(Grown(s, i), Growth) == Total(s, Growth) + 1
    ensures Total(Grown(s, i), Slack) == Total(s, Slack) - 1
  {
    TotalUpdate(s, i, s[i].(newSize := s[i].newSize + 1), Growth);
    TotalUpdate(s, i, s[i].(newSize := s[i].newSize + 1), Slack);
  }

  lemma UnplannedOfSwap(s: seq<ScaleUpInfo>, i: nat, j: nat)
    requires i < |s| && j < |s|
    ensures Unplanned(Swapped(s, i, j)) == Swapped(Unplanned(s), i, j)
  {
  }

  lemma SwapKeepsGroups(s: seq<ScaleUpInfo>, i: nat, j: nat)
    requires i < |s| && j < |s|
    ensures multiset(Unplanned(Swapped(s, i, j))) == multiset(Unplanned(s))
    ensures Total(Swapped(s, i, j), Growth) == Total(s, Growth)
    ensures Total(Swapped(s, i, j), Slack) == Total(s, Slack)
  {
    TotalPermutation(s, Swapped(s, i, j), Growth);
    TotalPermutation(s, Swapped(s, i, j), Slack);
    UnplannedOfSwap(s, i, j);
  }

  lemma FillStateIsFair(s: seq<ScaleUpInfo>, startIndex: nat, currentIndex: nat, level: int)
    requires FillState(s, startIndex, currentIndex, level)
    ensures Fair(s)
  {
  }

  // The loop's state: `remaining` nodes to place, and what has been done so far.
  ghost predicate Filling(s: seq<ScaleUpInfo>, groups: seq<ScaleUpInfo>, newNodes: int, remaining: int,
                          startIndex: nat, currentIndex: nat, level: int) {
    && FillState(s, startIndex, currentIndex, level)
    && multiset(Unplanned(s)) == multiset(groups)
    && Total(s, Growth) + Max(0, remaining) == Max(0, newNodes)
    && (remaining > 0 ==> remaining <= Total(s, Slack))
  }

  // While nodes remain some group has room, so neither index has left the array.
  lemma RoomLeft(s: seq<ScaleUpInfo>, groups: seq<ScaleUpInfo>, newNodes: int, remaining: int,
                 startIndex: nat, currentIndex: nat, level: int)
    requires Filling(s, groups, newNodes, remaining, startIndex, currentIndex, level) && remaining > 0
    ensures startIndex <= currentIndex < |s|
  {
    PositiveTotal(s, Slack);
  }

  lemma GrowStep(s: seq<ScaleUpInfo>, groups: seq<ScaleUpInfo>, newNodes: int, remaining: int,
                 startIndex: nat, currentIndex: nat, level: int)
    requires Filling(s, groups, newNodes, remaining, startIndex, currentIndex, level) && remaining > 0
    requires currentIndex < |s| && s[currentIndex].newSize < s[currentIndex].maxSize
    ensures var t := Grown(s, currentIndex);
            var next := NextIndex(t, startIndex, currentIndex);
            Filling(t, groups, newNodes, remaining - 1, startIndex, next, NextLevel(t, next, level))
  {
    GrowKeepsFillState(s, startIndex, currentIndex, level);
    GrowKeepsGroups(s, currentIndex);
  }

  lemma RemoveStep(s: seq<ScaleUpInfo>, groups: seq<ScaleUpInfo>, newNodes: int, remaining: int,
                   startIndex: nat, currentIndex: nat, level: int)
    requires Filling(s, groups, newNodes, remaining, startIndex, currentIndex, level)
    requires currentIndex < |s| && s[currentIndex].newSize >= s[currentIndex].maxSize
    ensures var t := Swapped(s, startIndex, currentIndex);
            var next := NextIndex(t, startIndex + 1, currentIndex);
            Filling(t, groups, newNodes, remaining, startIndex + 1, next, NextLevel(t, next, level))
  {
    RemoveKeepsFillState(s, startIndex, currentIndex, level);
    SwapKeepsGroups(s, startIndex, currentIndex);
  }

  // One visit: the group at `currentIndex` grows, or is removed if it is full.
  function Visited(s: seq<ScaleUpInfo>, startIndex: nat, currentIndex: nat): (seq<ScaleUpInfo>, nat, nat)
    requires startIndex <= currentIndex < |s|
  {
    var t := if s[currentIndex].newSize < s[currentIndex].maxSize
             then Grown(s, currentIndex) else Swapped(s, startIndex, currentIndex);
    var start := if s[currentIndex].newSize < s[currentIndex].maxSize then startIndex else startIndex + 1;
    (t, start, NextIndex(t, start, currentIndex))
  }

  lemma VisitStep(s: seq<ScaleUpInfo>, groups: seq<ScaleUpInfo>, newNodes: int, remaining: int,
                  startIndex: nat, currentIndex: nat, level: int)
    requires Filling(s, groups, newNodes, remaining, startIndex, currentIndex, level) && remaining > 0
    ensures startIndex <= currentIndex < |s|
    ensures var (t, start, next) := Visited(s, startIndex, currentIndex);
            Filling(t, groups, newNodes, if start == startIndex then remaining - 1 else remaining,
                    start, next, NextLevel(t, next, level))
  {
    RoomLeft(s, groups, newNodes, remaining, startIndex, currentIndex, level);
    if s[currentIndex].newSize < s[currentIndex].maxSize {
      GrowStep(s, groups, newNodes, remaining, startIndex, currentIndex, level);
    } else {
      RemoveStep(s, groups, newNodes, remaining, startIndex, currentIndex, level);
    }
  }

  // The body of the balancing loop, in place.
  method Visit(infos: array<ScaleUpInfo>, startIndex: nat, currentIndex: nat)
    returns (added: bool, start: nat, next: nat)
    requires startIndex <= currentIndex < infos.Length
    modifies infos
    ensures (infos[..], start, next) == Visited(old(infos[..]), startIndex, currentIndex)
    ensures added <==> start == startIndex
  {
    start := startIndex;
    added := infos[currentIndex].newSize < infos[currentIndex].maxSize;
    if added {
      infos[currentIndex] := infos[currentIndex].(newSize := infos[currentIndex].newSize + 1);
      assert infos[..] == Grown(old(infos[..]), currentIndex);
    } else {
      infos[startIndex], infos[currentIndex] := infos[currentIndex], infos[startIndex];
      assert infos[..] == Swapped(old(infos[..]), startIndex, currentIndex);
      start := start + 1;
    }
    if currentIndex < infos.Length - 1 && infos[currentIndex].newSize > infos[currentIndex + 1].newSize {
      next := currentIndex + 1;
    } else {
      next := start;
    }
  }

  /** The balancing loop, in place. It never leaves the array and takes at most one iteration per
      node and one per group. */
  method Fill(infos: array<ScaleUpInfo>, newNodes: int) returns (ghost iterations: nat)
    requires Sorted(infos[..]) && Unplanned(infos[..]) == infos[..]
    requires newNodes > 0 ==> newNodes <= Total(infos[..], Slack)
    modifies infos
    ensures Filled(old(infos[..]), newNodes, infos[..])
    ensures iterations <= Max(0, newNodes) + infos.Length
  {
    var remaining, startIndex, currentIndex := newNodes, 0, 0;
    ghost var groups, level := infos[..], NextLevel(infos[..], 0, 0);
    iterations := 0;
    StartFilling(groups, newNodes);
    while remaining > 0
      invariant Filling(infos[..], groups, newNodes, remaining, startIndex, currentIndex, level)
      invariant iterations + Max(0, remaining) == Max(0, newNodes) + startIndex
      decreases remaining + (infos.Length - startIndex)
    {
      VisitStep(infos[..], groups, newNodes, remaining, startIndex, currentIndex, level);
      var added;
      added, startIndex, currentIndex := Visit(infos, startIndex, currentIndex);
      if added {
        remaining := remaining - 1;
      }
      level := NextLevel(infos[..], currentIndex, level);
      iterations := iterations + 1;
    }
    FinishFilling(infos[..], groups, newNodes, remaining, startIndex, currentIndex, level);
  }

  lemma FinishFilling(s: seq<ScaleUpInfo>, initial: seq<ScaleUpInfo>, newNodes: int, remaining: int,
                      startIndex: nat, currentIndex: nat, level: int)
    requires Filling(s, initial, newNodes, remaining, startIndex, currentIndex, level) && remaining <= 0
    ensures Filled(initial, newNodes, s)
  {
    FillStateIsFair(s, startIndex, currentIndex, level);
  }

  lemma StartFilling(s: seq<ScaleUpInfo>, newNodes: int)
    requires Sorted(s) && Unplanned(s) == s
    requires newNodes > 0 ==> newNodes <= Total(s, Slack)
    ensures Filling(s, s, newNodes, newNodes, 0, 0, NextLevel(s, 0, 0))
  {
    assert forall i :: 0 <= i < |s| ==> s[i] == Bare(s[i]);
    ZeroGrowth(s);
  }

  lemma {:induction false} ZeroGrowth(s: seq<ScaleUpInfo>)
    requires Unplanned(s) == s
    ensures Total(s, Growth) == 0
  {
    if s != [] {
      assert s[0] == Bare(s[0]);
      assert Unplanned(s[1..]) == s[1..];
      ZeroGrowth(s[1..]);
    }
  }

  // ---------------------------------------------------------------- the balancer

  lemma {:induction false} CandidatesUnplanned(groups: seq<NodeGroup>)
    requires forall g :: g in groups ==> g.targetSize.Some?
    ensures Unplanned(Candidates(groups)) == Candidates(groups)
    ensures forall info :: info in Candidates(groups) ==> info.newSize == info.currentSize != info.maxSize
  {
    if groups != [] {
      CandidatesUnplanned(groups[..|groups| - 1]);
    }
  }

  // Which groups the balancer works on: those whose size is not their maximum, in order, with their own sizes.
  lemma {:induction false} CandidatesSelect(groups: seq<NodeGroup>) returns (at: seq<nat>)
    requires forall g :: g in groups ==> g.targetSize.Some?
    ensures Selects(groups, NotAtMaximum, AsInfo, at, Candidates(groups))
  {
    hide Selects;
    NoEntries(NotAtMaximum, AsInfo);
    at := [];
    if groups != [] {
      var front, last := groups[..|groups| - 1], groups[|groups| - 1];
      at := CandidatesSelect(front);
      OneMoreEntry(front, last, NotAtMaximum, AsInfo, at, Candidates(front));
      assert groups == front + [last];
      assert Candidates(groups)
          == if NotAtMaximum(last) then Candidates(front) + [AsInfo(last)] else Candidates(front);
      at := if NotAtMaximum(last) then at + [|front|] else at;
    }
  }

  predicate NotAtMaximum(g: NodeGroup) { g.targetSize != Some(g.maxSize) }

  function AsInfo(g: NodeGroup): ScaleUpInfo {
    if g.targetSize.Some? then ScaleUpInfo(g.targetSize.value, g.targetSize.value, g.maxSize) else ScaleUpInfo(0, 0, 0)
  }

  // The capacity of all groups, as the balancer adds it up.
  function Capacity(groups: seq<NodeGroup>): int {
    if groups == [] then 0
    else
      var g := groups[0];
      Capacity(groups[1..]) + if g.targetSize.Some? then g.maxSize - g.targetSize.value else 0
  }

  lemma {:induction false} CapacityOfAll(a: seq<NodeGroup>, b: seq<NodeGroup>)
    ensures Capacity(a + b) == Capacity(a) + Capacity(b)
  {
    if a == [] {
      assert a + b == b;
    } else {
      CapacityOfAll(a[1..], b);
      assert (a + b)[1..] == a[1..] + b;
    }
  }

  lemma {:induction false} CandidatesCapacity(groups: seq<NodeGroup>)
    requires forall g :: g in groups ==> g.targetSize.Some?
    ensures Total(Candidates(groups), Slack) == Capacity(groups)
  {
    if groups != [] {
      var front, last := groups[..|groups| - 1], groups[|groups| - 1];
      CandidatesCapacity(front);
      CapacityOfAll(front, [last]);
      assert groups == front + [last];
      var more := if last.targetSize.value == last.maxSize then [] else [AsInfo(last)];
      TotalConcat(Candidates(front), more, Slack);
    }
  }

  lemma {:induction false} CandidatesCount(groups: seq<NodeGroup>, a: int, m: int)
    requires forall g :: g in groups ==> g.targetSize.Some?
    ensures multiset(Candidates(groups))[ScaleUpInfo(a, a, m)]
         == if a == m then 0 else multiset(groups)[NodeGroup(Some(a), m)]
  {
    if groups != [] {
      var front, last := groups[..|groups| - 1], groups[|groups| - 1];
      CandidatesCount(front, a, m);
      assert groups == front + [last];
    }
  }

  // The sizes that the groups of a plan started from, and their maxima.
  function Origins(plan: seq<ScaleUpInfo>): (r: seq<(int, int)>)
    ensures |r| == |plan| && forall i :: 0 <= i < |plan| ==> r[i] == (plan[i].currentSize, plan[i].maxSize)
  {
    seq(|plan|, i requires 0 <= i < |plan| => (plan[i].currentSize, plan[i].maxSize))
  }

  lemma {:induction false} OriginsCount(plan: seq<ScaleUpInfo>, a: int, m: int)
    ensures multiset(Origins(plan))[(a, m)] == multiset(Unplanned(plan))[ScaleUpInfo(a, a, m)]
  {
    if plan == [] {
      assert Origins(plan) == [] && Unplanned(plan) == [];
    } else {
      var front, last := plan[..|plan| - 1], plan[|plan| - 1];
      OriginsCount(front, a, m);
      assert Origins(plan) == Origins(front) + [(last.currentSize, last.maxSize)];
      assert Unplanned(plan) == Unplanned(front) + [Bare(last)];
    }
  }

  // The plan has the groups that are not at their maximum, each as often as it is given.
  ghost predicate PlansFor(plan: seq<ScaleUpInfo>, groups: seq<NodeGroup>) {
    forall a, m :: multiset(Origins(plan))[(a, m)] == if a == m then 0 else multiset(groups)[NodeGroup(Some(a), m)]
  }

  lemma FilledPlansFor(plan: seq<ScaleUpInfo>, groups: seq<NodeGroup>, newNodes: int)
    requires forall g :: g in groups ==> g.targetSize.Some?
    requires Filled(Candidates(groups), newNodes, plan)
    ensures PlansFor(plan, groups)
  {
    forall a, m
      ensures multiset(Origins(plan))[(a, m)] == if a == m then 0 else multiset(groups)[NodeGroup(Some(a), m)]
    {
      OriginsCount(plan, a, m);
      CandidatesCount(groups, a, m);
    }
  }

  // What is reported is a group that was given, and its new size is more than it has and no more than it may have.
  ghost predicate Reported(result: seq<ScaleUpInfo>, groups: seq<NodeGroup>) {
    forall info :: info in result ==>
      && info.currentSize < info.newSize <= info.maxSize
      && NodeGroup(Some(info.currentSize), info.maxSize) in groups
  }

  lemma PlanIsReported(plan: seq<ScaleUpInfo>, groups: seq<NodeGroup>)
    requires PlansFor(plan, groups) && WithinLimits(plan)
    ensures Reported(Changed(plan), groups)
  {
    forall info | info in Changed(plan)
      ensures info.currentSize < info.newSize <= info.maxSize
      ensures NodeGroup(Some(info.currentSize), info.maxSize) in groups
    {
      var i :| 0 <= i < |plan| && plan[i] == info;
      assert Origins(plan)[i] == (info.currentSize, info.maxSize);
      assert (info.currentSize, info.maxSize) in multiset(Origins(plan));
      assert NodeGroup(Some(info.currentSize), info.maxSize) in multiset(groups);
    }
  }

  predicate HasChanged(info: ScaleUpInfo) { info.newSize != info.currentSize }

  lemma {:induction false} ChangedSelects(plan: seq<ScaleUpInfo>) returns (at: seq<nat>)
    ensures Selects(plan, HasChanged, Same, at, Changed(plan))
  {
    hide Selects;
    NoEntries(HasChanged, Same<ScaleUpInfo>);
    at := [];
    if plan != [] {
      var front, last := plan[..|plan| - 1], plan[|plan| - 1];
      at := ChangedSelects(front);
      OneMoreEntry(front, last, HasChanged, Same, at, Changed(front));
      assert plan == front + [last];
      assert Changed(plan) == if HasChanged(last) then Changed(front) + [last] else Changed(front);
      at := if HasChanged(last) then at + [|front|] else at;
    }
  }

  // Reads the groups from the provider: the first loop of the balancer.
  method CollectCandidates(groups: seq<NodeGroup>) returns (scaleUpInfos: Option<seq<ScaleUpInfo>>, totalCapacity: int)
    ensures scaleUpInfos.None? <==> exists g :: g in groups && g.targetSize.None?
    ensures scaleUpInfos.Some? ==>
      scaleUpInfos.value == Candidates(groups) && totalCapacity == Total(Candidates(groups), Slack)
  {
    var infos := [];
    totalCapacity := 0;
    for i := 0 to |groups|
      invariant forall g :: g in groups[..i] ==> g.targetSize.Some?
      invariant infos == Candidates(groups[..i])
      invariant totalCapacity == Total(infos, Slack)
    {
      assert groups[..i + 1][..i] == groups[..i];
      if groups[i].targetSize.None? {
        return None, 0;
      }
      var currentSize, maxSize := groups[i].targetSize.value, groups[i].maxSize;
      if currentSize != maxSize {
        TotalConcat(infos, [ScaleUpInfo(currentSize, currentSize, maxSize)], Slack);
        infos := infos + [ScaleUpInfo(currentSize, currentSize, maxSize)];
        totalCapacity := totalCapacity + (maxSize - currentSize);
      }
    }
    assert groups[..|groups|] == groups;
    scaleUpInfos := Some(infos);
  }

  // Filters out the groups that have not changed size: the last loop of the balancer.
  method SelectChanged(infos: array<ScaleUpInfo>) returns (result: seq<ScaleUpInfo>)
    ensures result == Changed(infos[..])
  {
    result := [];
    for i := 0 to infos.Length
      invariant result == Changed(infos[..i])
    {
      assert infos[..i + 1][..i] == infos[..i];
      if infos[i].newSize != infos[i].currentSize {
        result := result + [infos[i]];
      }
    }
    assert infos[..infos.Length] == infos[..];
  }

  method BalanceScaleUpBetweenGroups(groups: seq<NodeGroup>, newNodes: int)
    returns (r: Result<seq<ScaleUpInfo>, BalanceError>, ghost plan: seq<ScaleUpInfo>)
    ensures r == Failure(NoGroups) <==> groups == []
    ensures r == Failure(CloudProviderError) <==> exists g :: g in groups && g.targetSize.None?
    ensures r.Success? ==>
      && Filled(Candidates(groups), Capped(Candidates(groups), newNodes), plan) && r.value == Changed(plan)
      && PlansFor(plan, groups) && Reported(r.value, groups)
      && Total(r.value, Growth) == Max(0, Min(newNodes, Capacity(groups)))
  {
    hide PlansFor, Reported, Capacity;
    plan := [];
    if |groups| == 0 {
      return Failure(NoGroups), plan;
    }
    var scaleUpInfos, totalCapacity := CollectCandidates(groups);
    if scaleUpInfos.None? {
      return Failure(CloudProviderError), plan;
    }
    var capped := if totalCapacity < newNodes then totalCapacity else newNodes;
    var sorted := SortBySize(scaleUpInfos.value);
    SortKeepsCandidates(scaleUpInfos.value, sorted);
    CandidatesUnplanned(groups);
    var infos := new ScaleUpInfo[|sorted|](i requires 0 <= i < |sorted| => sorted[i]);
    assert infos[..] == sorted;
    ghost var iterations := Fill(infos, capped);
    plan := infos[..];
    var result := SelectChanged(infos);
    PlanServesGroups(plan, groups, newNodes);
    return Success(result), plan;
  }

  lemma PlanServesGroups(plan: seq<ScaleUpInfo>, groups: seq<NodeGroup>, newNodes: int)
    requires forall g :: g in groups ==> g.targetSize.Some?
    requires Filled(Candidates(groups), Capped(Candidates(groups), newNodes), plan)
    ensures PlansFor(plan, groups) && Reported(Changed(plan), groups)
    ensures Total(Changed(plan), Growth) == Max(0, Min(newNodes, Capacity(groups)))
  {
    FilledPlansFor(plan, groups, Capped(Candidates(groups), newNodes));
    hide PlansFor, Reported;
    PlanIsReported(plan, groups);
    ReportedIncrease(plan);
    CandidatesCapacity(groups);
  }

  lemma SortKeepsCandidates(s: seq<ScaleUpInfo>, sorted: seq<ScaleUpInfo>)
    requires multiset(sorted) == multiset(s)
    ensures Total(sorted, Slack) == Total(s, Slack)
    ensures Unplanned(s) == s ==> Unplanned(sorted) == sorted
  {
    TotalPermutation(sorted, s, Slack);
    if Unplanned(s) == s {
      assert forall i :: 0 <= i < |s| ==> s[i] == Bare(s[i]);
      assert forall info :: info in sorted ==> info in multiset(s);
      assert forall info :: info in sorted ==> info in s && info == Bare(info);
    }
  }

  // ---------------------------------------------------------------- consequences

  // The reported groups carry the whole increase.
  lemma {:induction false} ReportedIncrease(plan: seq<ScaleUpInfo>)
    ensures Total(Changed(plan), Growth) == Total(plan, Growth)
  {
    if plan != [] {
      var front, last := plan[..|plan| - 1], plan[|plan| - 1];
      ReportedIncrease(front);
      assert plan == front + [last];
      TotalConcat(front, [last], Growth);
      TotalConcat(Changed(front), if last.newSize != last.currentSize then [last] else [], Growth);
    }
  }

  // The cap is the free capacity of the groups exactly when no group is above its maximum;
  // a group above its maximum makes the cap too low.
  lemma {:induction false} CapIsFreeCapacity(candidates: seq<ScaleUpInfo>)
    ensures Total(candidates, Slack) <= Total(candidates, Free)
    ensures Total(candidates, Slack) == Total(candidates, Free)
       <==> forall info :: info in candidates ==> info.newSize <= info.maxSize
  {
    if candidates != [] {
      CapIsFreeCapacity(candidates[1..]);
      assert candidates == [candidates[0]] + candidates[1..];
    }
  }

  /** A group one above its maximum beside one with room for two: the cap is one. */
  lemma GroupAboveMaximumLowersCap()
    ensures var candidates := [ScaleUpInfo(3, 3, 2), ScaleUpInfo(1, 1, 3)];
      Total(candidates, Slack) == 1 && Total(candidates, Free) == 2
  {
    var candidates := [ScaleUpInfo(3, 3, 2), ScaleUpInfo(1, 1, 3)];
    assert candidates[1..] == [ScaleUpInfo(1, 1, 3)] && [ScaleUpInfo(1, 1, 3)][1..] == [];
  }

  function Slope(f: int -> int, k: int): int { f(k + 1) - f(k) }

  // A cost of group sizes that grows at least as fast for large groups as for small ones.
  ghost predicate Convex(f: int -> int) {
    forall a, b :: a <= b ==> Slope(f, a) <= Slope(f, b)
  }

  function Cost(sizes: seq<int>, f: int -> int): int {
    if sizes == [] then 0 else f(sizes[0]) + Cost(sizes[1..], f)
  }

  function Sum(sizes: seq<int>): int {
    if sizes == [] then 0 else sizes[0] + Sum(sizes[1..])
  }

  function NewSizes(s: seq<ScaleUpInfo>): seq<int> {
    seq(|s|, i requires 0 <= i < |s| => s[i].newSize)
  }

  // `sizes` is another way to scale the same groups up within their limits.
  ghost predicate Feasible(plan: seq<ScaleUpInfo>, sizes: seq<int>) {
    && |sizes| == |plan|
    && forall i :: 0 <= i < |plan| ==>
         plan[i].currentSize <= sizes[i] && (sizes[i] > plan[i].currentSize ==> sizes[i] <= plan[i].maxSize)
  }

  // A water level: what was filled stops right above it, what has room is not below it.
  ghost predicate IsLevel(s: seq<ScaleUpInfo>, level: int) {
    forall i :: 0 <= i < |s| ==>
      && (s[i].newSize > s[i].currentSize ==> s[i].newSize <= level + 1)
      && (s[i].newSize < s[i].maxSize ==> s[i].newSize >= level)
  }

  lemma LevelExists(s: seq<ScaleUpInfo>) returns (level: int)
    requires Fair(s)
    ensures IsLevel(s, level)
  {
    var top: Option<nat>, low := None, 0;
    for k := 0 to |s|
      invariant top.Some? ==> top.value < k && s[top.value].newSize > s[top.value].currentSize
      invariant forall i :: 0 <= i < k && s[i].newSize > s[i].currentSize ==>
        top.Some? && s[i].newSize <= s[top.value].newSize
      invariant forall i :: 0 <= i < k ==> s[i].newSize >= low
    {
      if s[k].newSize > s[k].currentSize && (top.None? || s[top.value].newSize < s[k].newSize) {
        top := Some(k);
      }
      low := Min(low, s[k].newSize);
    }
    level := if top.None? then low else s[top.value].newSize - 1;
  }

  lemma {:induction false} RisingTangent(f: int -> int, level: int, x: int, y: int)
    requires Convex(f) && level <= x <= y
    ensures f(y) - f(x) >= Slope(f, level) * (y - x)
    decreases y - x
  {
    if x < y {
      RisingTangent(f, level, x, y - 1);
      assert Slope(f, level) <= Slope(f, y - 1);
      assert Slope(f, level) * (y - x) == Slope(f, level) * (y - 1 - x) + Slope(f, level);
    }
  }

  lemma {:induction false} FallingTangent(f: int -> int, level: int, x: int, y: int)
    requires Convex(f) && y <= x <= level + 1
    ensures f(y) - f(x) >= Slope(f, level) * (y - x)
    decreases x - y
  {
    if y < x {
      FallingTangent(f, level, x, y + 1);
      assert Slope(f, y) <= Slope(f, level);
      assert Slope(f, level) * (y - x) == Slope(f, level) * (y + 1 - x) - Slope(f, level);
    }
  }

  lemma {:induction false} CostAboveTangent(s: seq<ScaleUpInfo>, sizes: seq<int>, f: int -> int, level: int)
    requires WithinLimits(s) && IsLevel(s, level) && Feasible(s, sizes) && Convex(f)
    ensures Cost(sizes, f) - Cost(NewSizes(s), f) >= Slope(f, level) * (Sum(sizes) - Sum(NewSizes(s)))
  {
    if s != [] {
      var x, y, k := s[0].newSize, sizes[0], Slope(f, level);
      if x <= y {
        if x < y { RisingTangent(f, level, x, y); }
      } else {
        FallingTangent(f, level, x, y);
      }
      CostAboveTangent(s[1..], sizes[1..], f, level);
      assert NewSizes(s)[1..] == NewSizes(s[1..]);
      var rest := Sum(sizes[1..]) - Sum(NewSizes(s[1..]));
      assert k * (y - x) + k * rest == k * (y - x + rest);
    }
  }

  /** The documented aim: sizes as evenly balanced as possible. Of all ways to add the same number
      of nodes within the limits, a fair plan has the least cost for every convex cost of a group's
      size: least variance, lowest maximum of the groups that grow, and so on. */
  lemma AsEvenAsPossible(plan: seq<ScaleUpInfo>, sizes: seq<int>, f: int -> int)
    requires WithinLimits(plan) && Fair(plan)
    requires Feasible(plan, sizes) && Sum(sizes) == Sum(NewSizes(plan))
    requires Convex(f)
    ensures Cost(NewSizes(plan), f) <= Cost(sizes, f)
  {
    var level := LevelExists(plan);
    CostAboveTangent(plan, sizes, f, level);
  }
}
