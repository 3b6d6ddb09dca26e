/**
  Bookkeeping of node deletions (NodeDeletionTracker in scaler/ScaleDown.go): a counter per node
  group and the results collected since they were last handed over.
 */
module DeletionTracker {
  import opened Selections
  import opened Wrappers

  datatype Deletion = Started(group: string) | Ended(group: string)

  datatype NodeDeleteResult = NodeDeleteOk | FailedToMarkToBeDeleted | FailedToEvictPods | FailedToDelete

  datatype ResultEvent = Added(name: string, result: NodeDeleteResult) | HandedOver

  // ---------------------------------------------------------------- counters over a history

  // Starts minus ends of a group.
  function Balance(h: seq<Deletion>, g: string): int {
    if h == [] then 0
    else Balance(h[..|h| - 1], g)
         + match h[|h| - 1] { case Started(x) => if x == g then 1 else 0 case Ended(x) => if x == g then -1 else 0 }
  }

  lemma {:induction false} BalanceIs(h: seq<Deletion>, g: string)
    ensures Balance(h, g) + multiset(h)[Ended(g)] == multiset(h)[Started(g)]
  {
    if h != [] {
      BalanceIs(h[..|h| - 1], g);
      assert h == h[..|h| - 1] + [h[|h| - 1]];
    }
  }

  // The counter after a history: an end without a pending start is ignored.
  function InProgress(h: seq<Deletion>, g: string): nat {
    if h == [] then 0
    else
      var before := InProgress(h[..|h| - 1], g);
      match h[|h| - 1]
      case Started(x) => if x == g then before + 1 else before
      case Ended(x) => if x == g && before > 0 then before - 1 else before
  }

  /** The counter is the largest balance of any suffix of the history: no suffix has more, and one
      suffix (possibly the empty one) has exactly as much. */
  lemma {:induction false} LargestSuffixBalance(h: seq<Deletion>, g: string)
    ensures forall k :: 0 <= k <= |h| ==> Balance(h[k..], g) <= InProgress(h, g)
    ensures exists k :: 0 <= k <= |h| && Balance(h[k..], g) == InProgress(h, g)
  {
    if h == [] {
      assert Balance(h[0..], g) == 0;
    } else {
      var front := h[..|h| - 1];
      LargestSuffixBalance(front, g);
      forall k | 0 <= k < |h| ensures Balance(h[k..], g) == Balance(front[k..], g) + Balance(h[|h| - 1..], g) {
        assert h[k..][..|h[k..]| - 1] == front[k..];
        assert h[|h| - 1..][..0] == [];
      }
      assert h[|h|..] == [];
      var k :| 0 <= k <= |front| && Balance(front[k..], g) == InProgress(front, g);
      assert Balance(h[k..], g) == InProgress(h, g) || Balance(h[|h|..], g) == InProgress(h, g);
    }
  }

  // The part of a history that concerns one group.
  function About(h: seq<Deletion>, g: string): seq<Deletion> {
    if h == [] then []
    else About(h[..|h| - 1], g) + if h[|h| - 1].group == g then [h[|h| - 1]] else []
  }

  lemma {:induction false} AboutSelects(h: seq<Deletion>, g: string) returns (at: seq<nat>)
    ensures Selects(h, (d: Deletion) => d.group == g, Same, at, About(h, g))
  {
    hide Selects;
    var p := (d: Deletion) => d.group == g;
    NoEntries(p, Same<Deletion>);
    at := [];
    if h != [] {
      var front, last := h[..|h| - 1], h[|h| - 1];
      at := AboutSelects(front, g);
      OneMoreEntry(front, last, p, Same, at, About(front, g));
      assert h == front + [last];
      assert About(h, g) == if p(last) then About(front, g) + [last] else About(front, g);
      at := if p(last) then at + [|front|] else at;
    }
  }

  // Other groups never touch a group's counter.
  lemma {:induction false} OtherGroupsDoNotMatter(h: seq<Deletion>, g: string)
    ensures InProgress(h, g) == InProgress(About(h, g), g)
  {
    if h != [] {
      var front := About(h[..|h| - 1], g);
      OtherGroupsDoNotMatter(h[..|h| - 1], g);
      if h[|h| - 1].group == g {
        assert About(h, g) == front + [h[|h| - 1]];
        assert (front + [h[|h| - 1]])[..|front|] == front;
      } else {
        assert About(h, g) == front;
      }
    }
  }

  // ---------------------------------------------------------------- results over a history

  function Pending(h: seq<ResultEvent>): map<string, NodeDeleteResult> {
    if h == [] then map[]
    else match h[|h| - 1]
      case Added(name, result) => Pending(h[..|h| - 1])[name := result]
      case HandedOver => map[]
  }

  // Event i is the last word on a name: nothing after it overwrites it or hands it over.
  ghost predicate LastWord(h: seq<ResultEvent>, i: nat, name: string) {
    && i < |h| && h[i].Added? && h[i].name == name
    && forall j :: i < j < |h| ==> h[j].Added? && h[j].name != name
  }

  // A result is pending exactly when it is its node's last and was added since the last hand-over.
  lemma {:induction false} PendingIsLastWord(h: seq<ResultEvent>, name: string)
    ensures name in Pending(h) ==> exists i: nat :: LastWord(h, i, name) && h[i].result == Pending(h)[name]
    ensures forall i: nat :: LastWord(h, i, name) ==> name in Pending(h) && Pending(h)[name] == h[i].result
  {
    if h != [] {
      var front, n := h[..|h| - 1], |h| - 1;
      PendingIsLastWord(front, name);
      if h[n].Added? && h[n].name == name {
        assert LastWord(h, n, name);
      } else if name in Pending(h) {
        var i: nat :| LastWord(front, i, name) && front[i].result == Pending(front)[name];
        assert LastWord(h, i, name);
      }
      forall i: nat | LastWord(h, i, name) && i < n ensures LastWord(front, i, name) {
      }
    }
  }

  // ---------------------------------------------------------------- the tracker

  class NodeDeletionTracker {
    var nonEmptyNodeDeleteInProgress: bool
    var nodeDeleteResults: map<string, NodeDeleteResult>
    var deletionsInProgress: map<string, int>
    ghost var history: seq<Deletion>
    ghost var results: seq<ResultEvent>

    // Missing map entries read as zero, the map holds no others, and history explains both maps.
    ghost predicate Valid()
      reads this
    {
      && (forall g :: g in deletionsInProgress ==> deletionsInProgress[g] > 0)
      && (forall g :: InProgress(history, g) == if g in deletionsInProgress then deletionsInProgress[g] else 0)
      && nodeDeleteResults == Pending(results)
    }

    constructor ()
      ensures Valid() && history == [] && results == [] && !nonEmptyNodeDeleteInProgress
    {
      nonEmptyNodeDeleteInProgress := false;
      nodeDeleteResults, deletionsInProgress := map[], map[];
      history, results := [], [];
    }

    method IsNonEmptyNodeDeleteInProgress() returns (b: bool)
      ensures b == nonEmptyNodeDeleteInProgress
    {
      b := nonEmptyNodeDeleteInProgress;
    }

    method SetNonEmptyNodeDeleteInProgress(status: bool)
      modifies this`nonEmptyNodeDeleteInProgress
      ensures nonEmptyNodeDeleteInProgress == status
    {
      nonEmptyNodeDeleteInProgress := status;
    }

    method StartDeletion(nodeGroupId: string)
      requires Valid()
      modifies this`deletionsInProgress, this`history
      ensures Valid() && history == old(history) + [Started(nodeGroupId)]
    {
      var value := if nodeGroupId in deletionsInProgress then deletionsInProgress[nodeGroupId] else 0;
      deletionsInProgress := deletionsInProgress[nodeGroupId := value + 1];
      history := history + [Started(nodeGroupId)];
      assert history[..|history| - 1] == old(history);
    }

    // The source's report of a non-positive counter is dead code.
    method EndDeletion(nodeGroupId: string)
      requires Valid()
      modifies this`deletionsInProgress, this`history
      ensures Valid() && history == old(history) + [Ended(nodeGroupId)]
    {
      history := history + [Ended(nodeGroupId)];
      assert history[..|history| - 1] == old(history);
      if nodeGroupId !in deletionsInProgress {
        return;
      }
      var value := deletionsInProgress[nodeGroupId];
      if value <= 0 {
        assert false;
      }
      deletionsInProgress := deletionsInProgress[nodeGroupId := value - 1];
      if deletionsInProgress[nodeGroupId] <= 0 {
        deletionsInProgress := deletionsInProgress - {nodeGroupId};
      }
    }

    method GetDeletionsInProgress(nodeGroupId: string) returns (n: int)
      requires Valid()
      ensures n == InProgress(history, nodeGroupId)
    {
      n := if nodeGroupId in deletionsInProgress then deletionsInProgress[nodeGroupId] else 0;
    }

    method AddNodeDeleteResult(nodeName: string, result: NodeDeleteResult)
      requires Valid()
      modifies this`nodeDeleteResults, this`results
      ensures Valid() && results == old(results) + [Added(nodeName, result)]
    {
      nodeDeleteResults := nodeDeleteResults[nodeName := result];
      results := results + [Added(nodeName, result)];
      assert results[..|results| - 1] == old(results);
    }

    method GetAndClearNodeDeleteResults() returns (handed: map<string, NodeDeleteResult>)
      requires Valid()
      modifies this`nodeDeleteResults, this`results
      ensures Valid() && handed == Pending(old(results)) && results == old(results) + [HandedOver]
    {
      handed := nodeDeleteResults;
      nodeDeleteResults := map[];
      results := results + [HandedOver];
    }
  }
}
