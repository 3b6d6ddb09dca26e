/**
  Scaling with waiting (core/util.go): a scale-up that backs off when it meets the quota and repeats
  itself on errors, and a scale-down that repeats itself once. Each is a method and, beside it, the
  requests it sends and the time it takes as a function of the environment.
 */
module BlockingCalls {
  import opened Nodes
  import opened Portal
  import opened RepairRounds

  // ---------------------------------------------------------------- quota back-off

  // The count the back-off settles on when it starts at time t with count i; zero if all are refused.
  function Settle(env: Environment, t: nat, i: int): (settled: nat)
    ensures settled <= Max(i, 0)
    decreases i
  {
    if i <= 0 then 0 else if env.reply(t, i).QuotaReached? then Settle(env, t + 1, i - 1) else i
  }

  function Max(a: int, b: int): int { if a < b then b else a }

  function Min(a: int, b: int): int { if a < b then a else b }

  // A back-off that starts with count i.
  function BackOffFrom(env: Environment, s: State, i: int): (r: State)
    ensures r.time >= s.time
    decreases i
  {
    if i <= 0 then s
    else if env.reply(s.time, i).QuotaReached? then BackOffFrom(env, AskUp(env, s, i), i - 1)
    else AskUp(env, s, i)
  }

  // The portal refuses exactly the requests for more than q workers.
  ghost predicate QuotaIs(env: Environment, q: nat) {
    forall t: nat, i: int :: env.reply(t, i).QuotaReached? <==> i > q
  }

  /** Against a fixed quota the back-off settles on the most that the quota allows... */
  lemma {:induction false} BackOffIsMaximal(env: Environment, t: nat, i: int, q: nat)
    requires QuotaIs(env, q)
    ensures Settle(env, t, i) == if i < q then Max(i, 0) else q
    decreases i
  {
    if i > q {
      BackOffIsMaximal(env, t + 1, i - 1, q);
    }
  }

  // How many requests a back-off from i makes that settles on a count, or on none.
  function Attempts(i: int, settled: nat): int {
    if i <= 0 then 0 else if settled > 0 then i - settled + 1 else i
  }

  /** ... after asking for every larger count exactly once, from the largest down; what is created is what the
      last of these requests is granted. */
  lemma {:induction false} BackOffTriesEachOnce(env: Environment, s: State, i: int)
    ensures var r, settled := BackOffFrom(env, s, i), Settle(env, s.time, i);
            var n := Attempts(i, settled);
      && s.requests <= r.requests && |r.requests| == |s.requests| + n && r.time == s.time + n
      && (forall k :: |s.requests| <= k < |r.requests| ==> r.requests[k] == ScaleUp(i - (k - |s.requests|)))
      && r.workers == s.workers + if settled > 0 then Granted(env, r.time - 1, settled) else {}
    decreases i
  {
    if i > 0 && env.reply(s.time, i).QuotaReached? {
      var asked := AskUp(env, s, i);
      BackOffTriesEachOnce(env, asked, i - 1);
      assert BackOffFrom(env, s, i).requests[|s.requests|] == asked.requests[|s.requests|] == ScaleUp(i);
    }
  }

  /** Its request number k is taken exactly if it is the last one and the back-off has settled; it settles on the
      count of that request, and on none only if all from the largest to one were refused. */
  lemma {:induction false} BackOffStops(env: Environment, t: nat, i: int, k: nat)
    requires i > 0 && k < Attempts(i, Settle(env, t, i))
    ensures var settled, n := Settle(env, t, i), Attempts(i, Settle(env, t, i));
      && 1 <= n <= i && (settled == 0 ==> n == i) && (settled > 0 ==> n == i - settled + 1)
      && (env.reply(t + k, i - k).Taken? <==> k == n - 1 && settled > 0)
    decreases i
  {
    if env.reply(t, i).QuotaReached? && i > 1 {
      BackOffStops(env, t + 1, i - 1, if k > 0 then k - 1 else 0);
    }
  }

  method BackOff(c: Client, incSize: int)
    modifies c
    ensures c.Now() == BackOffFrom(c.env, old(c.Now()), incSize)
  {
    var i := incSize;
    while i > 0
      invariant BackOffFrom(c.env, c.Now(), i) == BackOffFrom(c.env, old(c.Now()), incSize)
      decreases i
    {
      var quotaReached := c.PerformScaleUp(i);
      if !quotaReached {
        break;
      }
      i := i - 1;
    }
  }

  // ---------------------------------------------------------------- blocking scale-up, for any environment

  function WorkersListed(env: Environment, t: nat): nat { |WorkerNames(env.listing(t))| }

  const POLLS := 30

  // A poll that does not find the cluster idle: a back-off if it is in error, and a listing.
  function Polled(env: Environment, s: State, incSize: int): (r: State)
    ensures r.time > s.time
  {
    var checked := s.(time := s.time + 2);
    var asked := if env.status(s.time + 1) == Errored then BackOffFrom(env, checked, incSize) else checked;
    asked.(time := asked.time + 1)
  }

  // The waiting loop from its iteration `iter` on: ended by an idle cluster, by growth, or after 30 polls.
  function WaitForGrowth(env: Environment, s: State, incSize: int, target: int, currSize: int, iter: nat): State
    decreases POLLS - iter, s.time
  {
    if currSize == target || iter >= POLLS then s
    else if env.status(s.time) == Succeeded then s.(time := s.time + 1)
    else
      var polled := Polled(env, s, incSize);
      WaitForGrowth(env, polled, incSize, target, WorkersListed(env, polled.time - 1), iter + 1)
  }

  function AskAndWait(env: Environment, s: State, incSize: int, size: int): State {
    WaitForGrowth(env, BackOffFrom(env, s, incSize), incSize, size + incSize, size, 0)
  }

  function Increase(env: Environment, s: State, incSize: int): State {
    var t := s.time;
    if env.status(t + 1) != Succeeded then s.(time := t + 3)
    else AskAndWait(env, s.(time := t + 2), incSize, WorkersListed(env, t))
  }

  // Since `before`, only scale-ups for one to `most` workers were requested, at most `number` of them.
  ghost predicate SentUps(before: seq<Request>, now: seq<Request>, most: int, number: int) {
    && before <= now && |now| <= |before| + number
    && forall i :: |before| <= i < |now| ==> now[i].ScaleUp? && 1 <= now[i].count <= most
  }

  lemma SentMoreUps(before: seq<Request>, between: seq<Request>, now: seq<Request>, most: int, m: int, n: int)
    requires SentUps(before, between, most, m) && SentUps(between, now, most, n)
    ensures SentUps(before, now, most, m + n)
  {
    assert forall i :: 0 <= i < |between| ==> now[i] == between[i];
  }

  lemma BackOffIsSmall(env: Environment, s: State, i: int)
    ensures SentUps(s.requests, BackOffFrom(env, s, i).requests, i, Max(i, 0))
  {
    BackOffTriesEachOnce(env, s, i);
  }

  // As many back-offs, each of at most so many requests.
  function Budget(n: nat, most: nat): nat { if n == 0 then 0 else most + Budget(n - 1, most) }

  lemma {:induction false} BudgetIsProduct(n: nat, most: nat)
    ensures Budget(n, most) == n * most
  {
    if n > 0 {
      BudgetIsProduct(n - 1, most);
    }
  }

  lemma OnePollIsSmall(env: Environment, s: State, incSize: int)
    ensures SentUps(s.requests, Polled(env, s, incSize).requests, incSize, Max(incSize, 0))
  {
    BackOffIsSmall(env, s.(time := s.time + 2), incSize);
  }

  lemma {:induction false} WaitIsBounded(env: Environment, s: State, incSize: int, target: int, currSize: int,
                                         iter: nat, left: nat)
    requires iter + left == POLLS
    ensures SentUps(s.requests, WaitForGrowth(env, s, incSize, target, currSize, iter).requests, incSize,
                    Budget(left, Max(incSize, 0)))
    decreases left
  {
    if currSize != target && left > 0 && env.status(s.time) != Succeeded {
      var most, polled := Max(incSize, 0), Polled(env, s, incSize);
      var size := WorkersListed(env, polled.time - 1);
      OnePollIsSmall(env, s, incSize);
      WaitIsBounded(env, polled, incSize, target, size, iter + 1, left - 1);
      SentMoreUps(s.requests, polled.requests, WaitForGrowth(env, polled, incSize, target, size, iter + 1).requests,
                  incSize, most, Budget(left - 1, most));
    }
  }

  /** Over all error retries a call sends at most 31 times as many requests as workers are asked for, each
      for at least one and at most that many workers. */
  lemma IncreaseIsBounded(env: Environment, s: State, incSize: int)
    ensures SentUps(s.requests, Increase(env, s, incSize).requests, incSize, 31 * Max(incSize, 0))
  {
    if env.status(s.time + 1) == Succeeded {
      var size, most := WorkersListed(env, s.time), Max(incSize, 0);
      var asked := BackOffFrom(env, s.(time := s.time + 2), incSize);
      BackOffIsSmall(env, s.(time := s.time + 2), incSize);
      WaitIsBounded(env, asked, incSize, size + incSize, size, 0, POLLS);
      BudgetIsProduct(POLLS, most);
      SentMoreUps(s.requests, asked.requests, Increase(env, s, incSize).requests, incSize, most, Budget(POLLS, most));
    }
  }

  // Where n polls lead that do not find the cluster idle, and the size seen last by then.
  function AfterPolls(env: Environment, s: State, incSize: int, n: nat): State
    decreases n
  {
    if n == 0 then s else AfterPolls(env, Polled(env, s, incSize), incSize, n - 1)
  }

  function SizeSeen(env: Environment, s: State, incSize: int, currSize: int, n: nat): int
    decreases n
  {
    if n == 0 then currSize
    else
      var polled := Polled(env, s, incSize);
      SizeSeen(env, polled, incSize, WorkersListed(env, polled.time - 1), n - 1)
  }

  // After n polls the loop goes on: the size is not the one waited for, and the next poll is not idle.
  predicate StillWaits(env: Environment, s: State, incSize: int, target: int, currSize: int, n: nat) {
    SizeSeen(env, s, incSize, currSize, n) != target && env.status(AfterPolls(env, s, incSize, n).time) != Succeeded
  }

  /** The waiting loop ends at the first moment at which the size last listed is the one it waits for, or the
      cluster is idle, or it has polled 30 times. */
  lemma {:induction false} GrowthIsAwaited(env: Environment, s: State, incSize: int, target: int, currSize: int,
                                           iter: nat) returns (n: nat)
    requires iter <= POLLS
    ensures n <= POLLS - iter && forall k: nat :: k < n ==> StillWaits(env, s, incSize, target, currSize, k)
    ensures var last, end := AfterPolls(env, s, incSize, n), WaitForGrowth(env, s, incSize, target, currSize, iter);
      if SizeSeen(env, s, incSize, currSize, n) == target || n == POLLS - iter then end == last
      else env.status(last.time) == Succeeded && end == last.(time := last.time + 1)
    decreases POLLS - iter
  {
    n := 0;
    if currSize != target && iter < POLLS && env.status(s.time) != Succeeded {
      var polled := Polled(env, s, incSize);
      var size := WorkersListed(env, polled.time - 1);
      var later := GrowthIsAwaited(env, polled, incSize, target, size, iter + 1);
      n := later + 1;
      forall k: nat | k < n ensures StillWaits(env, s, incSize, target, currSize, k) {
        if k > 0 {
          assert StillWaits(env, polled, incSize, target, size, k - 1);
        }
      }
    }
  }

  /** One poll, as the status trace and the source have it: it begins at `a`, the cluster is not idle, and by `b`
      an error has been looked for, answered by a back-off exactly if it is there, and the nodes have been listed. */
  ghost predicate IsPoll(env: Environment, a: State, b: State, incSize: int) {
    && env.status(a.time) != Succeeded
    && (env.status(a.time + 1) == Errored ==>
          var asked := BackOffFrom(env, a.(time := a.time + 2), incSize);
          b == asked.(time := asked.time + 1))
    && (env.status(a.time + 1) != Errored ==> b == a.(time := a.time + 3))
  }

  // State k is followed by a poll, and the listing at its end does not show the target if another poll follows.
  ghost predicate PollAt(env: Environment, at: seq<State>, k: nat, incSize: int, target: int)
    requires k + 1 < |at|
  {
    && IsPoll(env, at[k], at[k + 1], incSize)
    && (k + 2 < |at| ==> at[k + 1].time > 0 && |WorkerNames(env.listing(at[k + 1].time - 1))| != target)
  }

  // The states between polls.
  ghost predicate ArePolls(env: Environment, at: seq<State>, incSize: int, target: int) {
    forall k: nat :: k + 1 < |at| ==> PollAt(env, at, k, incSize, target)
  }

  // The waiting is over: the last listing shows the target, or 30 polls are made, or the cluster is idle.
  ghost predicate WaitIsOver(env: Environment, last: State, r: State, target: int, currSize: int, polls: nat) {
    if currSize == target || polls == 30 then r == last
    else env.status(last.time) == Succeeded && r == last.(time := last.time + 1)
  }

  lemma {:induction false} WaitTrace(env: Environment, s: State, incSize: int, target: int, currSize: int, iter: nat)
    returns (at: seq<State>)
    requires iter <= 30
    ensures 1 <= |at| <= 31 - iter && at[0] == s && ArePolls(env, at, incSize, target)
    ensures currSize == target ==> |at| == 1
    ensures |at| > 1 ==> at[|at| - 1].time > 0
    ensures WaitIsOver(env, at[|at| - 1], WaitForGrowth(env, s, incSize, target, currSize, iter), target,
                       if |at| == 1 then currSize else WorkersListed(env, at[|at| - 1].time - 1), iter + |at| - 1)
    decreases 30 - iter
  {
    hide Polled, IsPoll, ArePolls, BackOffFrom;
    at := [s];
    if currSize != target && iter < 30 && env.status(s.time) != Succeeded {
      var polled := Polled(env, s, incSize);
      var size := WorkersListed(env, polled.time - 1);
      var later := WaitTrace(env, polled, incSize, target, size, iter + 1);
      PolledIsPoll(env, s, incSize);
      OneMorePoll(env, s, later, incSize, target);
      at := [s] + later;
    } else {
      NoPolls(env, s, incSize, target);
    }
  }

  lemma NoPolls(env: Environment, s: State, incSize: int, target: int)
    ensures ArePolls(env, [s], incSize, target)
  {
  }

  lemma OneMorePoll(env: Environment, s: State, later: seq<State>, incSize: int, target: int)
    requires later != [] && IsPoll(env, s, later[0], incSize) && ArePolls(env, later, incSize, target)
    requires later[0].time > 0 && (|later| > 1 ==> WorkersListed(env, later[0].time - 1) != target)
    ensures ArePolls(env, [s] + later, incSize, target)
  {
    hide IsPoll;
    var at := [s] + later;
    forall k: nat | k + 1 < |at| ensures PollAt(env, at, k, incSize, target) {
      if k > 0 {
        assert PollAt(env, later, k - 1, incSize, target);
        assert at[k] == later[k - 1] && at[k + 1] == later[k] && (k + 2 < |at| ==> at[k + 2] == later[k + 1]);
      }
    }
  }

  lemma PolledIsPoll(env: Environment, s: State, incSize: int)
    requires env.status(s.time) != Succeeded
    ensures IsPoll(env, s, Polled(env, s, incSize), incSize)
  {
  }

  /** The whole call, from the status trace: nothing is asked of a cluster that is not idle; otherwise there is one
      back-off, then polls, each of which asks again exactly if it reads an error, until the listing shows the
      growth asked for, the cluster is idle, or 30 polls are made. */
  lemma IncreaseTrace(env: Environment, s: State, incSize: int) returns (at: seq<State>)
    ensures env.status(s.time + 1) != Succeeded ==> Increase(env, s, incSize) == s.(time := s.time + 3)
    ensures env.status(s.time + 1) == Succeeded ==>
      var size := |WorkerNames(env.listing(s.time))|;
      && 1 <= |at| <= 31 && at[0] == BackOffFrom(env, s.(time := s.time + 2), incSize)
      && ArePolls(env, at, incSize, size + incSize) && (incSize == 0 ==> |at| == 1)
      && (|at| > 1 ==> at[|at| - 1].time > 0)
      && WaitIsOver(env, at[|at| - 1], Increase(env, s, incSize), size + incSize,
                    if |at| == 1 then size else |WorkerNames(env.listing(at[|at| - 1].time - 1))|, |at| - 1)
  {
    hide BackOffFrom, WaitForGrowth, ArePolls, WaitIsOver;
    var size := WorkersListed(env, s.time);
    at := WaitTrace(env, BackOffFrom(env, s.(time := s.time + 2), incSize), incSize, size + incSize, size, 0);
  }

  // No error is read at any time of the call.
  ghost predicate NoError(env: Environment, from: nat, to: nat) {
    forall t: nat :: from <= t < to ==> env.status(t) != Errored
  }

  lemma {:induction false} QuietPolls(env: Environment, at: seq<State>, incSize: int, target: int, k: nat)
    requires k < |at| && ArePolls(env, at, incSize, target)
    requires forall j :: 0 <= j < k ==> env.status(at[j].time + 1) != Errored
    ensures at[k] == at[0].(time := at[0].time + 3 * k)
  {
    if k > 0 {
      QuietPolls(env, at, incSize, target, k - 1);
      assert PollAt(env, at, k - 1, incSize, target);
    }
  }

  lemma {:induction false} PollsTakeTime(env: Environment, at: seq<State>, incSize: int, target: int, j: nat, k: nat)
    requires j <= k < |at| && ArePolls(env, at, incSize, target)
    ensures at[j].time + 3 * (k - j) <= at[k].time
    decreases k - j
  {
    if j < k {
      PollsTakeTime(env, at, incSize, target, j, k - 1);
      assert PollAt(env, at, k - 1, incSize, target);
    }
  }

  /** If no status read during the call is an error, it asks in one back-off and no more. */
  lemma OneBackOffUnlessError(env: Environment, s: State, incSize: int)
    requires env.status(s.time + 1) == Succeeded && NoError(env, s.time, Increase(env, s, incSize).time)
    ensures var r, asked := Increase(env, s, incSize), BackOffFrom(env, s.(time := s.time + 2), incSize);
      r == asked.(time := r.time)
  {
    hide BackOffFrom, Increase;
    var at := IncreaseTrace(env, s, incSize);
    var target := WorkersListed(env, s.time) + incSize;
    forall j | 0 <= j < |at| - 1 ensures env.status(at[j].time + 1) != Errored {
      PollsTakeTime(env, at, incSize, target, 0, j);
      PollsTakeTime(env, at, incSize, target, j, |at| - 1);
      BackOffTakesTime(env, s.(time := s.time + 2), incSize);
    }
    QuietPolls(env, at, incSize, target, |at| - 1);
  }

  lemma BackOffTakesTime(env: Environment, s: State, i: int)
    ensures BackOffFrom(env, s, i).time >= s.time
  {
  }

  // One poll of the waiting loop.
  method PollScaleUp(c: Client, incSize: int, currSize: int) returns (succeeded: bool, size: int)
    modifies c
    ensures succeeded == (c.env.status(old(c.clock)) == Succeeded)
    ensures succeeded ==> c.Now() == old(c.Now()).(time := old(c.clock) + 1) && size == currSize
    ensures !succeeded ==> c.Now() == Polled(c.env, old(c.Now()), incSize)
    ensures !succeeded ==> c.clock > 0 && size == WorkersListed(c.env, c.clock - 1)
  {
    hide BackOffFrom;
    size := currSize;
    succeeded := c.CheckStatusCluster();
    if succeeded {
      return;
    }
    var isErrorStatus := c.CheckErrorStatusCluster();
    if isErrorStatus {
      BackOff(c, incSize);
    }
    var currReadyNodes := c.ListNodes();
    var workerNames;
    size, workerNames := WorkerNodeCount(currReadyNodes);
  }

  method WaitForScaleUp(c: Client, incSize: int, prevSize: int)
    modifies c
    ensures c.Now() == WaitForGrowth(c.env, old(c.Now()), incSize, prevSize + incSize, prevSize, 0)
  {
    hide Polled;
    var iter, currSize := 0, prevSize;
    ghost var all := WaitForGrowth(c.env, c.Now(), incSize, prevSize + incSize, prevSize, 0);
    while currSize != prevSize + incSize && iter < POLLS
      invariant 0 <= iter <= POLLS
      invariant WaitForGrowth(c.env, c.Now(), incSize, prevSize + incSize, currSize, iter) == all
      decreases POLLS - iter
    {
      var succeeded, size := PollScaleUp(c, incSize, currSize);
      if succeeded {
        break;
      }
      currSize := size;
      iter := iter + 1;
    }
  }

  method RequestWorkers(c: Client, incSize: int, prevSize: int)
    modifies c
    ensures c.Now() == AskAndWait(c.env, old(c.Now()), incSize, prevSize)
  {
    BackOff(c, incSize);
    WaitForScaleUp(c, incSize, prevSize);
  }

  /** Asks for `incSize` workers and waits; does nothing if the cluster is not idle. */
  method IncreaseSize(c: Client, incSize: int)
    modifies c
    ensures c.Now() == Increase(c.env, old(c.Now()), incSize)
  {
    hide AskAndWait;
    var currReadyNodes := c.ListNodes();
    var prevSize, workerNames := WorkerNodeCount(currReadyNodes);
    var idle := c.CheckStatusCluster();
    if !idle {
      var stillBusy := c.CheckStatusCluster();
      return;
    }
    RequestWorkers(c, incSize, prevSize);
  }

  // ---------------------------------------------------------------- what a scale-up does to the workers

  // From one state to another, workers have only come, one set after the other.
  ghost predicate Grows(s: State, r: State) {
    && s.time <= r.time && s.workers <= r.workers
    && s.points <= r.points && Between(r.points, |s.points|, s.workers, r.workers)
    && Reaches(r.points, |s.points|, s.workers, r.workers)
  }

  lemma GrowsInARow(a: State, b: State, c: State)
    requires Grows(a, b) && Grows(b, c)
    ensures Grows(a, c)
  {
    assert forall i :: 0 <= i < |b.points| ==> c.points[i] == b.points[i];
  }

  lemma AskUpGrows(env: Environment, s: State, i: int)
    ensures Grows(s, AskUp(env, s, i))
  {
    if env.reply(s.time, i).Taken? {
      assert AskUp(env, s, i).points[|s.points|] == AskUp(env, s, i).workers;
    }
  }

  lemma {:induction false} BackOffGrows(env: Environment, s: State, i: int)
    ensures Grows(s, BackOffFrom(env, s, i))
    decreases i
  {
    if i > 0 {
      AskUpGrows(env, s, i);
      if env.reply(s.time, i).QuotaReached? {
        BackOffGrows(env, AskUp(env, s, i), i - 1);
        GrowsInARow(s, AskUp(env, s, i), BackOffFrom(env, AskUp(env, s, i), i - 1));
      }
    }
  }

  lemma PollGrows(env: Environment, s: State, incSize: int)
    ensures Grows(s, Polled(env, s, incSize))
  {
    BackOffGrows(env, s.(time := s.time + 2), incSize);
  }

  lemma {:induction false} WaitGrows(env: Environment, s: State, incSize: int, target: int, currSize: int, iter: nat)
    requires iter <= POLLS
    ensures Grows(s, WaitForGrowth(env, s, incSize, target, currSize, iter))
    decreases POLLS - iter
  {
    if currSize != target && iter < POLLS && env.status(s.time) != Succeeded {
      var polled := Polled(env, s, incSize);
      var size := WorkersListed(env, polled.time - 1);
      PollGrows(env, s, incSize);
      WaitGrows(env, polled, incSize, target, size, iter + 1);
      GrowsInARow(s, polled, WaitForGrowth(env, polled, incSize, target, size, iter + 1));
    }
  }

  lemma IncreaseGrows(env: Environment, s: State, incSize: int)
    ensures Grows(s, Increase(env, s, incSize))
    ensures env.status(s.time + 1) != Succeeded ==> Increase(env, s, incSize).workers == s.workers
  {
    if env.status(s.time + 1) == Succeeded {
      var looked, size := s.(time := s.time + 2), WorkersListed(env, s.time);
      BackOffGrows(env, looked, incSize);
      WaitGrows(env, BackOffFrom(env, looked, incSize), incSize, size + incSize, size, 0);
      GrowsInARow(looked, BackOffFrom(env, looked, incSize), AskAndWait(env, looked, incSize, size));
    }
  }

  // Every worker that has come was granted to a request between the two states, for at most so many.
  ghost predicate OnlyGranted(env: Environment, s: State, r: State, most: int) {
    forall name :: name in r.workers && name !in s.workers ==> WasGranted(env, s.time, r.time, most, name)
  }

  ghost predicate WasGranted(env: Environment, from: nat, to: nat, most: int, name: string) {
    exists t: nat, i: int :: from <= t < to && 1 <= i <= most && name in Granted(env, t, i)
  }

  lemma GrantedInARow(env: Environment, a: State, b: State, c: State, most: int, less: int)
    requires a.time <= b.time <= c.time && less <= most
    requires OnlyGranted(env, a, b, most) && OnlyGranted(env, b, c, less)
    ensures OnlyGranted(env, a, c, most)
  {
    forall name | name in c.workers && name !in a.workers ensures WasGranted(env, a.time, c.time, most, name) {
      if name in b.workers {
        assert WasGranted(env, a.time, b.time, most, name);
        var t: nat, i: int :| a.time <= t < b.time && 1 <= i <= most && name in Granted(env, t, i);
      } else {
        assert WasGranted(env, b.time, c.time, less, name);
        var t: nat, i: int :| b.time <= t < c.time && 1 <= i <= less && name in Granted(env, t, i);
      }
    }
  }

  lemma {:induction false} BackOffOnlyGranted(env: Environment, s: State, i: int)
    ensures OnlyGranted(env, s, BackOffFrom(env, s, i), i)
    decreases i
  {
    if i > 0 {
      var asked := AskUp(env, s, i);
      assert OnlyGranted(env, s, asked, i);
      if env.reply(s.time, i).QuotaReached? {
        BackOffOnlyGranted(env, asked, i - 1);
        GrantedInARow(env, s, asked, BackOffFrom(env, asked, i - 1), i, i - 1);
      }
    }
  }

  lemma PollOnlyGranted(env: Environment, s: State, incSize: int)
    ensures OnlyGranted(env, s, Polled(env, s, incSize), incSize)
  {
    var checked, polled := s.(time := s.time + 2), Polled(env, s, incSize);
    BackOffOnlyGranted(env, checked, incSize);
    var asked := polled.(time := polled.time - 1);
    assert OnlyGranted(env, checked, asked, incSize);
    GrantedInARow(env, s, checked, asked, incSize, incSize);
    GrantedInARow(env, s, asked, polled, incSize, incSize);
  }

  lemma {:induction false} WaitOnlyGranted(env: Environment, s: State, incSize: int, target: int, currSize: int,
                                           iter: nat)
    requires iter <= POLLS
    ensures OnlyGranted(env, s, WaitForGrowth(env, s, incSize, target, currSize, iter), incSize)
    decreases POLLS - iter
  {
    if currSize != target && iter < POLLS && env.status(s.time) != Succeeded {
      var polled := Polled(env, s, incSize);
      var size := WorkersListed(env, polled.time - 1);
      var end := WaitForGrowth(env, polled, incSize, target, size, iter + 1);
      PollOnlyGranted(env, s, incSize);
      WaitOnlyGranted(env, polled, incSize, target, size, iter + 1);
      WaitGrows(env, polled, incSize, target, size, iter + 1);
      GrantedInARow(env, s, polled, end, incSize, incSize);
    }
  }

  /** Whatever is read while waiting, and however often the request is repeated: only what a request of this
      call was granted has come. */
  lemma IncreaseOnlyGranted(env: Environment, s: State, incSize: int)
    ensures OnlyGranted(env, s, Increase(env, s, incSize), incSize)
  {
    if env.status(s.time + 1) == Succeeded {
      var looked, size := s.(time := s.time + 2), WorkersListed(env, s.time);
      var asked := BackOffFrom(env, looked, incSize);
      BackOffOnlyGranted(env, looked, incSize);
      WaitOnlyGranted(env, asked, incSize, size + incSize, size, 0);
      WaitGrows(env, asked, incSize, size + incSize, size, 0);
      GrantedInARow(env, looked, asked, AskAndWait(env, looked, incSize, size), incSize, incSize);
      GrantedInARow(env, s, looked, Increase(env, s, incSize), incSize, incSize);
    }
  }

  // The call begins in an idle cluster, its first request is granted in full, and no later one brings more.
  ghost predicate Delivers(env: Environment, s: State, incSize: int) {
    var first := Granted(env, s.time + 2, incSize);
    && incSize > 0 && env.status(s.time + 1) == Succeeded && env.reply(s.time + 2, incSize).Taken?
    && |first| == incSize && first !! s.workers
    && forall t: nat, i: int :: s.time + 2 < t < Increase(env, s, incSize).time && 1 <= i <= incSize ==>
         Granted(env, t, i) <= s.workers + first
  }

  /** Then the cluster grows by exactly what was asked for, error readings and retries or not. */
  lemma DeliveredInFull(env: Environment, s: State, incSize: int)
    requires Delivers(env, s, incSize)
    ensures Increase(env, s, incSize).workers == s.workers + Granted(env, s.time + 2, incSize)
    ensures |Increase(env, s, incSize).workers - s.workers| == incSize
  {
    hide WaitForGrowth;
    var first, looked, size := Granted(env, s.time + 2, incSize), s.(time := s.time + 2), WorkersListed(env, s.time);
    var asked, end := BackOffFrom(env, looked, incSize), Increase(env, s, incSize);
    assert asked == AskUp(env, looked, incSize);
    WaitGrows(env, asked, incSize, size + incSize, size, 0);
    WaitOnlyGranted(env, asked, incSize, size + incSize, size, 0);
    assert end.workers <= s.workers + first;
    assert end.workers - s.workers == first;
  }

  // ---------------------------------------------------------------- blocking scale-down, for any environment

  const REMOVAL_POLLS := 6

  // The time at which the waiting loop ends, and the size it has seen last.
  function WaitForRemoval(env: Environment, t: nat, target: int, currSize: int, iter: nat): (nat, int)
    decreases REMOVAL_POLLS - iter, t
  {
    if currSize == target || iter >= REMOVAL_POLLS then (t, currSize)
    else WaitForRemoval(env, t + 1, target, WorkersListed(env, t), iter + 1)
  }

  // A request and the wait after it.
  ghost function RemoveAndWait(env: Environment, s: State, names: seq<string>, target: int, currSize: int): (State, int)
  {
    var (time, size) := WaitForRemoval(env, s.time + 1, target, currSize, 0);
    (AskDown(s, names).(time := time), size)
  }

  // The same, and once more if that ends in error.
  ghost function RemoveAndRetry(env: Environment, s: State, names: seq<string>, target: int, currSize: int): State {
    var (once, left) := RemoveAndWait(env, s, names, target, currSize);
    if env.status(once.time) != Errored then once.(time := once.time + 1)
    else RemoveAndWait(env, once.(time := once.time + 1), names, target, left).0
  }

  ghost function Delete(env: Environment, s: State, nodes: seq<Node>): State {
    var names, size := WorkerNames(nodes), WorkersListed(env, s.time);
    if env.status(s.time + 1) != Succeeded then s.(time := s.time + 3)
    else RemoveAndRetry(env, s.(time := s.time + 2), names, size - |names|, size)
  }

  // The loop ends on the size it waits for, or else after having looked as often as it may.
  lemma {:induction false} RemovalIsAwaited(env: Environment, t: nat, target: int, currSize: int, iter: nat)
    requires iter <= REMOVAL_POLLS
    ensures var (time, size) := WaitForRemoval(env, t, target, currSize, iter);
      && t <= time <= t + (REMOVAL_POLLS - iter)
      && (size == target || time == t + (REMOVAL_POLLS - iter))
      && size == (if time == t then currSize else WorkersListed(env, time - 1))
      && forall k :: t <= k < time - 1 ==> WorkersListed(env, k) != target
    decreases REMOVAL_POLLS - iter
  {
    if currSize != target && iter < REMOVAL_POLLS {
      RemovalIsAwaited(env, t + 1, target, WorkersListed(env, t), iter + 1);
    }
  }

  lemma RemovesOnce(env: Environment, s: State, names: seq<string>, target: int, currSize: int)
    ensures var r := RemoveAndWait(env, s, names, target, currSize).0;
      r == AskDown(s, names).(time := r.time) && s.time < r.time <= s.time + 7
  {
    RemovalIsAwaited(env, s.time + 1, target, currSize, 0);
  }

  lemma RetriesOnce(env: Environment, s: State, names: seq<string>, target: int, currSize: int)
    ensures var r, x := RemoveAndRetry(env, s, names, target, currSize), ScaleDown(names);
      && s.time < r.time <= s.time + 15 && r.workers == s.workers - Elements(names)
      && s.points <= r.points && SettlesOn(r.points, |s.points|, r.workers)
      && (r.requests == s.requests + [x] || r.requests == s.requests + [x, x])
      && (r.requests == s.requests + [x, x] ==> exists t :: s.time < t < r.time && env.status(t) == Errored)
  {
    var (once, left) := RemoveAndWait(env, s, names, target, currSize);
    RemovesOnce(env, s, names, target, currSize);
    if env.status(once.time) == Errored {
      RemovesOnce(env, once.(time := once.time + 1), names, target, left);
    }
  }

  // From a listing at `from` on, at most six listings are made until one shows the size that is waited for.
  ghost predicate WaitsForSize(env: Environment, from: nat, to: nat, target: int, currSize: int) {
    && from <= to <= from + 6
    && (currSize == target <==> to == from)
    && (forall k :: from <= k < to - 1 ==> |WorkerNames(env.listing(k))| != target)
    && (to > from ==> |WorkerNames(env.listing(to - 1))| == target || to == from + 6)
  }

  /** The whole call, from the listings and the status trace: nothing is asked of a cluster that is not idle;
      otherwise the removal is asked for once, the listings are awaited, and it is asked for once more exactly if
      an error is read then. */
  lemma DeleteTrace(env: Environment, s: State, nodes: seq<Node>) returns (checked: nat)
    ensures env.status(s.time + 1) != Succeeded ==> Delete(env, s, nodes) == s.(time := s.time + 3)
    ensures env.status(s.time + 1) == Succeeded ==>
      var r, x, size := Delete(env, s, nodes), ScaleDown(WorkerNames(nodes)), |WorkerNames(env.listing(s.time))|;
      var target := size - |WorkerNames(nodes)|;
      && WaitsForSize(env, s.time + 3, checked, target, size)
      && r.requests == s.requests + (if env.status(checked) == Errored then [x, x] else [x])
      && (env.status(checked) != Errored ==> r.time == checked + 1)
      && (env.status(checked) == Errored ==>
            WaitsForSize(env, checked + 2, r.time, target,
                         if checked == s.time + 3 then size else |WorkerNames(env.listing(checked - 1))|))
  {
    hide WaitForRemoval;
    var names, size := WorkerNames(nodes), WorkersListed(env, s.time);
    var target := size - |names|;
    checked := 0;
    if env.status(s.time + 1) == Succeeded {
      checked := RetryTrace(env, s.(time := s.time + 2), names, target, size);
    }
  }

  lemma RetryTrace(env: Environment, s: State, names: seq<string>, target: int, currSize: int) returns (checked: nat)
    ensures var r, x := RemoveAndRetry(env, s, names, target, currSize), ScaleDown(names);
      && WaitsForSize(env, s.time + 1, checked, target, currSize)
      && r.requests == s.requests + (if env.status(checked) == Errored then [x, x] else [x])
      && (env.status(checked) != Errored ==> r.time == checked + 1)
      && (env.status(checked) == Errored ==>
            WaitsForSize(env, checked + 2, r.time, target,
                         if checked == s.time + 1 then currSize else WorkersListed(env, checked - 1)))
  {
    hide WaitForRemoval;
    var (once, left) := RemoveAndWait(env, s, names, target, currSize);
    checked := once.time;
    WaitIsForSize(env, s.time + 1, target, currSize);
    if env.status(checked) == Errored {
      WaitIsForSize(env, checked + 2, target, left);
    }
  }

  lemma WaitIsForSize(env: Environment, t: nat, target: int, currSize: int)
    ensures var (time, size) := WaitForRemoval(env, t, target, currSize, 0);
      && WaitsForSize(env, t, time, target, currSize)
      && size == if time == t then currSize else WorkersListed(env, time - 1)
  {
    RemovalIsAwaited(env, t, target, currSize, 0);
    assert forall k: nat :: |WorkerNames(env.listing(k))| == WorkersListed(env, k);
  }

  /** A call asks at most twice for the removal of exactly the workers among the nodes, the second time
      only after an error was read; and it returns after at most 17 questions to the outside. */
  lemma DeleteIsBounded(env: Environment, s: State, nodes: seq<Node>)
    ensures var r, n := Delete(env, s, nodes), |s.requests|;
      && s.requests <= r.requests && |r.requests| <= n + 2 && s.time < r.time <= s.time + 17
      && (forall i :: n <= i < |r.requests| ==> r.requests[i] == ScaleDown(WorkerNames(nodes)))
      && (|r.requests| > n ==> env.status(s.time + 1) == Succeeded)
      && (|r.requests| > n + 1 ==> exists t :: s.time + 2 < t < r.time && env.status(t) == Errored)
  {
    var names, size := WorkerNames(nodes), WorkersListed(env, s.time);
    RetriesOnce(env, s.(time := s.time + 2), names, size - |names|, size);
  }

  // The lists of names that were handed to scale-down, in order.
  function Downs(requests: seq<Request>): seq<seq<string>> {
    if requests == [] then []
    else
      var last := requests[|requests| - 1];
      Downs(requests[..|requests| - 1]) + if last.ScaleDown? then [last.names] else []
  }

  lemma OneMoreRequest(requests: seq<Request>, r: Request)
    ensures Downs(requests + [r]) == Downs(requests) + if r.ScaleDown? then [r.names] else []
  {
    assert (requests + [r])[..|requests|] == requests;
  }

  // Scale-ups hand over no names.
  lemma {:induction false} UpsAreNoDowns(before: seq<Request>, now: seq<Request>, most: int, number: int)
    requires SentUps(before, now, most, number)
    ensures Downs(now) == Downs(before)
    decreases |now|
  {
    if |now| > |before| {
      var front := now[..|now| - 1];
      UpsAreNoDowns(before, front, most, number);
      OneMoreRequest(front, now[|now| - 1]);
      assert now == front + [now[|now| - 1]];
    } else {
      assert now == before;
    }
  }

  lemma IncreaseHasNoDowns(env: Environment, s: State, incSize: int)
    ensures Downs(Increase(env, s, incSize).requests) == Downs(s.requests)
  {
    IncreaseIsBounded(env, s, incSize);
    UpsAreNoDowns(s.requests, Increase(env, s, incSize).requests, incSize, 31 * Max(incSize, 0));
  }

  // How often a call asks for the removal.
  ghost function Removing(env: Environment, s: State, nodes: seq<Node>): (removals: nat)
    ensures removals > 0 <==> env.status(s.time + 1) == Succeeded
  {
    DeleteIsBounded(env, s, nodes);
    |Delete(env, s, nodes).requests| - |s.requests|
  }

  lemma {:induction false} EqualDowns(before: seq<Request>, now: seq<Request>, names: seq<string>)
    requires before <= now && forall i :: |before| <= i < |now| ==> now[i] == ScaleDown(names)
    ensures Downs(now) == Downs(before) + Copies(|now| - |before|, names)
    decreases |now|
  {
    if |now| > |before| {
      var front := now[..|now| - 1];
      EqualDowns(before, front, names);
      OneMoreRequest(front, ScaleDown(names));
      assert now == front + [ScaleDown(names)];
      var copies := Copies(|front| - |before|, names);
      assert (Downs(before) + copies) + [names] == Downs(before) + (copies + [names]);
    } else {
      assert now == before;
    }
  }

  // The workers among the nodes are handed over as often as their removal is asked for, and nothing else is.
  lemma DeleteHandsOver(env: Environment, s: State, nodes: seq<Node>)
    ensures Downs(Delete(env, s, nodes).requests)
         == Downs(s.requests) + Copies(Removing(env, s, nodes), WorkerNames(nodes))
  {
    DeleteIsBounded(env, s, nodes);
    EqualDowns(s.requests, Delete(env, s, nodes).requests, WorkerNames(nodes));
  }

  /** A call removes exactly the workers among the nodes if the cluster is idle when it begins, and nobody
      otherwise; the caller is not told. */
  lemma DeleteEffect(env: Environment, s: State, nodes: seq<Node>)
    ensures var r := Delete(env, s, nodes);
      && r.workers == s.workers - (if env.status(s.time + 1) == Succeeded then Names(nodes) else {})
      && s.points <= r.points && SettlesOn(r.points, |s.points|, r.workers)
  {
    var names, size := WorkerNames(nodes), WorkersListed(env, s.time);
    RetriesOnce(env, s.(time := s.time + 2), names, size - |names|, size);
  }

  method WaitUntilDeleted(c: Client, prevSize: int, decSize: int, currSize: int) returns (size: int)
    modifies c`clock
    ensures (c.clock, size) == WaitForRemoval(c.env, old(c.clock), prevSize - decSize, currSize, 0)
  {
    var iter := 0;
    size := currSize;
    while size != prevSize - decSize && iter < REMOVAL_POLLS
      invariant WaitForRemoval(c.env, c.clock, prevSize - decSize, size, iter)
             == WaitForRemoval(c.env, old(c.clock), prevSize - decSize, currSize, 0)
      decreases REMOVAL_POLLS - iter
    {
      var currReadyNodes := c.ListNodes();
      var workerNames;
      size, workerNames := WorkerNodeCount(currReadyNodes);
      iter := iter + 1;
    }
  }

  method RequestRemoval(c: Client, names: seq<string>, prevSize: int, decSize: int, currSize: int) returns (size: int)
    modifies c
    ensures (c.Now(), size) == RemoveAndWait(c.env, old(c.Now()), names, prevSize - decSize, currSize)
  {
    c.PerformScaleDown(names);
    size := WaitUntilDeleted(c, prevSize, decSize, currSize);
  }

  method RemoveWithRetry(c: Client, names: seq<string>, prevSize: int, decSize: int, currSize: int)
    modifies c
    ensures c.Now() == RemoveAndRetry(c.env, old(c.Now()), names, prevSize - decSize, currSize)
  {
    var size := RequestRemoval(c, names, prevSize, decSize, currSize);
    var isErrorStatus := c.CheckErrorStatusCluster();
    if isErrorStatus {
      size := RequestRemoval(c, names, prevSize, decSize, size);
    }
  }

  /** Asks once for the workers among `nodes` to be removed, and once more if that ends in error; does
      nothing if the cluster is not idle. */
  method DeleteNodes(c: Client, nodes: seq<Node>)
    modifies c
    ensures c.Now() == Delete(c.env, old(c.Now()), nodes)
  {
    hide RemoveAndRetry;
    var decSize, workerNameToRemoveList := WorkerNodeCount(nodes);
    var currReadyNodes := c.ListNodes();
    var size, workerNames := WorkerNodeCount(currReadyNodes);
    var prevSize, currSize := size, size;
    var idle := c.CheckStatusCluster();
    if !idle {
      var stillBusy := c.CheckStatusCluster();
      return;
    }
    RemoveWithRetry(c, workerNameToRemoveList, prevSize, decSize, currSize);
  }

  // ---------------------------------------------------------------- where a retry creates too many

  // A cluster of at most three workers, of which there is one, that reports an error once, at time 3, and
  // grants each request in part or in full: one worker at time 2, two later.
  function Retrying(worker: string): Environment {
    STILL.(listing := _ => [Bare(worker)], maxSize := _ => 3,
           status := t => if t == 3 || t == 4 then Errored else Succeeded,
           reply := (t, i) => Taken(if t == 2 then {worker + "2"} else {worker + "3", worker + "4"}))
  }

  /** A request for two that is granted one and then meets an error: the retry asks for two again, gets them,
      and there are four workers where three are allowed. */
  lemma RetryAddsToPartialGrant(worker: string)
    requires IsWorker(worker)
    ensures var r := Increase(Retrying(worker), State([], 0, {worker}, []), 2);
      && r.requests == [ScaleUp(2), ScaleUp(2)]
      && r.workers == {worker, worker + "2", worker + "3", worker + "4"} && |r.workers| == 4
  {
    var env, looked := Retrying(worker), State([], 2, {worker}, []);
    var asked := AskUp(env, looked, 2);
    OneName(worker);
    assert BackOffFrom(env, looked, 2) == asked;
    var polled := AskUp(env, asked.(time := 5), 2).(time := 7);
    assert BackOffFrom(env, asked.(time := 5), 2).(time := 7) == polled;
    assert Polled(env, asked, 2) == polled;
    var end := polled.(time := 8);
    assert WaitForGrowth(env, polled, 2, 3, 1, 1) == end;
    assert WaitForGrowth(env, asked, 2, 3, 1, 0) == end;
    assert (worker + "2")[|worker|] == '2' && (worker + "3")[|worker|] == '3' && (worker + "4")[|worker|] == '4';
  }
}
