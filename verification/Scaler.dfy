/**
  Scaling through the portal (scaler/ScaleUp.go and scaler/ScaleDown.go): send a request, poll the
  cluster's status, send the request once more if the cluster reports an error, and keep polling.
  The source polls without a bound; `polls` is how many of its polls are observed.
 */
module Scaler {
  import opened Wrappers
  import opened Portal

  datatype ScaleResult = NotNeeded | Finished | StillWaiting | Crashed

  // ---------------------------------------------------------------- polling, as a function of the status trace

  // The time of the success check that ended the polling, if it has ended.
  type End = Option<nat>

  datatype Polling = Polling(retry: Option<nat>, end: End)

  // After a retry only success checks are made.
  function AwaitSucceeded(env: Environment, t: nat, polls: nat): End
    decreases polls
  {
    if polls == 0 then None
    else if env.status(t) == Succeeded then Some(t)
    else AwaitSucceeded(env, t + 1, polls - 1)
  }

  // A poll is a success check and, failing that, an error check; an error makes it retry.
  function PollStatus(env: Environment, t: nat, polls: nat): Polling
    decreases polls
  {
    if polls == 0 then Polling(None, None)
    else if env.status(t) == Succeeded then Polling(None, Some(t))
    else if env.status(t + 1) == Errored then Polling(Some(t + 2), AwaitSucceeded(env, t + 3, polls - 1))
    else PollStatus(env, t + 2, polls - 1)
  }

  // Poll m is the first that reads success or an error.
  ghost predicate Decisive(env: Environment, t: nat, m: nat) {
    && (env.status(t + 2 * m) == Succeeded || env.status(t + 2 * m + 1) == Errored)
    && forall i: nat :: i < m ==> env.status(t + 2 * i) != Succeeded && env.status(t + 2 * i + 1) != Errored
  }

  // Poll m is decisive and leads to success: at once, or at some time after the retry.
  ghost predicate SucceedsAt(env: Environment, t: nat, m: nat) {
    && Decisive(env, t, m)
    && (env.status(t + 2 * m) == Succeeded || exists k: nat :: k >= t + 2 * m + 3 && env.status(k) == Succeeded)
  }

  /** A retry follows an error reading, and since the request no check read success; polling ends only on
      a success reading. */
  lemma {:induction false} PollingIsGuarded(env: Environment, t: nat, polls: nat) returns (m: nat)
    ensures var p := PollStatus(env, t, polls);
      && (p.retry.Some? ==> Decisive(env, t, m) && p.retry.value == t + 2 * m + 2
                            && env.status(t + 2 * m) != Succeeded && env.status(t + 2 * m + 1) == Errored)
      && (p.end.Some? ==> env.status(p.end.value) == Succeeded && SucceedsAt(env, t, m))
    decreases polls
  {
    m := 0;
    if polls == 0 || env.status(t) == Succeeded {
    } else if env.status(t + 1) == Errored {
      AwaitEndsOnSuccess(env, t + 3, polls - 1);
    } else {
      var later := PollingIsGuarded(env, t + 2, polls - 1);
      m := later + 1;
      DecisiveLater(env, t, later);
    }
  }

  lemma DecisiveLater(env: Environment, t: nat, m: nat)
    requires env.status(t) != Succeeded && env.status(t + 1) != Errored
    ensures Decisive(env, t + 2, m) <==> Decisive(env, t, m + 1)
    ensures SucceedsAt(env, t + 2, m) <==> SucceedsAt(env, t, m + 1)
  {
    assert forall i: nat :: t + 2 + 2 * i == t + 2 * (i + 1);
    if Decisive(env, t, m + 1) {
      forall i: nat | i < m
        ensures env.status(t + 2 + 2 * i) != Succeeded && env.status(t + 2 + 2 * i + 1) != Errored
      {
        assert env.status(t + 2 * (i + 1)) != Succeeded;
      }
    }
    if Decisive(env, t + 2, m) {
      forall i: nat | i < m + 1
        ensures env.status(t + 2 * i) != Succeeded && env.status(t + 2 * i + 1) != Errored
      {
        if i > 0 {
          assert env.status(t + 2 + 2 * (i - 1)) != Succeeded;
        }
      }
    }
  }

  lemma {:induction false} AwaitEndsOnSuccess(env: Environment, t: nat, polls: nat)
    ensures var e := AwaitSucceeded(env, t, polls);
            e.Some? ==> e.value >= t && env.status(e.value) == Succeeded
    decreases polls
  {
    if polls > 0 && env.status(t) != Succeeded {
      AwaitEndsOnSuccess(env, t + 1, polls - 1);
    }
  }

  // The check that ends the inner loop is the first that reads success.
  lemma {:induction false} AwaitIsFirst(env: Environment, t: nat, polls: nat)
    ensures var e := AwaitSucceeded(env, t, polls);
      && (e.Some? ==> t <= e.value < t + polls && env.status(e.value) == Succeeded)
      && forall k: nat :: t <= k < (if e.Some? then e.value else t + polls) ==> env.status(k) != Succeeded
    decreases polls
  {
    if polls > 0 && env.status(t) != Succeeded {
      AwaitIsFirst(env, t + 1, polls - 1);
    }
  }

  /** The polling in full, from the status trace: its first decisive poll, number m, ends it if it reads success;
      if it reads an error, the request is repeated right after, and the first success read from then on ends it;
      as long as no poll is decisive, nothing happens. */
  lemma {:induction false} PollingIs(env: Environment, t: nat, m: nat, polls: nat)
    requires m < polls && Decisive(env, t, m)
    ensures PollStatus(env, t, polls) ==
      if env.status(t + 2 * m) == Succeeded then Polling(None, Some(t + 2 * m))
      else Polling(Some(t + 2 * m + 2), AwaitSucceeded(env, t + 2 * m + 3, polls - m - 1))
    decreases m
  {
    if m > 0 {
      assert env.status(t + 2 * 0) != Succeeded && env.status(t + 2 * 0 + 1) != Errored;
      DecisiveLater(env, t, m - 1);
      PollingIs(env, t + 2, m - 1, polls - 1);
    }
  }

  lemma {:induction false} PollingGoesOn(env: Environment, t: nat, polls: nat)
    requires forall i: nat :: i < polls ==> env.status(t + 2 * i) != Succeeded && env.status(t + 2 * i + 1) != Errored
    ensures PollStatus(env, t, polls) == Polling(None, None)
    decreases polls
  {
    if polls > 0 {
      assert env.status(t + 2 * 0) != Succeeded && env.status(t + 2 * 0 + 1) != Errored;
      forall i: nat | i < polls - 1
        ensures env.status(t + 2 + 2 * i) != Succeeded && env.status(t + 2 + 2 * i + 1) != Errored
      {
        assert env.status(t + 2 * (i + 1)) != Succeeded;
      }
      PollingGoesOn(env, t + 2, polls - 1);
    }
  }

  lemma {:induction false} AwaitReaches(env: Environment, t: nat, k: nat, polls: nat)
    requires t <= k && env.status(k) == Succeeded && polls > k - t
    ensures AwaitSucceeded(env, t, polls).Some?
    decreases k - t
  {
    if env.status(t) != Succeeded {
      AwaitReaches(env, t + 1, k, polls - 1);
    }
  }

  lemma {:induction false} SuccessIsReached(env: Environment, t: nat, m: nat) returns (polls: nat)
    requires SucceedsAt(env, t, m)
    ensures PollStatus(env, t, polls).end.Some?
    decreases m
  {
    if env.status(t) == Succeeded {
      polls := 1;
    } else if m == 0 {
      var k: nat :| k >= t + 3 && env.status(k) == Succeeded;
      polls := k - (t + 3) + 2;
      AwaitReaches(env, t + 3, k, polls - 1);
    } else {
      assert env.status(t + 2 * 0 + 1) != Errored;
      DecisiveLater(env, t, m - 1);
      polls := SuccessIsReached(env, t + 2, m - 1);
      polls := polls + 1;
    }
  }

  /** A call ends if and only if its first decisive poll reads success, or reads an error and success is
      read at some time after the retry. A cluster that stays in error after the retry, or never
      leaves SCALING, keeps the call waiting for good. */
  lemma EndsIff(env: Environment, t: nat)
    ensures (exists polls: nat :: PollStatus(env, t, polls).end.Some?) <==> exists m: nat :: SucceedsAt(env, t, m)
  {
    if polls: nat :| PollStatus(env, t, polls).end.Some? {
      var m := PollingIsGuarded(env, t, polls);
      assert SucceedsAt(env, t, m);
    }
    if m: nat :| SucceedsAt(env, t, m) {
      var polls := SuccessIsReached(env, t, m);
      assert PollStatus(env, t, polls).end.Some?;
    }
  }

  /** In particular a call ends, within as many polls, whenever the cluster settles in SUCCEEDED. */
  lemma {:induction false} EndsOnceSettled(env: Environment, t: nat, settled: nat, polls: nat)
    requires forall k: nat :: k >= settled ==> env.status(k) == Succeeded
    requires polls > 0 && t + polls > settled
    ensures PollStatus(env, t, polls).end.Some?
    decreases polls
  {
    if t < settled && env.status(t) != Succeeded {
      if env.status(t + 1) == Errored {
        AwaitReaches(env, t + 3, if t + 3 < settled then settled else t + 3, polls - 1);
      } else {
        EndsOnceSettled(env, t + 2, settled, polls - 1);
      }
    }
  }

  // ---------------------------------------------------------------- may the node go?

  datatype Scan = Removable | Blocked | Panic

  // Looking at the first owner of a pod that has none is an index out of range.
  predicate Ownerless(pod: Pod, name: string) { pod.nodeName == name && |pod.owners| == 0 }

  // A pod that would be the last replica or would lose its local storage, unless a daemon set owns it.
  predicate Blocks(pod: Pod, name: string) {
    && pod.nodeName == name && |pod.owners| > 0 && pod.owners[0].kind != "DaemonSet"
    && (pod.owners[0].replicas == 1 || true in pod.volumes)
  }

  function ScanPods(pods: seq<Pod>, name: string): Scan {
    if exists pod :: pod in pods && Ownerless(pod, name) then Panic
    else if exists pod :: pod in pods && Blocks(pod, name) then Blocked
    else Removable
  }

  /** What the scan of the pods finds: an ownerless pod of the node, or else one that no daemon set owns and that
      is a last replica or has an empty directory. */
  lemma ScanIs(pods: seq<Pod>, name: string)
    ensures ScanPods(pods, name) == Panic <==> exists p :: p in pods && p.nodeName == name && p.owners == []
    ensures ScanPods(pods, name) == Blocked <==>
      && (forall p :: p in pods && p.nodeName == name ==> p.owners != [])
      && exists p :: p in pods && p.nodeName == name && p.owners[0].kind != "DaemonSet"
                     && (p.owners[0].replicas == 1 || true in p.volumes)
  {
    if p :| p in pods && p.nodeName == name && p.owners == [] {
      assert Ownerless(p, name);
    } else if p :| p in pods && p.nodeName == name && p.owners[0].kind != "DaemonSet"
                     && (p.owners[0].replicas == 1 || true in p.volumes) {
      assert Blocks(p, name);
    }
  }

  method CheckWorkerNodeCanBeScaleDown(c: Client, workerNodeName: string) returns (scan: Scan)
    modifies c`clock
    ensures c.clock == old(c.clock) + 1 && scan == ScanPods(c.env.pods(old(c.clock)), workerNodeName)
  {
    var canBeRemove := true;
    var pods := c.ListPods();
    for i := 0 to |pods|
      invariant forall k :: 0 <= k < i ==> !Ownerless(pods[k], workerNodeName)
      invariant canBeRemove <==> forall k :: 0 <= k < i ==> !Blocks(pods[k], workerNodeName)
    {
      var pod := pods[i];
      if pod.nodeName == workerNodeName {
        if |pod.owners| == 0 {
          assert pod in pods;
          return Panic;
        }
        if pod.owners[0].kind != "DaemonSet" {
          if pod.owners[0].replicas == 1 {
            canBeRemove := false;
          }
          for j := 0 to |pod.volumes|
            invariant canBeRemove <==>
              (forall k :: 0 <= k < i ==> !Blocks(pods[k], workerNodeName))
              && pod.owners[0].replicas != 1 && true !in pod.volumes[..j]
          {
            if pod.volumes[j] {
              canBeRemove := false;
            }
          }
          assert pod.volumes[..|pod.volumes|] == pod.volumes;
        }
      }
    }
    scan := if canBeRemove then Removable else Blocked;
  }

  // ---------------------------------------------------------------- calls

  // What a call does: the requests it sends, when it is over, and its result.
  datatype Call = Call(requests: seq<Request>, next: nat, result: ScaleResult)

  // A request sent at time t to an idle cluster, and the polling after it.
  function Scale(env: Environment, t: nat, request: Request, polls: nat): Call {
    var p := PollStatus(env, t + 1, polls);
    Call([request] + (if p.retry.Some? then [request] else []),
         if p.end.Some? then p.end.value + 1 else 0,
         if p.end.Some? then Finished else StillWaiting)
  }

  function ScaleUpCall(env: Environment, t: nat, count: int, polls: nat): Call {
    if env.status(t) == Succeeded then Scale(env, t + 1, ScaleUp(count), polls) else Call([], t + 2, NotNeeded)
  }

  function ScaleDownCall(env: Environment, t: nat, name: string, polls: nat): Call {
    match ScanPods(env.pods(t), name)
    case Panic => Call([], t + 1, Crashed)
    case Blocked => Call([], t + 1, NotNeeded)
    case Removable =>
      if env.status(t + 1) == Succeeded then Scale(env, t + 2, ScaleDown([name]), polls) else Call([], t + 2, NotNeeded)
  }

  // The workers a scale-up call creates, by its request and by the retry.
  function Created(env: Environment, t: nat, count: int, polls: nat): set<string> {
    if env.status(t) != Succeeded then {}
    else Granted(env, t + 1, count) + Regranted(env, t + 2, count, polls)
  }

  function Regranted(env: Environment, t: nat, count: int, polls: nat): set<string> {
    var p := PollStatus(env, t, polls);
    if p.retry.Some? then Granted(env, p.retry.value, count) else {}
  }

  // What a scale-down call takes away.
  function TakenAway(env: Environment, t: nat, name: string): set<string> {
    if ScanPods(env.pods(t), name) == Removable && env.status(t + 1) == Succeeded then {name} else {}
  }

  /** At most two requests are sent per call, both the same, and the first only after SUCCEEDED was read;
      `Finished` means that the last success check read SUCCEEDED. */
  lemma CallIsGuarded(env: Environment, t: nat, count: int, name: string, polls: nat)
    ensures var up := ScaleUpCall(env, t, count, polls);
      && |up.requests| <= 2 && (forall r :: r in up.requests ==> r == ScaleUp(count))
      && (up.requests != [] <==> env.status(t) == Succeeded)
      && up.result != Crashed && (up.requests == [] ==> up.result == NotNeeded && up.next == t + 2)
      && (up.result == Finished ==> up.next > t + 2 && env.status(up.next - 1) == Succeeded)
    ensures var down := ScaleDownCall(env, t, name, polls);
      && |down.requests| <= 2 && (forall r :: r in down.requests ==> r == ScaleDown([name]))
      && (down.requests != [] <==> ScanPods(env.pods(t), name) == Removable && env.status(t + 1) == Succeeded)
      && (down.result == Finished ==> down.next > t + 2 && env.status(down.next - 1) == Succeeded)
  {
    EndIsLate(env, t + 2, polls);
    EndIsLate(env, t + 3, polls);
  }

  /** A cluster that takes the request and stays in error from then on: the call never returns. */
  lemma NeverEndsInError(t: nat, count: int, polls: nat)
    ensures var env := STILL.(status := k => if k <= t then Succeeded else Errored);
      ScaleUpCall(env, t, count, polls).result == StillWaiting
  {
    var env := STILL.(status := k => if k <= t then Succeeded else Errored);
    EndIsLate(env, t + 2, polls);
  }

  lemma {:induction false} EndIsLate(env: Environment, t: nat, polls: nat)
    ensures var e := PollStatus(env, t, polls).end;
            e.Some? ==> e.value >= t && env.status(e.value) == Succeeded
    decreases polls
  {
    if polls > 0 && env.status(t) != Succeeded {
      if env.status(t + 1) == Errored {
        AwaitEndsOnSuccess(env, t + 3, polls - 1);
      } else {
        EndIsLate(env, t + 2, polls - 1);
      }
    }
  }

  /** How a call comes out: skipped in a busy cluster or if the node may not go, and dead after an ownerless pod;
      otherwise it asks once, and once more exactly if its polling retries, and finishes exactly if that ends. */
  lemma CallsAre(env: Environment, t: nat, count: int, name: string, polls: nat)
    ensures var up, p := ScaleUpCall(env, t, count, polls), PollStatus(env, t + 2, polls);
      && (env.status(t) != Succeeded ==> up == Call([], t + 2, NotNeeded))
      && (env.status(t) == Succeeded ==>
            && up.requests == (if p.retry.Some? then [ScaleUp(count), ScaleUp(count)] else [ScaleUp(count)])
            && up.result == (if p.end.Some? then Finished else StillWaiting)
            && (p.end.Some? ==> up.next == p.end.value + 1))
    ensures var down, p := ScaleDownCall(env, t, name, polls), PollStatus(env, t + 3, polls);
            var scan := ScanPods(env.pods(t), name);
      && (scan == Panic ==> down == Call([], t + 1, Crashed))
      && (scan == Blocked ==> down == Call([], t + 1, NotNeeded))
      && (scan == Removable && env.status(t + 1) != Succeeded ==> down == Call([], t + 2, NotNeeded))
      && (scan == Removable && env.status(t + 1) == Succeeded ==>
            && down.requests == (if p.retry.Some? then [ScaleDown([name]), ScaleDown([name])] else [ScaleDown([name])])
            && down.result == (if p.end.Some? then Finished else StillWaiting)
            && (p.end.Some? ==> down.next == p.end.value + 1))
  {
  }

  // The inner loop after a retry.
  method AwaitIdle(c: Client, polls: nat) returns (result: ScaleResult)
    modifies c`clock
    ensures var e := AwaitSucceeded(c.env, old(c.clock), polls);
      && (e.Some? ==> result == Finished && c.clock == e.value + 1) && (e.None? ==> result == StillWaiting)
  {
    var left := polls;
    while left > 0
      invariant AwaitSucceeded(c.env, c.clock, left) == AwaitSucceeded(c.env, old(c.clock), polls)
      decreases left
    {
      var isSucceededStatus := c.CheckStatusCluster();
      if isSucceededStatus {
        return Finished;
      }
      left := left - 1;
    }
    return StillWaiting;
  }

  // The request once more, and the inner loop.
  method RetryScaleUp(c: Client, numberNodeScaleUp: int, polls: nat) returns (result: ScaleResult)
    modifies c
    ensures var e := AwaitSucceeded(c.env, old(c.clock) + 1, polls);
      && (e.Some? ==> result == Finished && c.clock == e.value + 1) && (e.None? ==> result == StillWaiting)
    ensures c.Now() == AskUp(c.env, old(c.Now()), numberNodeScaleUp).(time := c.clock)
  {
    var quotaReached := c.PerformScaleUp(numberNodeScaleUp);
    result := AwaitIdle(c, polls);
  }

  // The outer loop after a scale-up request.
  method PollScaleUp(c: Client, numberNodeScaleUp: int, polls: nat) returns (result: ScaleResult)
    modifies c
    ensures var p := PollStatus(c.env, old(c.clock), polls);
      && c.requests == old(c.requests) + (if p.retry.Some? then [ScaleUp(numberNodeScaleUp)] else [])
      && (p.end.Some? ==> result == Finished && c.clock == p.end.value + 1) && (p.end.None? ==> result == StillWaiting)
    ensures c.workers == old(c.workers) + Regranted(c.env, old(c.clock), numberNodeScaleUp, polls)
    ensures old(c.points) <= c.points && SettlesOn(c.points, |old(c.points)|, c.workers)
    ensures c.points == old(c.points) ==> c.workers == old(c.workers)
  {
    var left := polls;
    while left > 0
      invariant PollStatus(c.env, c.clock, left) == PollStatus(c.env, old(c.clock), polls)
      invariant c.requests == old(c.requests) && c.workers == old(c.workers) && c.points == old(c.points)
      decreases left
    {
      var isSucceededStatus := c.CheckStatusCluster();
      if isSucceededStatus {
        return Finished;
      }
      var isErrorStatus := c.CheckErrorStatusCluster();
      left := left - 1;
      if isErrorStatus {
        result := RetryScaleUp(c, numberNodeScaleUp, left);
        return;
      }
    }
    return StillWaiting;
  }

  /** Asks for workers and blocks until the cluster is idle again. Whatever the status trace, the workers
      are those there were and those that the calls created. */
  method ScaleUpCluster(c: Client, numberNodeScaleUp: int, polls: nat) returns (result: ScaleResult)
    modifies c
    ensures var call := ScaleUpCall(c.env, old(c.clock), numberNodeScaleUp, polls);
      c.requests == old(c.requests) + call.requests && result == call.result
      && (result != StillWaiting ==> c.clock == call.next)
    ensures c.workers == old(c.workers) + Created(c.env, old(c.clock), numberNodeScaleUp, polls)
    ensures old(c.points) <= c.points && Between(c.points, |old(c.points)|, old(c.workers), c.workers)
    ensures Reaches(c.points, |old(c.points)|, old(c.workers), c.workers)
  {
    var idle := c.CheckStatusCluster();
    if !idle {
      var stillBusy := c.CheckStatusCluster();
      return NotNeeded;
    }
    var quotaReached := c.PerformScaleUp(numberNodeScaleUp);
    ghost var asked := c.Now();
    assert !quotaReached ==> asked.points[|old(c.points)|] == asked.workers;
    result := PollScaleUp(c, numberNodeScaleUp, polls);
    assert forall i :: 0 <= i < |asked.points| ==> c.points[i] == asked.points[i];
    if c.points != asked.points {
      assert c.points[|asked.points|] == c.workers;
    }
  }

  /** The outer loop after a scale-down request. The source's counter starts anew in every poll, so its
      limit of 100 polls never takes effect. */
  method PollScaleDown(c: Client, names: seq<string>, polls: nat) returns (result: ScaleResult)
    modifies c
    ensures var p := PollStatus(c.env, old(c.clock), polls);
      && c.requests == old(c.requests) + (if p.retry.Some? then [ScaleDown(names)] else [])
      && (p.end.Some? ==> result == Finished && c.clock == p.end.value + 1) && (p.end.None? ==> result == StillWaiting)
      && c.workers == old(c.workers) - (if p.retry.Some? then Elements(names) else {})
    ensures old(c.points) <= c.points && SettlesOn(c.points, |old(c.points)|, c.workers)
  {
    var left := polls;
    while left > 0
      invariant PollStatus(c.env, c.clock, left) == PollStatus(c.env, old(c.clock), polls)
      invariant c.requests == old(c.requests) && c.workers == old(c.workers) && c.points == old(c.points)
      decreases left
    {
      var count := 0;
      var isSucceededStatus := c.CheckStatusCluster();
      count := count + 1;
      if isSucceededStatus {
        return Finished;
      }
      if count > 100 {
        break;
      }
      var isErrorStatus := c.CheckErrorStatusCluster();
      left := left - 1;
      if isErrorStatus {
        c.PerformScaleDown(names);
        result := AwaitIdle(c, left);
        return;
      }
    }
    return StillWaiting;
  }

  /** Asks for one worker to be removed, if its pods allow it, and blocks until the cluster is idle again.
      Whatever the status trace, exactly this worker is gone, and only if the call got to ask. */
  method ScaleDownCluster(c: Client, workerNameToRemove: string, polls: nat) returns (result: ScaleResult)
    modifies c
    ensures var call := ScaleDownCall(c.env, old(c.clock), workerNameToRemove, polls);
      c.requests == old(c.requests) + call.requests && result == call.result
      && (result != StillWaiting ==> c.clock == call.next)
    ensures c.workers == old(c.workers) - TakenAway(c.env, old(c.clock), workerNameToRemove)
    ensures old(c.points) <= c.points && SettlesOn(c.points, |old(c.points)|, c.workers)
  {
    var scan := CheckWorkerNodeCanBeScaleDown(c, workerNameToRemove);
    if scan == Panic {
      return Crashed;
    }
    if scan == Blocked {
      return NotNeeded;
    }
    var workerNodeNameList := [workerNameToRemove];
    var idle := c.CheckStatusCluster();
    if !idle {
      return NotNeeded;
    }
    c.PerformScaleDown(workerNodeNameList);
    assert Elements(workerNodeNameList) == {workerNameToRemove};
    result := PollScaleDown(c, workerNodeNameList, polls);
  }
}
