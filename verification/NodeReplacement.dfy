/**
  Replacing one node (Controller.go): create a worker and remove the node, or the other way round when
  the cluster is at its maximum. What is sent, and what becomes of the workers, are functions of the
  environment: of every status trace, every reply and every listing of pods.
 */
module NodeReplacement {
  import opened Nodes
  import opened Portal
  import opened Scaler
  import opened Wrappers

  // ---------------------------------------------------------------- replacement, as a function of the environment

  // Refused: nothing may be done. Stuck: the observed polls were used up. Died: the process died.
  datatype ReplaceOutcome = Replaced | Refused | Stuck | Died

  // What a replacement sends, how it ends and, if it returns, when.
  datatype Replacement = Replacement(requests: seq<Request>, outcome: ReplaceOutcome, next: nat)

  function OutcomeOf(r: ScaleResult): ReplaceOutcome {
    match r case StillWaiting => Stuck case Crashed => Died case _ => Replaced
  }

  // The second call is made unless the first did not return.
  function AndThen(first: Call, second: Call): Replacement {
    if OutcomeOf(first.result) != Replaced then Replacement(first.requests, OutcomeOf(first.result), first.next)
    else Replacement(first.requests + second.requests, OutcomeOf(second.result), second.next)
  }

  // The maximum is read at time t, the nodes are listed right after, and then the pods are scanned.
  function Size(env: Environment, t: nat): nat { |env.listing(t + 1)| }

  predicate CreatesFirst(env: Environment, t: nat, minSize: int, name: string) {
    ScanPods(env.pods(t + 2), name) == Removable && minSize <= Size(env, t) < env.maxSize(t)
  }

  predicate RemovesFirst(env: Environment, t: nat, minSize: int, name: string) {
    ScanPods(env.pods(t + 2), name) == Removable && Size(env, t) >= env.maxSize(t)
  }

  function CreateThenRemoveCall(env: Environment, t: nat, name: string, polls: nat): Replacement {
    var up := ScaleUpCall(env, t, 1, polls);
    AndThen(up, ScaleDownCall(env, up.next, name, polls))
  }

  function RemoveThenCreateCall(env: Environment, t: nat, name: string, polls: nat): Replacement {
    var down := ScaleDownCall(env, t, name, polls);
    AndThen(down, ScaleUpCall(env, down.next, 1, polls))
  }

  function ReplaceCall(env: Environment, t: nat, minSize: int, name: string, polls: nat): Replacement {
    if ScanPods(env.pods(t + 2), name) == Panic then Replacement([], Died, t + 3)
    else if CreatesFirst(env, t, minSize, name) then CreateThenRemoveCall(env, t + 3, name, polls)
    else if RemovesFirst(env, t, minSize, name) then RemoveThenCreateCall(env, t + 3, name, polls)
    else Replacement([], Refused, t + 3)
  }

  /** A replacement only ever asks for one more worker and for the removal of the repaired node, at most
      twice each, the removal only after a scan that found no blocking pod; and nothing at all unless
      the node may go and the size is in range. */
  lemma ReplacementIsSafe(env: Environment, t: nat, minSize: int, name: string, polls: nat)
    ensures var requests := ReplaceCall(env, t, minSize, name, polls).requests;
      && |requests| <= 4
      && (forall r :: r in requests ==> r == ScaleUp(1) || r == ScaleDown([name]))
      && (requests != [] ==> CreatesFirst(env, t, minSize, name) || RemovesFirst(env, t, minSize, name))
      && (requests != [] ==> ScanPods(env.pods(t + 2), name) == Removable)
  {
    if CreatesFirst(env, t, minSize, name) {
      var up := ScaleUpCall(env, t + 3, 1, polls);
      CallIsGuarded(env, t + 3, 1, name, polls);
      CallIsGuarded(env, up.next, 1, name, polls);
    } else if RemovesFirst(env, t, minSize, name) {
      var down := ScaleDownCall(env, t + 3, name, polls);
      CallIsGuarded(env, t + 3, 1, name, polls);
      CallIsGuarded(env, down.next, 1, name, polls);
    }
  }

  /** When nothing may be done, from the listed size, the maximum, the minimum and the scan: the node's pods hold
      it, or the size is below both the minimum and the maximum. */
  lemma RefusedIff(env: Environment, t: nat, minSize: int, name: string, polls: nat)
    ensures var r := ReplaceCall(env, t, minSize, name, polls);
            var scan, size := ScanPods(env.pods(t + 2), name), |env.listing(t + 1)|;
      && (r.outcome == Refused <==>
            scan == Blocked || (scan == Removable && size < minSize && size < env.maxSize(t)))
      && (r.outcome == Refused ==> r.requests == [] && r.next == t + 3)
      && (scan == Panic ==> r.outcome == Died && r.requests == [])
  {
  }

  /** What is called and how it comes out, from the listed size and the maximum: the two calls in the order of the
      case, the second at the time the first returns, unless the first does not return. */
  lemma ReplacementCalls(env: Environment, t: nat, minSize: int, name: string, polls: nat)
    requires ScanPods(env.pods(t + 2), name) == Removable
    ensures var r, up := ReplaceCall(env, t, minSize, name, polls), ScaleUpCall(env, t + 3, 1, polls);
            var down := ScaleDownCall(env, up.next, name, polls);
      minSize <= |env.listing(t + 1)| < env.maxSize(t) ==>
        if up.result == StillWaiting then r.requests == up.requests && r.outcome == Stuck
        else r.requests == up.requests + down.requests && r.next == down.next && r.outcome == match down.result
          case StillWaiting => Stuck case Crashed => Died case NotNeeded => Replaced case Finished => Replaced
    ensures var r, down := ReplaceCall(env, t, minSize, name, polls), ScaleDownCall(env, t + 3, name, polls);
            var up := ScaleUpCall(env, down.next, 1, polls);
      |env.listing(t + 1)| >= env.maxSize(t) ==>
        if down.result == StillWaiting || down.result == Crashed then
          r.requests == down.requests && r.outcome == if down.result == Crashed then Died else Stuck
        else
          r.requests == down.requests + up.requests && r.next == up.next
          && r.outcome == if up.result == StillWaiting then Stuck else Replaced
  {
    hide PollStatus, Scale;
    CallIsGuarded(env, t + 3, 1, name, polls);
    var down := ScaleDownCall(env, t + 3, name, polls);
    CallIsGuarded(env, down.next, 1, name, polls);
  }

  /** What is asked for first: a worker only if the size is in range below the maximum, or after a removal call
      that asked for nothing and returned; the removal only at the maximum, or after a scale-up call that asked
      for nothing in a busy cluster. */
  lemma FirstRequestIs(env: Environment, t: nat, minSize: int, name: string, polls: nat)
    requires ReplaceCall(env, t, minSize, name, polls).requests != []
    ensures var first, size := ReplaceCall(env, t, minSize, name, polls).requests[0], |env.listing(t + 1)|;
      && ScanPods(env.pods(t + 2), name) == Removable && (first == ScaleUp(1) || first == ScaleDown([name]))
      && (minSize <= size < env.maxSize(t) || size >= env.maxSize(t))
      && (first == ScaleUp(1) <==>
            if size < env.maxSize(t) then env.status(t + 3) == Succeeded
            else !(ScanPods(env.pods(t + 3), name) == Removable && env.status(t + 4) == Succeeded))
  {
    var r := ReplaceCall(env, t, minSize, name, polls);
    assert r.requests[0] in r.requests;
    ReplacementIsSafe(env, t, minSize, name, polls);
  }

  // ---------------------------------------------------------------- what a replacement does to the workers

  // The workers a replacement creates and those it takes away.
  datatype Exchange = Exchange(created: set<string>, away: set<string>)

  function CreateThenRemoveExchange(env: Environment, t: nat, name: string, polls: nat): Exchange {
    var up := ScaleUpCall(env, t, 1, polls);
    Exchange(Created(env, t, 1, polls), if up.result == StillWaiting then {} else TakenAway(env, up.next, name))
  }

  function RemoveThenCreateExchange(env: Environment, t: nat, name: string, polls: nat): Exchange {
    var down := ScaleDownCall(env, t, name, polls);
    Exchange(if OutcomeOf(down.result) == Replaced then Created(env, down.next, 1, polls) else {},
             TakenAway(env, t, name))
  }

  // The workers there are when a replacement is over, or has come as far as the observed polls take it.
  function WorkersAfter(env: Environment, t: nat, minSize: int, name: string, polls: nat, workers: set<string>)
    : set<string>
  {
    if CreatesFirst(env, t, minSize, name) then
      var x := CreateThenRemoveExchange(env, t + 3, name, polls);
      workers + x.created - x.away
    else if RemovesFirst(env, t, minSize, name) then
      var x := RemoveThenCreateExchange(env, t + 3, name, polls);
      workers - x.away + x.created
    else workers
  }

  // When a scale-up call at time t asks for a worker: not at all, once, or once more after an error.
  function AskedAt(env: Environment, t: nat, polls: nat): seq<nat> {
    if env.status(t) != Succeeded then []
    else
      var p := PollStatus(env, t + 2, polls);
      [t + 1] + if p.retry.Some? then [p.retry.value] else []
  }

  // What these requests are granted is there already, or nothing.
  predicate BringsNobody(env: Environment, asked: seq<nat>, workers: set<string>) {
    forall u :: u in asked ==> Granted(env, u, 1) <= workers
  }

  // What a call creates is what its first request and its last one are granted.
  lemma CreatedIsGranted(env: Environment, t: nat, polls: nat)
    ensures var asked, created := AskedAt(env, t, polls), Created(env, t, 1, polls);
      && |asked| <= 2
      && (if asked == [] then created == {}
          else created == Granted(env, asked[0], 1) + Granted(env, asked[|asked| - 1], 1))
  {
  }

  lemma NobodyCreatedIff(env: Environment, t: nat, polls: nat, workers: set<string>)
    ensures Created(env, t, 1, polls) <= workers <==> BringsNobody(env, AskedAt(env, t, polls), workers)
  {
    hide Created, AskedAt;
    var asked := AskedAt(env, t, polls);
    CreatedIsGranted(env, t, polls);
    if asked != [] {
      assert asked[0] in asked && asked[|asked| - 1] in asked;
    }
  }

  lemma NobodyLeftIff(a: set<string>, b: set<string>)
    ensures |a - b| == 0 <==> a <= b
  {
    assert |a - b| == 0 <==> a - b == {};
    assert forall x :: x in a ==> x in b || x in a - b;
  }

  lemma ExchangeSize(workers: set<string>, x: Exchange)
    requires x.away <= workers
    ensures |workers + x.created| == |workers| + |x.created - workers|
    ensures |workers + x.created - x.away| == |workers| + |x.created - workers| - |x.away|
    ensures |workers - x.away + x.created| == |workers| - |x.away| + |x.created - (workers - x.away)|
  {
    assert workers + x.created == workers + (x.created - workers);
    var left := workers - x.away;
    assert left + x.created == left + (x.created - left);
  }

  // The removal of a create-first replacement is carried out: its scale-up call returned, the node may
  // still go, and the cluster is idle.
  predicate RemovesAfterCreating(env: Environment, t: nat, name: string, polls: nat) {
    var up := ScaleUpCall(env, t, 1, polls);
    up.result != StillWaiting && ScanPods(env.pods(up.next), name) == Removable && env.status(up.next + 1) == Succeeded
  }

  // The workers a create-first replacement adds: none that is there already counts.
  function Newcomers(env: Environment, t: nat, polls: nat, workers: set<string>): set<string> {
    Created(env, t, 1, polls) - workers
  }

  /** Creating first, whatever the status trace, the retries and the grants: the size is then what it was, more
      the newcomers, less the removed node, and before the removal it has risen by the newcomers. */
  lemma CreateFirstSize(env: Environment, t: nat, minSize: int, name: string, polls: nat, workers: set<string>)
    requires CreatesFirst(env, t, minSize, name) && name in workers
    ensures var x, more := CreateThenRemoveExchange(env, t + 3, name, polls), |Newcomers(env, t + 3, polls, workers)|;
      && |workers + x.created| == |workers| + more
      && |WorkersAfter(env, t, minSize, name, polls, workers)|
           == |workers| + more - (if RemovesAfterCreating(env, t + 3, name, polls) then 1 else 0)
  {
    var x := CreateThenRemoveExchange(env, t + 3, name, polls);
    assert x.away == if RemovesAfterCreating(env, t + 3, name, polls) then {name} else {};
    ExchangeSize(workers, x);
  }

  /** Creating first is meant to keep the cluster from shrinking, but a scale-up that is skipped because the
      cluster is busy, refused for quota, or taken and not carried out is not reported as an error. The
      cluster shrinks exactly when the removal is carried out and no request brings anybody; and it keeps its
      size exactly when it gets one newcomer and the removal is carried out, or neither. */
  lemma CreateFirstShrinksIff(env: Environment, t: nat, minSize: int, name: string, polls: nat, workers: set<string>)
    requires CreatesFirst(env, t, minSize, name) && name in workers
    ensures var after, asked := WorkersAfter(env, t, minSize, name, polls, workers), AskedAt(env, t + 3, polls);
            var removes, more := RemovesAfterCreating(env, t + 3, name, polls), Newcomers(env, t + 3, polls, workers);
      && (|after| < |workers| <==> removes && BringsNobody(env, asked, workers))
      && (|after| == |workers| <==> |more| == if removes then 1 else 0)
  {
    hide Created, WorkersAfter, RemovesAfterCreating, CreatesFirst;
    CreateFirstSize(env, t, minSize, name, polls, workers);
    NobodyCreatedIff(env, t + 3, polls, workers);
    NobodyLeftIff(Created(env, t + 3, 1, polls), workers);
  }

  // The scale-up call of a remove-first replacement, if the removal returned: when it asks, and what it creates.
  function AsksAfterRemoving(env: Environment, t: nat, name: string, polls: nat): seq<nat> {
    var down := ScaleDownCall(env, t, name, polls);
    if OutcomeOf(down.result) == Replaced then AskedAt(env, down.next, polls) else []
  }

  function NewcomersAfterRemoving(env: Environment, t: nat, name: string, polls: nat, workers: set<string>)
    : set<string>
  {
    RemoveThenCreateExchange(env, t, name, polls).created - (workers - TakenAway(env, t, name))
  }

  /** Removing first, whatever the status trace, the retries and the grants. */
  lemma RemoveFirstSize(env: Environment, t: nat, minSize: int, name: string, polls: nat, workers: set<string>)
    requires RemovesFirst(env, t, minSize, name) && name in workers
    ensures |WorkersAfter(env, t, minSize, name, polls, workers)|
         == |workers| - |TakenAway(env, t + 3, name)| + |NewcomersAfterRemoving(env, t + 3, name, polls, workers)|
  {
    var x := RemoveThenCreateExchange(env, t + 3, name, polls);
    assert !CreatesFirst(env, t, minSize, name);
    ExchangeSize(workers, x);
  }

  /** Removing first leaves the cluster smaller exactly when the node is removed and no request brings anybody:
      because the removal does not return, or the cluster is busy by then, or nothing is granted. */
  lemma RemoveFirstShrinksIff(env: Environment, t: nat, minSize: int, name: string, polls: nat, workers: set<string>)
    requires RemovesFirst(env, t, minSize, name) && name in workers
    ensures var after := WorkersAfter(env, t, minSize, name, polls, workers);
            var asked := AsksAfterRemoving(env, t + 3, name, polls);
            var away, more := TakenAway(env, t + 3, name), NewcomersAfterRemoving(env, t + 3, name, polls, workers);
      && (|after| < |workers| <==> away != {} && BringsNobody(env, asked, workers - away))
      && (|after| == |workers| <==> |more| == |away|)
  {
    var down, away := ScaleDownCall(env, t + 3, name, polls), TakenAway(env, t + 3, name);
    RemoveFirstSize(env, t, minSize, name, polls, workers);
    NobodyLeftIff(RemoveThenCreateExchange(env, t + 3, name, polls).created, workers - away);
    if OutcomeOf(down.result) == Replaced {
      NobodyCreatedIff(env, down.next, polls, workers - away);
    }
    assert |away| == if away == {} then 0 else 1;
  }

  /** Creating first is meant to stay within the maximum. It passes it on its way exactly when the newcomers are
      more than there is room for, and for good exactly when they are by more than the removed node. */
  lemma CreateFirstPassesMaximumIff(env: Environment, t: nat, minSize: int, name: string, polls: nat,
                                    workers: set<string>)
    requires CreatesFirst(env, t, minSize, name) && name in workers
    ensures var room, more := env.maxSize(t) - |workers|, |Newcomers(env, t + 3, polls, workers)|;
            var x := CreateThenRemoveExchange(env, t + 3, name, polls);
            var after := WorkersAfter(env, t, minSize, name, polls, workers);
      && (|workers + x.created| > env.maxSize(t) <==> more > room)
      && (|after| > env.maxSize(t) <==> more > room + if RemovesAfterCreating(env, t + 3, name, polls) then 1 else 0)
  {
    hide Created, WorkersAfter, RemovesAfterCreating, CreatesFirst;
    CreateFirstSize(env, t, minSize, name, polls, workers);
  }

  // Each of these requests brings one newcomer at most.
  predicate OneEach(env: Environment, asked: seq<nat>, workers: set<string>) {
    forall u :: u in asked ==> |Granted(env, u, 1) - workers| <= 1
  }

  /** As long as no single request brings more than the one worker it asks for, that takes a request that is
      granted, an error, and a retry that is granted to another worker, in a cluster with room for one. */
  lemma PassesMaximumByRetry(env: Environment, t: nat, minSize: int, name: string, polls: nat, workers: set<string>)
    requires CreatesFirst(env, t, minSize, name) && name in workers && |workers| < env.maxSize(t)
    requires OneEach(env, AskedAt(env, t + 3, polls), workers)
    ensures var x, asked := CreateThenRemoveExchange(env, t + 3, name, polls), AskedAt(env, t + 3, polls);
      |workers + x.created| > env.maxSize(t) <==>
        && |workers| + 1 == env.maxSize(t) && |asked| == 2
        && Granted(env, asked[0], 1) - workers != {} && Granted(env, asked[1], 1) - workers != {}
        && Granted(env, asked[0], 1) - workers != Granted(env, asked[1], 1) - workers
  {
    hide Created, AskedAt, CreateThenRemoveExchange, WorkersAfter, RemovesAfterCreating, CreatesFirst;
    var asked, created := AskedAt(env, t + 3, polls), Created(env, t + 3, 1, polls);
    CreateFirstSize(env, t, minSize, name, polls, workers);
    CreatedIsGranted(env, t + 3, polls);
    if asked == [] {
      assert created - workers == {};
    } else {
      assert asked[0] in asked && asked[|asked| - 1] in asked;
      var first, last := Granted(env, asked[0], 1) - workers, Granted(env, asked[|asked| - 1], 1) - workers;
      assert created - workers == first + last;
      UnionOfSmall(first, last);
    }
  }

  lemma UnionOfSmall(a: set<string>, b: set<string>)
    requires |a| <= 1 && |b| <= 1
    ensures |a + b| <= 2 && (|a + b| == 2 <==> a != {} && b != {} && a != b)
  {
    if a != {} && b != {} {
      var x :| x in a;
      var y :| y in b;
      assert |a - {x}| == 0 && |b - {y}| == 0;
      assert a == {x} && b == {y};
      assert a + b == {x, y};
    } else {
      assert a + b == a || a + b == b;
    }
  }

  /** Removing first is meant for a cluster at its maximum. The cluster ends above both the maximum and the size
      it had exactly when more newcomers come than there is room for, the removed node's place included; at
      the maximum that takes a removal that is skipped, or more than one newcomer. */
  lemma RemoveFirstPassesMaximumIff(env: Environment, t: nat, minSize: int, name: string, polls: nat,
                                    workers: set<string>)
    requires RemovesFirst(env, t, minSize, name) && name in workers
    ensures var top, after := Ceiling(|workers|, env.maxSize(t)), WorkersAfter(env, t, minSize, name, polls, workers);
            var away, more := |TakenAway(env, t + 3, name)|, |NewcomersAfterRemoving(env, t + 3, name, polls, workers)|;
      && (|after| > top <==> more > top - |workers| + away)
      && (|workers| == env.maxSize(t) ==> (|after| > top <==> more > away))
  {
    hide WorkersAfter, NewcomersAfterRemoving, RemovesFirst;
    RemoveFirstSize(env, t, minSize, name, polls, workers);
  }

  // ---------------------------------------------------------------- where a replacement goes wrong

  // A cluster of one worker that may have so many, and that refuses every request.
  function OneWorker(name: string, limit: int): Environment {
    STILL.(listing := _ => [Bare(name)], maxSize := _ => limit)
  }

  /** Ways to shrink: a cluster that is busy at the first check only... */
  lemma BusyClusterShrinks(name: string, polls: nat)
    ensures var env := OneWorker(name, 2).(status := t => if t == 3 then Scaling else Succeeded);
      CreatesFirst(env, 0, 1, name) && WorkersAfter(env, 0, 1, name, polls, {name}) == {}
  {
  }

  /** ... one that is always idle, where the request for a worker is sent and refused ... */
  lemma RefusedRequestShrinks(name: string, polls: nat)
    requires polls > 0
    ensures var env := OneWorker(name, 2);
      && CreatesFirst(env, 0, 1, name) && WorkersAfter(env, 0, 1, name, polls, {name}) == {}
      && ScaleUp(1) in ReplaceCall(env, 0, 1, name, polls).requests
  {
    var env := OneWorker(name, 2);
    assert PollStatus(env, 5, polls) == Polling(None, Some(5));
    assert ReplaceCall(env, 0, 1, name, polls).requests[0] == ScaleUp(1);
  }

  /** ... and one where it is taken and brings nobody. */
  lemma EmptyGrantShrinks(name: string, polls: nat)
    requires polls > 0
    ensures var env := OneWorker(name, 2).(reply := (_, _) => Taken({}));
      CreatesFirst(env, 0, 1, name) && WorkersAfter(env, 0, 1, name, polls, {name}) == {}
  {
    var env := OneWorker(name, 2).(reply := (_, _) => Taken({}));
    assert PollStatus(env, 5, polls) == Polling(None, Some(5));
  }

  // The scale-up is sent at time 4, an error is read at time 6, and the request is repeated at time 7.
  function ErrorOnce(name: string, first: set<string>, second: set<string>): Environment {
    OneWorker(name, 2).(status := t => if t == 5 then Scaling else if t == 6 then Errored else Succeeded,
                        reply := (t, _) => Taken(if t < 7 then first else second))
  }

  lemma ErrorOnceCreates(name: string, first: set<string>, second: set<string>, polls: nat)
    requires polls > 1
    ensures var env := ErrorOnce(name, first, second);
      && CreatesFirst(env, 0, 1, name)
      && CreateThenRemoveExchange(env, 3, name, polls) == Exchange(first + second, {name})
  {
    var env := ErrorOnce(name, first, second);
    assert AwaitSucceeded(env, 8, polls - 1) == Some(8);
    assert PollStatus(env, 5, polls) == Polling(Some(7), Some(8));
  }

  /** A first request that fails and a retry that delivers keep the size... */
  lemma RetryKeepsSize(name: string, a: string, polls: nat)
    requires polls > 1 && a != name
    ensures WorkersAfter(ErrorOnce(name, {}, {a}), 0, 1, name, polls, {name}) == {a}
  {
    ErrorOnceCreates(name, {}, {a}, polls);
  }

  /** ... and a request and a retry that both deliver take a cluster of at most two to three. */
  lemma RetryPassesMaximum(name: string, a: string, b: string, polls: nat)
    requires polls > 1 && a != name && b != name && a != b
    ensures var env := ErrorOnce(name, {a}, {b});
      |{name} + CreateThenRemoveExchange(env, 3, name, polls).created| == 3 > env.maxSize(0)
  {
    ErrorOnceCreates(name, {a}, {b}, polls);
    assert {name} + ({a} + {b}) == {name, a, b};
  }

  /** A cluster at its maximum of one that is busy only when the node is to be removed: the node stays, a worker
      is created, and the replacement counts as done. */
  lemma SkippedRemovalPassesMaximum(name: string, a: string, polls: nat)
    requires polls > 0 && a != name
    ensures var env := OneWorker(name, 1).(status := t => if t == 4 then Scaling else Succeeded,
                                           reply := (_, _) => Taken({a}));
      && RemovesFirst(env, 0, 1, name) && ReplaceCall(env, 0, 1, name, polls).outcome == Replaced
      && WorkersAfter(env, 0, 1, name, polls, {name}) == {name, a}
  {
    var env := OneWorker(name, 1).(status := t => if t == 4 then Scaling else Succeeded, reply := (_, _) => Taken({a}));
    assert PollStatus(env, 7, polls) == Polling(None, Some(7));
  }

  // ---------------------------------------------------------------- requests

  // Since its first n entries, a request list asks for nothing but the replacement of one node.
  ghost predicate OnlyReplaces(requests: seq<Request>, n: nat, name: string) {
    forall i :: n <= i < |requests| ==> requests[i] == ScaleUp(1) || requests[i] == ScaleDown([name])
  }

  lemma AppendedOnlyReplaces(before: seq<Request>, more: seq<Request>, name: string)
    requires forall r :: r in more ==> r == ScaleUp(1) || r == ScaleDown([name])
    ensures OnlyReplaces(before + more, |before|, name)
  {
    forall i | |before| <= i < |before + more|
      ensures (before + more)[i] == ScaleUp(1) || (before + more)[i] == ScaleDown([name])
    {
      assert (before + more)[i] == more[i - |before|] && more[i - |before|] in more;
    }
  }

  lemma ReplacementOnlyReplaces(before: seq<Request>, env: Environment, t: nat, minSize: int, name: string, polls: nat)
    ensures OnlyReplaces(before + ReplaceCall(env, t, minSize, name, polls).requests, |before|, name)
  {
    ReplacementIsSafe(env, t, minSize, name, polls);
    AppendedOnlyReplaces(before, ReplaceCall(env, t, minSize, name, polls).requests, name);
  }

  // ---------------------------------------------------------------- the code

  // Since the first n points the workers have been between two sets, or what they are at the end; and they have
  // been at the larger of the two, unless that is what they were at the start.
  ghost predicate Path(points: seq<set<string>>, n: nat, start: set<string>, low: set<string>, peak: set<string>,
                       end: set<string>)
  {
    && (forall i :: n <= i < |points| ==> low <= points[i] <= peak || points[i] == end)
    && Reaches(points, n, start, peak)
  }

  // What a path tells of the sizes: they are within its ends, and within a bound exactly if its peak is.
  lemma PathSizes(points: seq<set<string>>, n: nat, start: set<string>, low: set<string>, peak: set<string>,
                  end: set<string>, bound: int)
    requires Path(points, n, start, low, peak, end) && |end| <= |peak| && |start| <= bound
    ensures SizesBetween(points, n, if |low| < |end| then |low| else |end|, |peak|)
    ensures SizesBetween(points, n, 0, bound) <==> |peak| <= bound
  {
    forall i | n <= i < |points| ensures |points[i]| <= |peak| && (|points[i]| >= |low| || |points[i]| == |end|) {
      if points[i] != end {
        SubsetSize(low, points[i]);
        SubsetSize(points[i], peak);
      }
    }
  }

  // Create first: the peak is between the two halves.
  method CreateThenRemove(c: Client, name: string, polls: nat) returns (outcome: ReplaceOutcome)
    modifies c
    ensures var r := CreateThenRemoveCall(c.env, old(c.clock), name, polls);
      && c.requests == old(c.requests) + r.requests && outcome == r.outcome != Refused
      && (outcome == Replaced ==> c.clock == r.next)
    ensures var x := CreateThenRemoveExchange(c.env, old(c.clock), name, polls);
      && c.workers == old(c.workers) + x.created - x.away
      && Path(c.points, |old(c.points)|, old(c.workers), old(c.workers), old(c.workers) + x.created, c.workers)
    ensures old(c.points) <= c.points
  {
    var result := ScaleUpCluster(c, 1, polls);
    if result == StillWaiting { return Stuck; }
    ghost var created := c.Now();
    result := ScaleDownCluster(c, name, polls);
    assert forall i :: 0 <= i < |created.points| ==> c.points[i] == created.points[i];
    return OutcomeOf(result);
  }

  // Remove first: the peak is at the end.
  method RemoveThenCreate(c: Client, name: string, polls: nat) returns (outcome: ReplaceOutcome)
    modifies c
    ensures var r := RemoveThenCreateCall(c.env, old(c.clock), name, polls);
      && c.requests == old(c.requests) + r.requests && outcome == r.outcome != Refused
      && (outcome == Replaced ==> c.clock == r.next)
    ensures var x := RemoveThenCreateExchange(c.env, old(c.clock), name, polls);
      && c.workers == old(c.workers) - x.away + x.created
      && Path(c.points, |old(c.points)|, old(c.workers) - x.away, old(c.workers) - x.away, c.workers, c.workers)
    ensures old(c.points) <= c.points
  {
    var result := ScaleDownCluster(c, name, polls);
    if OutcomeOf(result) != Replaced { return OutcomeOf(result); }
    ghost var removed := c.Now();
    result := ScaleUpCluster(c, 1, polls);
    assert forall i :: 0 <= i < |removed.points| ==> c.points[i] == removed.points[i];
    return OutcomeOf(result);
  }

  lemma NamesAreNodes(nodes: seq<Node>, workers: set<string>)
    requires Truthful(nodes, workers)
    ensures |workers| <= |nodes|
  {
    TruthfulSize(nodes, workers);
  }

  // The sizes on the way: no smaller than the lesser of two, and within the maximum exactly if the largest is.
  ghost predicate SizesOnTheWay(points: seq<set<string>>, n: nat, low: int, top: int, largest: int) {
    SizesBetween(points, n, low, largest) && (SizesBetween(points, n, 0, top) <==> largest <= top)
  }

  /** Replaces a node: create first below the maximum, remove first at it. Whatever the status trace, the
      replies and the pods, the workers are afterwards as the exchange tells. Creating first, the size is
      largest between its halves; removing first, at the end. */
  method ReplaceNode(c: Client, minSize: int, name: string, polls: nat) returns (outcome: ReplaceOutcome)
    modifies c
    ensures var r := ReplaceCall(c.env, old(c.clock), minSize, name, polls);
      && c.requests == old(c.requests) + r.requests && outcome == r.outcome
      && (outcome == Replaced || outcome == Refused ==> c.clock == r.next)
    ensures c.workers == WorkersAfter(c.env, old(c.clock), minSize, name, polls, old(c.workers))
    ensures old(c.points) <= c.points
    ensures
      CreatesFirst(c.env, old(c.clock), minSize, name) && Truthful(c.env.listing(old(c.clock) + 1), old(c.workers)) ==>
      var x := CreateThenRemoveExchange(c.env, old(c.clock) + 3, name, polls);
      SizesOnTheWay(c.points, |old(c.points)|, Lesser(|old(c.workers)|, |c.workers|), c.env.maxSize(old(c.clock)),
                    |old(c.workers) + x.created|)
    ensures RemovesFirst(c.env, old(c.clock), minSize, name) ==>
      SizesOnTheWay(c.points, |old(c.points)|, |old(c.workers) - TakenAway(c.env, old(c.clock) + 3, name)|,
                    Ceiling(|old(c.workers)|, c.env.maxSize(old(c.clock))), |c.workers|)
  {
    hide CreateThenRemoveCall, RemoveThenCreateCall, CreateThenRemoveExchange, RemoveThenCreateExchange, Path;
    ghost var start := c.Now();
    var maxAutoScalerNode := c.GetMaxSizeNodeGroup();
    var currentNodeList := c.ListNodes();
    var currentSize := |currentNodeList|;
    var scan := CheckWorkerNodeCanBeScaleDown(c, name);
    if scan == Panic {
      return Died;
    }
    if scan == Blocked {
      return Refused;
    }
    if currentSize >= minSize && currentSize < maxAutoScalerNode {
      outcome := CreateThenRemove(c, name, polls);
      if Truthful(currentNodeList, start.workers) {
        CreateFirstOnTheWay(c.env, start, c.Now(), minSize, name, polls);
      }
    } else if currentSize >= maxAutoScalerNode {
      outcome := RemoveThenCreate(c, name, polls);
      RemoveFirstOnTheWay(c.env, start, c.Now(), name, polls, maxAutoScalerNode);
    } else {
      outcome := Refused;
    }
  }

  function Lesser(a: int, b: int): int { if a < b then a else b }

  lemma CreateFirstOnTheWay(env: Environment, s: State, now: State, minSize: int, name: string, polls: nat)
    requires CreatesFirst(env, s.time, minSize, name) && Truthful(env.listing(s.time + 1), s.workers)
    requires var x := CreateThenRemoveExchange(env, s.time + 3, name, polls);
      && now.workers == s.workers + x.created - x.away
      && Path(now.points, |s.points|, s.workers, s.workers, s.workers + x.created, now.workers)
    ensures var x := CreateThenRemoveExchange(env, s.time + 3, name, polls);
      SizesOnTheWay(now.points, |s.points|, Lesser(|s.workers|, |now.workers|), env.maxSize(s.time),
                    |s.workers + x.created|)
  {
    hide CreateThenRemoveExchange;
    var x := CreateThenRemoveExchange(env, s.time + 3, name, polls);
    NamesAreNodes(env.listing(s.time + 1), s.workers);
    SubsetSize(now.workers, s.workers + x.created);
    PathSizes(now.points, |s.points|, s.workers, s.workers, s.workers + x.created, now.workers, env.maxSize(s.time));
  }

  lemma RemoveFirstOnTheWay(env: Environment, s: State, now: State, name: string, polls: nat, limit: int)
    requires var x := RemoveThenCreateExchange(env, s.time + 3, name, polls);
      && now.workers == s.workers - x.away + x.created
      && Path(now.points, |s.points|, s.workers - x.away, s.workers - x.away, now.workers, now.workers)
    ensures SizesOnTheWay(now.points, |s.points|, |s.workers - TakenAway(env, s.time + 3, name)|,
                          Ceiling(|s.workers|, limit), |now.workers|)
  {
    hide ScaleUpCall, ScaleDownCall, Created;
    var left, top := s.workers - TakenAway(env, s.time + 3, name), Ceiling(|s.workers|, limit);
    SubsetSize(left, s.workers);
    SubsetSize(left, now.workers);
    PathSizes(now.points, |s.points|, left, left, now.workers, now.workers, top);
  }
}
