/**
  The controller's own code (Controller.go): the informer's handler and the escalation from reboot to
  replacement. Run without interference, each method is a run of the
  atomic steps of ControllerSteps.
 */
module Controller {
  import opened Wrappers
  import opened Nodes
  import opened NodeReplacement
  import opened Portal
  import opened Scaler
  import Steps = ControllerSteps

  // ---------------------------------------------------------------- readiness as the lister reports it

  // Some Ready condition of the node is true; taints and other conditions do not matter here.
  predicate ReportsReady(node: Node) {
    exists c :: c in node.conditions && c.kind == NodeReady && c.status == StatusTrue
  }

  predicate AnyReady(nodes: seq<Node>) { exists n :: n in nodes && ReportsReady(n) }

  function FirstNamed(nodes: seq<Node>, name: string): Option<Node> {
    if nodes == [] then None else if nodes[0].name == name then Some(nodes[0]) else FirstNamed(nodes[1..], name)
  }

  // The entry of a name is its first one in the listing, and it has one exactly if the listing has the name.
  lemma {:induction false} FirstNamedIs(nodes: seq<Node>, name: string)
    ensures var e := FirstNamed(nodes, name);
      && (e.None? <==> forall n :: n in nodes ==> n.name != name)
      && (e.Some? ==> exists k :: 0 <= k < |nodes| && nodes[k] == e.value && nodes[k].name == name
                                  && forall j :: 0 <= j < k ==> nodes[j].name != name)
  {
    if nodes != [] {
      var rest := nodes[1..];
      FirstNamedIs(rest, name);
      assert nodes == [nodes[0]] + rest;
      if nodes[0].name != name && FirstNamed(rest, name).Some? {
        var k :| 0 <= k < |rest| && rest[k] == FirstNamed(rest, name).value && rest[k].name == name
                 && forall j :: 0 <= j < k ==> rest[j].name != name;
        assert nodes[k + 1] == rest[k];
        assert forall j :: 1 <= j < k + 1 ==> nodes[j] == rest[j - 1];
      }
    }
  }

  predicate ListedReady(nodes: seq<Node>, name: string) {
    var n := FirstNamed(nodes, name);
    n.Some? && ReportsReady(n.value)
  }

  lemma {:induction false} ListedIsAny(nodes: seq<Node>, name: string)
    requires ListedReady(nodes, name)
    ensures AnyReady(nodes)
  {
    if nodes[0].name == name {
      assert nodes[0] in nodes;
    } else {
      ListedIsAny(nodes[1..], name);
      assert forall n :: n in nodes[1..] ==> n in nodes;
    }
  }

  /** A node counts as stuck when a Ready condition other than true is at least five minutes old. */
  predicate NotReadyForTooLong(node: Node, now: int) {
    exists c :: c in node.conditions && c.kind == NodeReady && c.status != StatusTrue
                && now - c.lastTransitionTime >= WAITING_TIME_FOR_NOT_READY
  }

  // Seconds.
  const WAITING_TIME_FOR_NOT_READY := 300

  /** That is: it has reported false or unknown readiness, or none it knows, for five minutes or more. */
  lemma StuckIff(node: Node, now: int)
    ensures NotReadyForTooLong(node, now) <==>
      exists c :: c in node.conditions && c.kind == NodeReady && c.status != StatusTrue
                  && now >= c.lastTransitionTime + 5 * 60
  {
  }

  method IsNodeNotReadyForTooLong(node: Node, now: int) returns (b: bool)
    ensures b == NotReadyForTooLong(node, now)
  {
    for i := 0 to |node.conditions|
      invariant !NotReadyForTooLong(node.(conditions := node.conditions[..i]), now)
    {
      var c := node.conditions[i];
      if c.kind == NodeReady && c.status != StatusTrue {
        if now - c.lastTransitionTime >= WAITING_TIME_FOR_NOT_READY {
          return true;
        }
      }
    }
    return false;
  }

  method HasTrueReadyCondition(node: Node) returns (b: bool)
    ensures b == ReportsReady(node)
  {
    for i := 0 to |node.conditions|
      invariant !ReportsReady(node.(conditions := node.conditions[..i]))
    {
      if node.conditions[i].kind == NodeReady && node.conditions[i].status == StatusTrue {
        return true;
      }
    }
    return false;
  }

  // Looking up a node that the lister no longer has is a nil dereference.
  datatype Verdict = Ready | NotReady | NodeGone

  method GetNode(nodes: seq<Node>, name: string) returns (node: Option<Node>)
    ensures node == FirstNamed(nodes, name)
  {
    for i := 0 to |nodes|
      invariant FirstNamed(nodes, name) == FirstNamed(nodes[i..], name)
    {
      assert nodes[i..][1..] == nodes[i + 1..];
      if nodes[i].name == name {
        return Some(nodes[i]);
      }
    }
    return None;
  }

  predicate ListedNotReady(nodes: seq<Node>, name: string) {
    FirstNamed(nodes, name).Some? && !ListedReady(nodes, name)
  }

  // Listings from one time to another, at most 30, of which only the last decides.
  ghost predicate PolledNode(env: Environment, from: nat, to: nat, name: string, v: Verdict) {
    && from < to <= from + 30
    && (forall k :: from <= k < to - 1 ==> ListedNotReady(env.listing(k), name))
    && match v
       case Ready => ListedReady(env.listing(to - 1), name)
       case NotReady => to == from + 30 && ListedNotReady(env.listing(to - 1), name)
       case NodeGone => FirstNamed(env.listing(to - 1), name).None?
  }

  // The first of so many listings that shows any ready node.
  function FirstReady(env: Environment, from: nat, listings: nat): Option<nat>
    decreases listings, from
  {
    if listings == 0 then None
    else if AnyReady(env.listing(from)) then Some(from)
    else FirstReady(env, from + 1, listings - 1)
  }

  lemma {:induction false} FirstReadyIs(env: Environment, from: nat, listings: nat)
    ensures var k := FirstReady(env, from, listings);
      && (k.Some? ==> from <= k.value < from + listings && AnyReady(env.listing(k.value)))
      && forall j: nat :: from <= j < (if k.Some? then k.value else from + listings) ==> !AnyReady(env.listing(j))
    decreases listings
  {
    if listings > 0 && !AnyReady(env.listing(from)) {
      FirstReadyIs(env, from + 1, listings - 1);
    }
  }

  /** Polls the lister for one node, up to 30 times. */
  method CheckNodeReadyStatusAfterRepairing(c: Client, name: string) returns (v: Verdict)
    modifies c`clock
    ensures PolledNode(c.env, old(c.clock), c.clock, name, v)
  {
    var maxRetry := 30;
    for retryCount := 0 to maxRetry
      invariant c.clock == old(c.clock) + retryCount
      invariant forall k :: old(c.clock) <= k < c.clock ==> ListedNotReady(c.env.listing(k), name)
    {
      var nodes := c.ListNodes();
      var newNodeState := GetNode(nodes, name);
      if newNodeState.None? {
        return NodeGone;
      }
      var ready := HasTrueReadyCondition(newNodeState.value);
      if ready {
        return Ready;
      }
    }
    return NotReady;
  }

  method SomeNodeReady(nodeList: seq<Node>) returns (ready: bool)
    ensures ready == AnyReady(nodeList)
  {
    for i := 0 to |nodeList|
      invariant !AnyReady(nodeList[..i])
    {
      assert forall n :: n in nodeList[..i + 1] <==> n in nodeList[..i] || n == nodeList[i];
      var nodeReady := HasTrueReadyCondition(nodeList[i]);
      if nodeReady {
        return true;
      }
    }
    assert nodeList[..|nodeList|] == nodeList;
    return false;
  }

  const MAX_LISTINGS := 10

  /** Polls the lister for all nodes, up to 10 times: true as soon as any node is ready. */
  method CheckAllNodesReadyStatus(c: Client) returns (ready: bool)
    modifies c`clock
    ensures var k := FirstReady(c.env, old(c.clock), MAX_LISTINGS);
      ready == k.Some? && c.clock == if k.Some? then k.value + 1 else old(c.clock) + MAX_LISTINGS
  {
    var retryCount := 0;
    while retryCount < MAX_LISTINGS
      invariant 0 <= retryCount <= MAX_LISTINGS && c.clock == old(c.clock) + retryCount
      invariant FirstReady(c.env, c.clock, MAX_LISTINGS - retryCount) == FirstReady(c.env, old(c.clock), MAX_LISTINGS)
    {
      var nodeList := c.ListNodes();
      var nodeReady := SomeNodeReady(nodeList);
      if nodeReady {
        return true;
      }
      retryCount := retryCount + 1;
    }
    return false;
  }

  // ---------------------------------------------------------------- whom the check after a replacement releases

  // The listing that decides about the mark after a replacement: the first of 10 that shows any ready node.
  function Deciding(env: Environment, t: nat, minSize: int, name: string, polls: nat): Option<nat> {
    var r := ReplaceCall(env, t, minSize, name, polls);
    if r.outcome == Replaced || r.outcome == Refused then FirstReady(env, r.next, MAX_LISTINGS) else None
  }

  lemma DecidingShowsReady(env: Environment, t: nat, minSize: int, name: string, polls: nat)
    ensures var k := Deciding(env, t, minSize, name, polls);
            k.Some? ==> AnyReady(env.listing(k.value))
  {
    FirstReadyIs(env, ReplaceCall(env, t, minSize, name, polls).next, MAX_LISTINGS);
  }

  // The replacement and the check after it; the check is made unless the replacement does not return.
  method ReplaceAndCheck(c: Client, minSize: int, name: string, polls: nat)
    returns (outcome: ReplaceOutcome, ready: bool)
    modifies c
    ensures c.requests == old(c.requests) + ReplaceCall(c.env, old(c.clock), minSize, name, polls).requests
    ensures outcome == ReplaceCall(c.env, old(c.clock), minSize, name, polls).outcome
    ensures var k := Deciding(c.env, old(c.clock), minSize, name, polls);
      (ready <==> k.Some?) && (ready ==> (outcome == Replaced || outcome == Refused) && c.clock == k.value + 1)
  {
    ready := false;
    outcome := ReplaceNode(c, minSize, name, polls);
    if outcome == Replaced || outcome == Refused {
      ready := CheckAllNodesReadyStatus(c);
    }
  }

  // The mark of the node is removed although the listing that decides does not show it ready.
  predicate ReleasesUnready(env: Environment, t: nat, minSize: int, name: string, polls: nat) {
    var k := Deciding(env, t, minSize, name, polls);
    k.Some? && !ListedReady(env.listing(k.value), name)
  }

  /** The check after a replacement is documented as one of all nodes, but one ready node satisfies it, and
      what the replacement reports is not looked at. A node loses its mark without being ready exactly if
      the replacement returns, having done anything or nothing, and the first of the ten listings after it
      that shows a ready node shows only others. */
  lemma ReleasesUnreadyIff(env: Environment, t: nat, minSize: int, name: string, polls: nat)
    ensures var r := ReplaceCall(env, t, minSize, name, polls);
      ReleasesUnready(env, t, minSize, name, polls) <==>
        && (r.outcome == Replaced || r.outcome == Refused)
        && exists k: nat :: r.next <= k < r.next + MAX_LISTINGS
                            && AnyReady(env.listing(k)) && !ListedReady(env.listing(k), name)
                            && forall j: nat :: r.next <= j < k ==> !AnyReady(env.listing(j))
  {
    var from := ReplaceCall(env, t, minSize, name, polls).next;
    FirstReadyIs(env, from, MAX_LISTINGS);
    if k: nat :| from <= k < from + MAX_LISTINGS && AnyReady(env.listing(k))
                 && forall j: nat :: from <= j < k ==> !AnyReady(env.listing(j)) {
      assert FirstReady(env, from, MAX_LISTINGS) == Some(k);
    }
  }

  // A node that is ready and has been since time 0.
  function ReadyNode(name: string): Node {
    Bare(name).(conditions := [Condition(NodeReady, StatusTrue, 0, "")])
  }

  /** A node that may not go, for a last replica, next to a ready one: nothing is asked for, and the mark goes. */
  lemma NothingDoneReleases(name: string, other: string, minSize: int, polls: nat)
    requires name != other
    ensures var env := STILL.(listing := _ => [Bare(name), ReadyNode(other)],
                              pods := _ => [Pod(name, [Owner("ReplicaSet", 1)], [])]);
      ReplaceCall(env, 0, minSize, name, polls).requests == [] && ReleasesUnready(env, 0, minSize, name, polls)
  {
    var pod, nodes := Pod(name, [Owner("ReplicaSet", 1)], []), [Bare(name), ReadyNode(other)];
    var env := STILL.(listing := _ => nodes, pods := _ => [pod]);
    assert Blocks(pod, name) && pod in [pod];
    assert ScanPods(env.pods(2), name) == Blocked;
    assert ReadyNode(other) == nodes[1] && ReportsReady(nodes[1]) by {
      assert Condition(NodeReady, StatusTrue, 0, "") in ReadyNode(other).conditions;
    }
    assert AnyReady(env.listing(3));
    assert FirstNamed(nodes, name) == Some(Bare(name)) && !ReportsReady(Bare(name));
  }

  // ---------------------------------------------------------------- the controller

  // Done: the node was seen ready and its mark removed. Failed: the mark stays. Dead: the process died.
  // GoOn: a reboot did not help, or the observed polls of a replacement were used up.
  datatype RepairResult = Done | Failed | Dead | GoOn

  // One of the steps since the first n is a replacement.
  ghost predicate ReplaceTaken(taken: seq<Steps.Step>, n: nat) {
    exists i :: n <= i < |taken| && taken[i] == Steps.Replace
  }

  lemma ReplaceIsTaken(before: seq<Steps.Step>, now: seq<Steps.Step>, n: nat)
    requires n <= |before| && before + [Steps.Replace] <= now
    ensures ReplaceTaken(now, n)
  {
    assert now[|before|] == (before + [Steps.Replace])[|before|];
  }

  // ---------------------------------------------------------------- a job of the worker, from the environment

  // The times at which a job reboots the node, and the time at which it replaces it, if it does.
  datatype Job = Job(reboots: seq<nat>, replaced: Option<nat>)

  // The node's machine is restarted at time t, and the node is not seen ready in any of the listings up to `next`.
  ghost predicate InVain(env: Environment, name: string, t: nat, next: nat) {
    env.connects(t) && env.reboots(t) && PolledNode(env, t + 1, next, name, NotReady)
  }

  /** A job reboots one to three times, again only after a reboot in vain, and replaces only after three. */
  ghost predicate IsJob(env: Environment, start: nat, name: string, job: Job) {
    && 1 <= |job.reboots| <= 3 && job.reboots[0] == start
    && (forall k: nat :: k + 1 < |job.reboots| ==> InVain(env, name, job.reboots[k], job.reboots[k + 1]))
    && (job.replaced.Some? ==> |job.reboots| == 3 && InVain(env, name, job.reboots[2], job.replaced.value))
  }

  // One of the ten listings from a time on shows any ready node.
  ghost predicate ShowsReady(env: Environment, from: nat) {
    exists k: nat :: from <= k < from + 10 && AnyReady(env.listing(k))
  }

  /** How a job ends. Without a replacement, its last reboot fails, or the node is seen ready after it, or is
      gone. With one, that is used up or dies; or it returns, whatever it did, and the listings after it decide. */
  ghost predicate JobEnds(env: Environment, minSize: int, name: string, polls: nat, job: Job, result: RepairResult,
                          now: nat)
    requires job.reboots != []
  {
    var last := job.reboots[|job.reboots| - 1];
    var restarted := env.connects(last) && env.reboots(last);
    if job.replaced.None? then
      match result
      case Failed => !restarted
      case Done => restarted && PolledNode(env, last + 1, now, name, Ready)
      case Dead => restarted && PolledNode(env, last + 1, now, name, NodeGone)
      case GoOn => false
    else
      var r := ReplaceCall(env, job.replaced.value, minSize, name, polls);
      var back := r.outcome == Replaced || r.outcome == Refused;
      match result
      case Failed => back && !ShowsReady(env, r.next)
      case Done => back && ShowsReady(env, r.next)
      case Dead => r.outcome == Died
      case GoOn => r.outcome == Stuck
  }

  // All that a job asks for is its replacement's.
  ghost function JobRequests(env: Environment, minSize: int, name: string, polls: nat, job: Job): seq<Request> {
    if job.replaced.None? then [] else ReplaceCall(env, job.replaced.value, minSize, name, polls).requests
  }

  lemma DecidingIff(env: Environment, t: nat, minSize: int, name: string, polls: nat)
    ensures var r := ReplaceCall(env, t, minSize, name, polls);
      Deciding(env, t, minSize, name, polls).Some? <==>
        (r.outcome == Replaced || r.outcome == Refused) && ShowsReady(env, r.next)
  {
    FirstReadyIs(env, ReplaceCall(env, t, minSize, name, polls).next, MAX_LISTINGS);
  }

  class Controller {
    const client: Client
    const minSize: int
    var enqueueMap: set<string>
    var queue: seq<string>
    // The state of the atomic steps that these fields are part of, and the steps taken so far.
    ghost var state: Steps.State
    ghost var taken: seq<Steps.Step>

    // Every object is in a state that the atomic steps reach, so all that holds of those holds of it.
    ghost predicate Valid()
      reads this
    {
      state.enqueueMap == enqueueMap && state.queue == queue && state == Steps.Run(Steps.Start(), taken)
    }

    constructor (client: Client, minSize: int)
      ensures Valid() && taken == [] && this.client == client && this.minSize == minSize
    {
      this.client, this.minSize := client, minSize;
      enqueueMap, queue, state, taken := {}, [], Steps.Start(), [];
    }

    // The outcome of a check or of an action on the outside: no mark and no queue entry changes.
    ghost method Note(step: Steps.Step)
      requires Valid() && !step.Observe? && !step.InformerClears? && !step.Take? && !step.WorkerClears?
      modifies this`state, this`taken
      ensures Valid() && state == Steps.Next(old(state), step) && taken == old(taken) + [step]
    {
      state := Steps.Next(state, step);
      taken := taken + [step];
      assert taken[..|taken| - 1] == old(taken);
    }

    // The informer's section under the lock.
    method Observe(name: string, tooLong: bool)
      requires Valid() && state.informer.Idle?
      modifies this`enqueueMap, this`queue, this`state, this`taken
      ensures Valid() && state == Steps.Next(old(state), Steps.Observe(name, tooLong))
      ensures taken == old(taken) + [Steps.Observe(name, tooLong)]
      ensures enqueueMap == old(enqueueMap) + if tooLong then {name} else {}
      ensures queue == old(queue) + if tooLong && name !in old(enqueueMap) then [name] else []
    {
      state := Steps.Next(state, Steps.Observe(name, tooLong));
      taken := taken + [Steps.Observe(name, tooLong)];
      assert taken[..|taken| - 1] == old(taken);
      if tooLong {
        if name !in enqueueMap {
          queue := queue + [name];
          enqueueMap := enqueueMap + {name};
        }
      }
    }

    // The removal of a mark, by the informer or by the worker.
    method Unmark(name: string, ghost step: Steps.Step)
      requires Valid()
      requires (step.InformerClears? && state.informer == Steps.Clearing(name))
            || (step.WorkerClears? && state.worker == Steps.Unmarking(name))
      modifies this`enqueueMap, this`state, this`taken
      ensures Valid() && state == Steps.Next(old(state), step) && taken == old(taken) + [step]
      ensures enqueueMap == old(enqueueMap) - {name}
    {
      state := Steps.Next(state, step);
      taken := taken + [step];
      assert taken[..|taken| - 1] == old(taken);
      enqueueMap := enqueueMap - {name};
    }

    method TakeItem() returns (name: string)
      requires Valid() && state.worker.Resting? && queue != []
      modifies this`queue, this`state, this`taken
      ensures Valid() && name == old(queue)[0] && queue == old(queue)[1..]
      ensures state == Steps.Next(old(state), Steps.Take) && taken == old(taken) + [Steps.Take]
    {
      name := queue[0];
      state := Steps.Next(state, Steps.Take);
      taken := taken + [Steps.Take];
      assert taken[..|taken| - 1] == old(taken);
      queue := queue[1..];
    }

    /** The informer's handler: enqueue under the lock, then poll the node and remove its mark if ready. */
    method HandleUpdate(node: Node, now: int) returns (result: RepairResult)
      requires Valid() && state.informer.Idle?
      modifies this`enqueueMap, this`queue, this`state, this`taken, client`clock
      ensures Valid() && old(taken) <= taken
      ensures result != Dead ==> state.informer.Idle?
      ensures queue == old(queue) +
        if NotReadyForTooLong(node, now) && node.name !in old(enqueueMap) then [node.name] else []
      ensures result == Done ==> enqueueMap == old(enqueueMap) - {node.name}
      ensures result != Done ==>
        enqueueMap == old(enqueueMap) + if NotReadyForTooLong(node, now) then {node.name} else {}
      ensures result != GoOn
      ensures PolledNode(client.env, old(client.clock), client.clock, node.name,
                         match result case Done => Ready case Dead => NodeGone case _ => NotReady)
    {
      var tooLong := IsNodeNotReadyForTooLong(node, now);
      Observe(node.name, tooLong);
      var verdict := CheckNodeReadyStatusAfterRepairing(client, node.name);
      if verdict == NodeGone {
        return Dead;
      }
      Note(Steps.InformerVerdict(verdict == Ready));
      if verdict != Ready {
        return Failed;
      }
      Unmark(node.name, Steps.InformerClears);
      return Done;
    }

    // The worker's job is over: the mark is gone if the node was seen ready and stays otherwise.
    ghost predicate JobOver(result: RepairResult, name: string, before: set<string>)
      reads this
    {
      && (result == Done ==> state.worker.Resting? && enqueueMap == before - {name})
      && (result == Failed ==> state.worker.Resting?)
      && (result != Done ==> enqueueMap == before)
    }

    /** One reboot and the check after it. */
    method TryReboot(name: string) returns (result: RepairResult)
      requires Valid() && state.worker.Rebooting? && state.worker.name == name
      modifies this`enqueueMap, this`state, this`taken, client`clock
      ensures Valid() && old(taken) <= taken
      ensures JobOver(result, name, old(enqueueMap))
      ensures result == GoOn ==> state.worker == var k := old(state).worker.reboots + 1;
        if k < Steps.MAX_REBOOT_RETRY then Steps.Rebooting(name, k) else Steps.Replacing(name)
      ensures client.clock > old(client.clock)
      ensures result == Failed <==> !(client.env.connects(old(client.clock)) && client.env.reboots(old(client.clock)))
      ensures result != Failed ==> PolledNode(client.env, old(client.clock) + 1, client.clock, name,
                                              match result case Done => Ready case Dead => NodeGone case _ => NotReady)
    {
      var connected, rebooted := client.RebootVM(name);
      Note(Steps.Reboot(rebooted));
      if !rebooted {
        return Failed;
      }
      var verdict := CheckNodeReadyStatusAfterRepairing(client, name);
      if verdict == NodeGone {
        return Dead;
      }
      Note(Steps.RebootVerdict(verdict == Ready));
      if verdict != Ready {
        return GoOn;
      }
      Unmark(name, Steps.WorkerClears);
      return Done;
    }

    /** The replacement and the check after it; what the replacement reports is not looked at. The portal
        is asked for anything only here: once three reboots have been made and have not helped. */
    method TryReplace(name: string, polls: nat) returns (result: RepairResult)
      requires Valid() && state.worker == Steps.Replacing(name)
      modifies this`enqueueMap, this`state, this`taken, client
      ensures Valid() && old(taken) + [Steps.Replace] <= taken
      ensures JobOver(result, name, old(enqueueMap))
      ensures client.requests == old(client.requests)
        + ReplaceCall(client.env, old(client.clock), minSize, name, polls).requests
      ensures OnlyReplaces(client.requests, |old(client.requests)|, name)
      ensures var k := Deciding(client.env, old(client.clock), minSize, name, polls);
        && (result == Done <==> k.Some?) && (k.Some? ==> client.clock == k.value + 1)
      ensures name in old(enqueueMap) ==> (name !in enqueueMap <==> result == Done)
      ensures var outcome := ReplaceCall(client.env, old(client.clock), minSize, name, polls).outcome;
        (result == GoOn <==> outcome == Stuck) && (result == Dead <==> outcome == Died)
    {
      hide ReplaceCall, ScaleUpCall, ScaleDownCall;
      Note(Steps.Replace);
      ReplacementOnlyReplaces(client.requests, client.env, client.clock, minSize, name, polls);
      var outcome, isNodeReady := ReplaceAndCheck(client, minSize, name, polls);
      if outcome == Died {
        return Dead;
      }
      if outcome == Stuck {
        return GoOn;
      }
      Note(Steps.ReplaceVerdict(isNodeReady));
      if !isNodeReady {
        return Failed;
      }
      Unmark(name, Steps.WorkerClears);
      return Done;
    }

    /** The worker's job: up to three reboots, then one replacement. */
    method HandleNotReadyNode(name: string, polls: nat) returns (result: RepairResult, ghost job: Job)
      requires Valid() && state.worker == Steps.Rebooting(name, 0)
      modifies this`enqueueMap, this`state, this`taken, client
      ensures Valid() && old(taken) <= taken
      ensures JobOver(result, name, old(enqueueMap))
      ensures IsJob(client.env, old(client.clock), name, job)
      ensures JobEnds(client.env, minSize, name, polls, job, result, client.clock)
      ensures client.requests == old(client.requests) + JobRequests(client.env, minSize, name, polls, job)
      ensures OnlyReplaces(client.requests, |old(client.requests)|, name)
      ensures job.replaced.Some? ==> ReplaceTaken(taken, |old(taken)|)
    {
      hide PolledNode, ReplaceCall, IsJob;
      FirstReboot(client.env, client.clock, name);
      job := Job([client.clock], None);
      var i := 0;
      while i < Steps.MAX_REBOOT_RETRY
        invariant 0 <= i <= Steps.MAX_REBOOT_RETRY
        invariant Valid() && old(taken) <= taken && enqueueMap == old(enqueueMap)
        invariant state.worker == if i < Steps.MAX_REBOOT_RETRY then Steps.Rebooting(name, i) else Steps.Replacing(name)
        invariant client.requests == old(client.requests)
        invariant IsJob(client.env, old(client.clock), name, job)
        invariant i < 3 ==> job.replaced.None? && |job.reboots| == i + 1 && job.reboots[i] == client.clock
        invariant i == 3 ==> job.replaced == Some(client.clock)
      {
        ghost var t := client.clock;
        result := TryReboot(name);
        if result != GoOn {
          return;
        }
        i := i + 1;
        OneMoreReboot(client.env, old(client.clock), name, job, client.clock);
        job := if i < 3 then Job(job.reboots + [client.clock], None) else Job(job.reboots, Some(client.clock));
      }
      ghost var before, t := taken, client.clock;
      result := TryReplace(name, polls);
      DecidingIff(client.env, t, minSize, name, polls);
      ReplaceIsTaken(before, taken, |old(taken)|);
    }

    /** Takes an item from the queue and handles it; false, which ends the worker's loop, unless its job is done. */
    method ProcessItem(polls: nat) returns (again: bool, ghost result: RepairResult, ghost job: Job)
      requires Valid() && state.worker.Resting? && queue != []
      modifies this`enqueueMap, this`queue, this`state, this`taken, client
      ensures Valid() && old(taken) <= taken && queue == old(queue)[1..]
      ensures again == (result == Done)
      ensures JobOver(result, old(queue)[0], old(enqueueMap))
      ensures IsJob(client.env, old(client.clock), old(queue)[0], job)
      ensures JobEnds(client.env, minSize, old(queue)[0], polls, job, result, client.clock)
      ensures client.requests == old(client.requests) + JobRequests(client.env, minSize, old(queue)[0], polls, job)
    {
      var name := TakeItem();
      var over;
      over, job := HandleNotReadyNode(name, polls);
      result := over;
      again := over == Done;
    }
  }

  lemma FirstReboot(env: Environment, start: nat, name: string)
    ensures IsJob(env, start, name, Job([start], None))
  {
  }

  lemma OneMoreReboot(env: Environment, start: nat, name: string, job: Job, now: nat)
    requires IsJob(env, start, name, job) && job.replaced.None?
    requires InVain(env, name, job.reboots[|job.reboots| - 1], now)
    ensures |job.reboots| < 3 ==> IsJob(env, start, name, Job(job.reboots + [now], None))
    ensures |job.reboots| == 3 ==> IsJob(env, start, name, Job(job.reboots, Some(now)))
  {
    var more := job.reboots + [now];
    assert forall k :: 0 <= k < |job.reboots| ==> more[k] == job.reboots[k];
  }
}
