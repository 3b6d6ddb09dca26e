/**
  The batch repairer (core/util.go and core/static_autorepair.go): the recursion over the unhealthy
  nodes, and the loop iteration that confirms them.
 */
module BatchRepair {
  import opened BlockingCalls
  import opened Nodes
  import opened Portal
  import opened RepairRounds
  import opened Selections

  // ---------------------------------------------------------------- common nodes

  predicate Named(nodes: seq<Node>, name: string) { exists n :: n in nodes && n.name == name }

  method ContainsNode(node: Node, nodeList: seq<Node>) returns (found: bool)
    ensures found == Named(nodeList, node.name)
  {
    for i := 0 to |nodeList|
      invariant !Named(nodeList[..i], node.name)
    {
      if node.name == nodeList[i].name {
        return true;
      }
    }
    return false;
  }

  // The nodes of the first list whose name is in the second, in order.
  function Common(a: seq<Node>, b: seq<Node>): (r: seq<Node>)
    ensures forall n :: n in r <==> n in a && Named(b, n.name)
  {
    Filtered(a, (n: Node) => Named(b, n.name))
  }

  lemma CommonSelects(a: seq<Node>, b: seq<Node>) returns (at: seq<nat>)
    ensures Selects(a, (n: Node) => Named(b, n.name), Same, at, Common(a, b))
  {
    at := FilteredSelects(a, (n: Node) => Named(b, n.name));
  }

  method CommonNodes(nodeList1: seq<Node>, nodeList2: seq<Node>) returns (common: seq<Node>)
    ensures common == Common(nodeList1, nodeList2)
  {
    ghost var p := (n: Node) => Named(nodeList2, n.name);
    common := [];
    for i := 0 to |nodeList1|
      invariant common == Common(nodeList1[..i], nodeList2)
    {
      assert nodeList1[..i + 1][..i] == nodeList1[..i];
      var found := ContainsNode(nodeList1[i], nodeList2);
      if found {
        common := common + [nodeList1[i]];
      }
    }
    assert nodeList1[..|nodeList1|] == nodeList1;
  }

  // ---------------------------------------------------------------- the recursion

  // A look at the cluster at time t, and at the configuration right after, shows room to grow.
  predicate HasRoom(env: Environment, t: nat) { |WorkerNames(env.listing(t))| < env.maxSize(t + 1) }

  // A look at time t shows more workers than the maximum allows.
  predicate Overfull(env: Environment, t: nat) { |WorkerNames(env.listing(t))| > env.maxSize(t + 1) }

  // A create-first round at time t finds room at its first look and more than its maximum at its second.
  predicate LooksClash(env: Environment, t: nat) { HasRoom(env, t) && Overfull(env, t + 2) }

  // It finds room at its first look and exactly none at its second.
  predicate Stalls(env: Environment, t: nat) { HasRoom(env, t) && !HasRoom(env, t + 2) && !Overfull(env, t + 2) }

  function StalledRounds(env: Environment, looks: seq<nat>): nat {
    if looks == [] then 0 else (if Stalls(env, looks[0]) then 1 else 0) + StalledRounds(env, looks[1..])
  }

  // A cluster of at most two workers that another hand takes from one to three at time 2.
  function Crowded(worker: string): Environment {
    STILL.(maxSize := _ => 2,
           listing := t => if t < 2 then [Bare(worker)] else [Bare(worker), Bare(worker + "2"), Bare(worker + "3")])
  }

  // Looks may clash.
  lemma LooksMayClash() returns (worker: string)
    ensures IsWorker(worker) && LooksClash(Crowded(worker), 0)
  {
    var master;
    worker, master := WorkerOrNot();
    WorkerStays(worker, "2");
    WorkerStays(worker, "3");
    var three := [Bare(worker), Bare(worker + "2"), Bare(worker + "3")];
    assert three == [Bare(worker)] + ([Bare(worker + "2")] + [Bare(worker + "3")]);
    WorkerNamesConcat([Bare(worker)], [Bare(worker + "2")] + [Bare(worker + "3")]);
    WorkerNamesConcat([Bare(worker + "2")], [Bare(worker + "3")]);
    OneName(worker);
    OneName(worker + "2");
    OneName(worker + "3");
  }

  /** A look: how many workers there are, and how many there may be. */
  method Look(c: Client) returns (desiredSize: int, maxSize: int)
    modifies c`clock
    ensures c.clock == old(c.clock) + 2
    ensures desiredSize == WorkersListed(c.env, old(c.clock)) && maxSize == c.env.maxSize(old(c.clock) + 1)
  {
    var nodes := c.ListNodes();
    var names;
    desiredSize, names := WorkerNodeCount(nodes);
    maxSize := c.GetMaxSizeNodeGroup();
  }

  // How many nodes a create-first round takes on, from a look at time t: negative if that shows too many workers.
  function ExpandSize(env: Environment, t: nat, nodes: seq<Node>): (size: int)
    ensures size <= |nodes|
    ensures WorkerNames(nodes) != [] ==> (size > 0 <==> HasRoom(env, t)) && (size < 0 <==> Overfull(env, t))
  {
    Min(|WorkerNames(nodes)|, env.maxSize(t + 1) - WorkersListed(env, t))
  }

  method CalcExpandSize(c: Client, toBeRepairedNodes: seq<Node>) returns (effectiveIncreaseSize: int)
    modifies c`clock
    ensures c.clock == old(c.clock) + 2
    ensures effectiveIncreaseSize == ExpandSize(c.env, old(c.clock), toBeRepairedNodes)
  {
    var desiredSize, maxSize := Look(c);
    var desiredIncreaseSize, _ := WorkerNodeCount(toBeRepairedNodes);
    var allowableIncreaseSize := maxSize - desiredSize;
    if allowableIncreaseSize >= desiredIncreaseSize {
      effectiveIncreaseSize := desiredIncreaseSize;
    } else {
      effectiveIncreaseSize := allowableIncreaseSize;
    }
  }

  // ---------------------------------------------------------------- the recursion, as a function of the environment

  // What a round does: the nodes it takes on, or a negative number, the round as such, and where it leads.
  datatype Step = Step(size: int, round: Round, now: State)

  ghost function DeleteFirst(env: Environment, s: State, batch: seq<Node>): Step {
    var deleted := Delete(env, s, batch);
    var done := Increase(env, deleted, 1);
    Step(1, Round(true, batch, done.workers - deleted.workers, Removing(env, s, batch)), done)
  }

  ghost function CreateFirst(env: Environment, s: State, batch: seq<Node>): Step {
    var increased := Increase(env, s, |batch|);
    Step(|batch|, Round(false, batch, increased.workers - s.workers, Removing(env, increased, batch)),
         Delete(env, increased, batch))
  }

  // The round that begins in state s.
  ghost function NextStep(env: Environment, s: State, nodes: seq<Node>): (step: Step)
    requires WorkerNames(nodes) != []
    ensures step.size <= |nodes| && (step.size >= 0 ==> step.round.batch == nodes[..step.size])
    ensures (step.size < 0 <==> LooksClash(env, s.time)) && (step.size == 0 <==> Stalls(env, s.time))
  {
    if !HasRoom(env, s.time) then DeleteFirst(env, s.(time := s.time + 2), nodes[..1])
    else
      var size := ExpandSize(env, s.time + 2, nodes);
      if size < 0 then Step(size, Round(false, [], {}, 0), s.(time := s.time + 4))
      else CreateFirst(env, s.(time := s.time + 4), nodes[..size])
  }

  // Panicked: a slice bound was negative. StillRunning: the observed number of rounds was used up.
  datatype Outcome = Repaired | Panicked | StillRunning

  // A repair: how it ends and where, its rounds, the nodes left, and the times at which its rounds began.
  datatype Repair = Repair(outcome: Outcome, now: State, run: seq<Round>, rest: seq<Node>, looks: seq<nat>)

  /** The whole repair, for any environment. The source recurses without a bound; `rounds` is how many of its
      rounds are observed. */
  ghost function RepairFrom(env: Environment, s: State, nodes: seq<Node>, rounds: nat): Repair
    decreases rounds, |nodes|
  {
    if WorkerNames(nodes) == [] then Repair(Repaired, s.(time := s.time + 2), [], nodes, [])
    else if rounds == 0 then Repair(StillRunning, s.(time := s.time + 2), [], nodes, [])
    else
      var step := NextStep(env, s, nodes);
      if step.size < 0 then Repair(Panicked, step.now, [], nodes, [s.time])
      else
        var later := RepairFrom(env, step.now, nodes[step.size..], rounds - 1);
        later.(run := [step.round] + later.run, looks := [s.time] + later.looks)
  }

  lemma RepairUnfolds(env: Environment, s: State, nodes: seq<Node>, rounds: nat)
    requires WorkerNames(nodes) != [] && rounds > 0
    ensures var step := NextStep(env, s, nodes);
      if step.size < 0 then RepairFrom(env, s, nodes, rounds) == Repair(Panicked, step.now, [], nodes, [s.time])
      else
        var later := RepairFrom(env, step.now, nodes[step.size..], rounds - 1);
        RepairFrom(env, s, nodes, rounds)
          == later.(run := [step.round] + later.run, looks := [s.time] + later.looks)
  {
    hide NextStep;
  }

  lemma RepairIsOver(env: Environment, s: State, nodes: seq<Node>, rounds: nat)
    requires WorkerNames(nodes) == [] || rounds == 0
    ensures RepairFrom(env, s, nodes, rounds) ==
      Repair(if WorkerNames(nodes) == [] then Repaired else StillRunning, s.(time := s.time + 2), [], nodes, [])
  {
    hide NextStep;
  }

  // ---------------------------------------------------------------- the code

  method DeleteThenCreate(c: Client, batch: seq<Node>)
    requires |batch| == 1
    modifies c
    ensures c.Now() == DeleteFirst(c.env, old(c.Now()), batch).now
  {
    DeleteNodes(c, batch);
    IncreaseSize(c, 1);
  }

  method CreateThenDelete(c: Client, batch: seq<Node>)
    modifies c
    ensures c.Now() == CreateFirst(c.env, old(c.Now()), batch).now
  {
    IncreaseSize(c, |batch|);
    DeleteNodes(c, batch);
  }

  /** One round, after its first look: delete-first at the maximum, create-first below it. A negative size is
      a slice bound out of range, and then nothing is done. */
  method RepairRound(c: Client, nodes: seq<Node>, desiredSize: int, maxSize: int, ghost s: State) returns (incSize: int)
    requires WorkerNames(nodes) != []
    requires c.Now() == s.(time := s.time + 2) && HasRoom(c.env, s.time) == (desiredSize < maxSize)
    modifies c
    ensures incSize == NextStep(c.env, s, nodes).size && c.Now() == NextStep(c.env, s, nodes).now
  {
    hide Increase, Delete;
    incSize := 1;
    if desiredSize >= maxSize {
      DeleteThenCreate(c, nodes[0..incSize]);
    } else {
      incSize := CalcExpandSize(c, nodes);
      if incSize < 0 {
        return;
      }
      CreateThenDelete(c, nodes[0..incSize]);
    }
  }

  method AsgRepairNodes(c: Client, toBeRepairedNodes: seq<Node>, rounds: nat) returns (outcome: Outcome)
    modifies c
    decreases rounds
    ensures var r := RepairFrom(c.env, old(c.Now()), toBeRepairedNodes, rounds);
      outcome == r.outcome && c.Now() == r.now
  {
    hide NextStep, RepairFrom;
    ghost var s := c.Now();
    var desiredSize, maxSize := Look(c);
    var toBeRepairedNodesSize, namesToRepair := WorkerNodeCount(toBeRepairedNodes);
    if toBeRepairedNodesSize == 0 {
      RepairIsOver(c.env, s, toBeRepairedNodes, rounds);
      return Repaired;
    }
    if rounds == 0 {
      RepairIsOver(c.env, s, toBeRepairedNodes, rounds);
      return StillRunning;
    }
    RepairUnfolds(c.env, s, toBeRepairedNodes, rounds);
    var incSize := RepairRound(c, toBeRepairedNodes, desiredSize, maxSize, s);
    if incSize < 0 {
      return Panicked;
    }
    outcome := AsgRepairNodes(c, toBeRepairedNodes[incSize..], rounds - 1);
  }

  // ---------------------------------------------------------------- what is asked for, in any environment

  ghost predicate SafeRequests(requests: seq<Request>, from: nat, nodes: seq<Node>) {
    forall i :: from <= i < |requests| ==>
      match requests[i]
      case ScaleUp(count) => 1 <= count <= |nodes|
      case ScaleDown(names) => forall name :: name in names ==> name in WorkerNames(nodes)
  }

  lemma SafeInside(requests: seq<Request>, from: nat, part: seq<Node>, nodes: seq<Node>)
    requires SafeRequests(requests, from, part)
    requires |part| <= |nodes| && forall name :: name in WorkerNames(part) ==> name in WorkerNames(nodes)
    ensures SafeRequests(requests, from, nodes)
  {
  }

  lemma IncreaseIsSafe(env: Environment, s: State, nodes: seq<Node>, incSize: int)
    requires incSize <= |nodes|
    ensures s.requests <= Increase(env, s, incSize).requests
    ensures SafeRequests(Increase(env, s, incSize).requests, |s.requests|, nodes)
  {
    IncreaseIsBounded(env, s, incSize);
  }

  lemma DeleteIsSafe(env: Environment, s: State, nodes: seq<Node>)
    ensures s.requests <= Delete(env, s, nodes).requests
    ensures SafeRequests(Delete(env, s, nodes).requests, |s.requests|, nodes)
  {
    DeleteIsBounded(env, s, nodes);
  }

  lemma SafeInARow(before: seq<Request>, between: seq<Request>, now: seq<Request>, nodes: seq<Node>)
    requires before <= between <= now
    requires SafeRequests(between, |before|, nodes) && SafeRequests(now, |between|, nodes)
    ensures SafeRequests(now, |before|, nodes)
  {
    assert forall i :: 0 <= i < |between| ==> now[i] == between[i];
  }

  // What is true of a round in any environment, from the requests before and after it.
  ghost predicate Handled(before: seq<Request>, now: seq<Request>, nodes: seq<Node>, run: seq<Round>) {
    before <= now && SafeRequests(now, |before|, nodes) && Downs(now) == Downs(before) + Removals(run)
  }

  lemma HandledRound(before: seq<Request>, now: seq<Request>, r: Round)
    requires before <= now && SafeRequests(now, |before|, r.batch)
    requires Downs(now) == Downs(before) + Copies(r.removals, WorkerNames(r.batch))
    ensures Handled(before, now, r.batch, [r])
  {
    assert [r][1..] == [];
    assert Removals([r]) == Copies(r.removals, WorkerNames(r.batch)) + [];
  }

  lemma DeleteFirstHandled(env: Environment, s: State, batch: seq<Node>)
    requires |batch| == 1
    ensures var step := DeleteFirst(env, s, batch);
      Handled(s.requests, step.now.requests, step.round.batch, [step.round])
  {
    hide Increase, Delete;
    var step, deleted := DeleteFirst(env, s, batch), Delete(env, s, batch);
    DeleteIsSafe(env, s, batch);
    DeleteHandsOver(env, s, batch);
    IncreaseIsSafe(env, deleted, batch, 1);
    IncreaseHasNoDowns(env, deleted, 1);
    SafeInARow(s.requests, deleted.requests, step.now.requests, batch);
    HandledRound(s.requests, step.now.requests, step.round);
  }

  lemma CreateFirstHandled(env: Environment, s: State, batch: seq<Node>)
    ensures var step := CreateFirst(env, s, batch);
      Handled(s.requests, step.now.requests, step.round.batch, [step.round])
  {
    hide Increase, Delete;
    var step, increased := CreateFirst(env, s, batch), Increase(env, s, |batch|);
    IncreaseIsSafe(env, s, batch, |batch|);
    IncreaseHasNoDowns(env, s, |batch|);
    DeleteIsSafe(env, increased, batch);
    DeleteHandsOver(env, increased, batch);
    SafeInARow(s.requests, increased.requests, step.now.requests, batch);
    HandledRound(s.requests, step.now.requests, step.round);
  }

  lemma StepHandled(env: Environment, s: State, nodes: seq<Node>)
    requires WorkerNames(nodes) != [] && NextStep(env, s, nodes).size >= 0
    ensures var step := NextStep(env, s, nodes);
      Handled(s.requests, step.now.requests, step.round.batch, [step.round])
  {
    hide CreateFirst, DeleteFirst, Handled;
    if HasRoom(env, s.time) {
      CreateFirstHandled(env, s.(time := s.time + 4), nodes[..ExpandSize(env, s.time + 2, nodes)]);
    } else {
      DeleteFirstHandled(env, s.(time := s.time + 2), nodes[..1]);
    }
  }

  // Requests of a round and of the rounds after it.
  lemma SafeTogether(before: seq<Request>, between: seq<Request>, now: seq<Request>, nodes: seq<Node>, k: nat)
    requires k <= |nodes| && before <= between <= now
    requires SafeRequests(between, |before|, nodes[..k]) && SafeRequests(now, |between|, nodes[k..])
    ensures SafeRequests(now, |before|, nodes)
  {
    SplitNames(nodes, k);
    SafeInside(between, |before|, nodes[..k], nodes);
    SafeInside(now, |between|, nodes[k..], nodes);
    assert forall i :: 0 <= i < |between| ==> now[i] == between[i];
  }

  lemma HandledTogether(before: seq<Request>, between: seq<Request>, now: seq<Request>, nodes: seq<Node>,
                        r: Round, run: seq<Round>)
    requires r.batch <= nodes && Handled(before, between, r.batch, [r])
    requires Handled(between, now, nodes[|r.batch|..], run)
    ensures Handled(before, now, nodes, [r] + run)
  {
    assert nodes[..|r.batch|] == r.batch;
    SafeTogether(before, between, now, nodes, |r.batch|);
    var all := [r] + run;
    assert all[0] == r && all[1..] == run && [r][0] == r && [r][1..] == [];
    var copies := Copies(r.removals, WorkerNames(r.batch));
    assert Removals([r]) == copies + [] == copies;
    assert (Downs(before) + copies) + Removals(run) == Downs(before) + (copies + Removals(run));
  }

  /** In any environment: every scale-down names only workers among the nodes, the scale-downs are those of
      the batches, in order and as often as each asks, and the batches split the list. */
  lemma {:induction false} RepairIsHandled(env: Environment, s: State, nodes: seq<Node>, rounds: nat)
    ensures var r := RepairFrom(env, s, nodes, rounds);
      && Handled(s.requests, r.now.requests, nodes, r.run)
      && Splits(nodes, r.run, r.rest) && (r.outcome == Repaired ==> WorkerNames(r.rest) == [])
    decreases rounds
  {
    hide NextStep, Handled, Splits;
    NothingHandled(s.requests, nodes);
    if WorkerNames(nodes) != [] && rounds > 0 {
      var step := NextStep(env, s, nodes);
      if step.size < 0 {
        ClashAsksNothing(env, s, nodes);
      } else {
        var left := nodes[step.size..];
        var later := RepairFrom(env, step.now, left, rounds - 1);
        StepHandled(env, s, nodes);
        RepairIsHandled(env, step.now, left, rounds - 1);
        HandledTogether(s.requests, step.now.requests, later.now.requests, nodes, step.round, later.run);
        SplitsTogether(nodes, step.round, later.run, later.rest);
      }
    }
  }

  lemma NothingHandled(requests: seq<Request>, nodes: seq<Node>)
    ensures Handled(requests, requests, nodes, []) && Splits(nodes, [], nodes)
  {
  }

  lemma ClashAsksNothing(env: Environment, s: State, nodes: seq<Node>)
    requires WorkerNames(nodes) != [] && NextStep(env, s, nodes).size < 0
    ensures NextStep(env, s, nodes).now == s.(time := s.time + 4)
  {
  }

  // ---------------------------------------------------------------- how a repair ends

  /** A repair panics exactly if the looks of one of its rounds clash; and it takes no more rounds than there
      are nodes, and rounds that find no room at their second look. */
  lemma {:induction false} RepairIsExplained(env: Environment, s: State, nodes: seq<Node>, rounds: nat)
    ensures var r := RepairFrom(env, s, nodes, rounds);
      && (r.outcome == Panicked <==> exists t :: t in r.looks && LooksClash(env, t))
      && (r.outcome == StillRunning ==> rounds < |nodes| + StalledRounds(env, r.looks))
    decreases rounds
  {
    hide NextStep;
    if WorkerNames(nodes) != [] && rounds > 0 {
      var step := NextStep(env, s, nodes);
      if step.size < 0 {
        assert s.time in RepairFrom(env, s, nodes, rounds).looks;
      } else {
        var later := RepairFrom(env, step.now, nodes[step.size..], rounds - 1);
        RepairIsExplained(env, step.now, nodes[step.size..], rounds - 1);
        OneMoreLook(env, s.time, later.looks);
      }
    }
  }

  /** A repair that begins in the crowded cluster panics at its first round. */
  lemma RepairMayPanic() returns (env: Environment, s: State, nodes: seq<Node>)
    ensures Truthful(env.listing(s.time), s.workers) && Repairable(s.workers, nodes) && Tidy(nodes)
    ensures RepairFrom(env, s, nodes, 1).outcome == Panicked
  {
    hide Increase, Delete;
    var worker := LooksMayClash();
    env, s, nodes := Crowded(worker), State([], 0, {worker}, []), [Bare(worker)];
    OneName(worker);
    assert NextStep(env, s, nodes).size < 0;
  }

  lemma OneMoreLook(env: Environment, t: nat, looks: seq<nat>)
    ensures StalledRounds(env, [t] + looks) == (if Stalls(env, t) then 1 else 0) + StalledRounds(env, looks)
    ensures (exists u :: u in [t] + looks && LooksClash(env, u))
       <==> LooksClash(env, t) || exists u :: u in looks && LooksClash(env, u)
  {
    var all := [t] + looks;
    assert all[0] == t && all[1..] == looks;
    assert forall u :: u in all <==> u == t || u in looks;
  }

  // Round k of a repair, from the listings and the maximum: its first look at time t decides about its order, and
  // its second about its batch, a piece of what is left.
  ghost predicate IsRoundAt(env: Environment, t: nat, left: seq<Node>, r: Round) {
    var size, max, again, limit := |WorkerNames(env.listing(t))|, env.maxSize(t + 1),
                                   |WorkerNames(env.listing(t + 2))|, env.maxSize(t + 3);
    && r.batch <= left
    && (r.deleteFirst <==> size >= max)
    && (r.deleteFirst ==> |r.batch| == 1)
    && (!r.deleteFirst ==>
          |r.batch| == if limit - again >= |WorkerNames(left)| then |WorkerNames(left)| else limit - again)
  }

  ghost predicate AreRoundsAt(env: Environment, looks: seq<nat>, nodes: seq<Node>, run: seq<Round>)
    decreases |run|
  {
    run == [] || (&& looks != [] && IsRoundAt(env, looks[0], nodes, run[0])
                  && AreRoundsAt(env, looks[1..], nodes[|run[0].batch|..], run[1..]))
  }

  lemma StepIsRoundAt(env: Environment, s: State, nodes: seq<Node>)
    requires WorkerNames(nodes) != [] && NextStep(env, s, nodes).size >= 0
    ensures IsRoundAt(env, s.time, nodes, NextStep(env, s, nodes).round)
  {
    hide Increase, Delete;
  }

  /** In any environment: a round deletes first exactly if its first look shows no room, and takes one node then;
      otherwise it takes as many as there are workers left, or as its second look has room for. */
  lemma {:induction false} RepairIsOfRounds(env: Environment, s: State, nodes: seq<Node>, rounds: nat)
    ensures var r := RepairFrom(env, s, nodes, rounds);
      && AreRoundsAt(env, r.looks, nodes, r.run)
      && |r.looks| == |r.run| + if r.outcome == Panicked then 1 else 0
    decreases rounds
  {
    hide NextStep, IsRoundAt;
    if WorkerNames(nodes) != [] && rounds > 0 {
      var step := NextStep(env, s, nodes);
      if step.size >= 0 {
        var later := RepairFrom(env, step.now, nodes[step.size..], rounds - 1);
        StepIsRoundAt(env, s, nodes);
        RepairIsOfRounds(env, step.now, nodes[step.size..], rounds - 1);
        RoundsTogether(env, s.time, later.looks, nodes, step.round, later.run);
      }
    }
  }

  lemma RoundsTogether(env: Environment, t: nat, looks: seq<nat>, nodes: seq<Node>, r: Round, run: seq<Round>)
    requires IsRoundAt(env, t, nodes, r) && AreRoundsAt(env, looks, nodes[|r.batch|..], run)
    ensures AreRoundsAt(env, [t] + looks, nodes, [r] + run)
  {
    assert ([r] + run)[0] == r && ([r] + run)[1..] == run && ([t] + looks)[0] == t && ([t] + looks)[1..] == looks;
  }

  // From one state to the next, a round: removal and scale-up of one, or scale-up and removal of its batch.
  ghost predicate MovesBy(env: Environment, a: State, b: State, r: Round) {
    if r.deleteFirst then
      var deleted := Delete(env, a.(time := a.time + 2), r.batch);
      && b == Increase(env, deleted, 1)
      && r.created == b.workers - deleted.workers && r.removals == |deleted.requests| - |a.requests|
    else
      var increased := Increase(env, a.(time := a.time + 4), |r.batch|);
      && b == Delete(env, increased, r.batch)
      && r.created == increased.workers - a.workers && r.removals == |b.requests| - |increased.requests|
  }

  ghost predicate MoveBy(env: Environment, at: seq<State>, run: seq<Round>)
    requires |at| == |run| + 1
  {
    forall k :: 0 <= k < |run| ==> MovesBy(env, at[k], at[k + 1], run[k])
  }

  lemma StepMoves(env: Environment, s: State, nodes: seq<Node>)
    requires WorkerNames(nodes) != [] && NextStep(env, s, nodes).size >= 0
    ensures MovesBy(env, s, NextStep(env, s, nodes).now, NextStep(env, s, nodes).round)
  {
    hide Increase, Delete;
  }

  lemma MovesTogether(env: Environment, s: State, at: seq<State>, r: Round, run: seq<Round>)
    requires |at| == |run| + 1 && MovesBy(env, s, at[0], r) && MoveBy(env, at, run)
    ensures MoveBy(env, [s] + at, [r] + run)
  {
    hide MovesBy;
    var all, rounds := [s] + at, [r] + run;
    forall k | 0 <= k < |rounds| ensures MovesBy(env, all[k], all[k + 1], rounds[k]) {
      if k > 0 {
        assert all[k] == at[k - 1] && all[k + 1] == at[k] && rounds[k] == run[k - 1];
      }
    }
  }

  /** The recursion, call by call: each round makes its two calls in its order, for its batch, and nothing else is
      done; it ends well exactly if no worker is left, and is cut short only by the number of observed rounds. */
  lemma {:induction false} RepairTrace(env: Environment, s: State, nodes: seq<Node>, rounds: nat)
    returns (at: seq<State>)
    ensures var r := RepairFrom(env, s, nodes, rounds);
      && |at| == |r.run| + 1 && at[0] == s && MoveBy(env, at, r.run)
      && BeginAt(r.looks, at)
      && r.now == at[|r.run|].(time := at[|r.run|].time + if r.outcome == Panicked then 4 else 2)
      && (r.outcome == Repaired <==> WorkerNames(r.rest) == [])
      && (r.outcome == StillRunning ==> |r.run| == rounds)
    decreases rounds
  {
    hide NextStep, MoveBy, BeginAt, RepairFrom;
    at := [s];
    if WorkerNames(nodes) != [] && rounds > 0 {
      var step := NextStep(env, s, nodes);
      RepairUnfolds(env, s, nodes, rounds);
      if step.size >= 0 {
        var later := RepairFrom(env, step.now, nodes[step.size..], rounds - 1);
        var rest := RepairTrace(env, step.now, nodes[step.size..], rounds - 1);
        StepMoves(env, s, nodes);
        MovesTogether(env, s, rest, step.round, later.run);
        BeginTogether(s, later.looks, rest);
        at := [s] + rest;
      } else {
        ClashAsksNothing(env, s, nodes);
        NoMoves(env, s, [s.time]);
      }
    } else {
      RepairIsOver(env, s, nodes, rounds);
      NoMoves(env, s, []);
    }
  }

  // Each round begins with its first look.
  ghost predicate BeginAt(looks: seq<nat>, at: seq<State>) {
    |looks| + 1 >= |at| && forall k :: 0 <= k < |at| - 1 ==> looks[k] == at[k].time
  }

  lemma BeginTogether(s: State, looks: seq<nat>, at: seq<State>)
    requires at != [] && BeginAt(looks, at)
    ensures BeginAt([s.time] + looks, [s] + at)
  {
  }

  lemma NoMoves(env: Environment, s: State, looks: seq<nat>)
    ensures MoveBy(env, [s], []) && BeginAt(looks, [s])
  {
  }

  // ---------------------------------------------------------------- what becomes of the workers

  // A set of workers that a round passes through: while it creates, or at its end.
  ghost predicate OnTheWay(workers: set<string>, r: Round, p: set<string>) {
    Creating(workers, r) <= p <= Creating(workers, r) + r.created || p == After(workers, r)
  }

  ghost predicate OnTheWayOf(workers: set<string>, run: seq<Round>, p: set<string>)
    decreases |run|
  {
    run != [] && (OnTheWay(workers, run[0], p) || OnTheWayOf(After(workers, run[0]), run[1..], p))
  }

  // Since the first n, the workers have been where the run takes them, and nowhere else.
  ghost predicate Follows(points: seq<set<string>>, n: nat, workers: set<string>, run: seq<Round>) {
    forall i :: n <= i < |points| ==> OnTheWayOf(workers, run, points[i])
  }

  // Since the first n, the workers have been all that a round creates beside those it creates them to.
  ghost predicate Tops(points: seq<set<string>>, n: nat, workers: set<string>, r: Round) {
    Reaches(points, n, Creating(workers, r), Creating(workers, r) + r.created)
  }

  ghost predicate TopsAll(points: seq<set<string>>, n: nat, workers: set<string>, run: seq<Round>)
    decreases |run|
  {
    run == [] || (Tops(points, n, workers, run[0]) && TopsAll(points, n, After(workers, run[0]), run[1..]))
  }

  lemma {:induction false} TopsAllSince(points: seq<set<string>>, m: nat, n: nat, workers: set<string>, run: seq<Round>)
    requires n <= m && TopsAll(points, m, workers, run)
    ensures TopsAll(points, n, workers, run)
    decreases |run|
  {
    if run != [] {
      TopsAllSince(points, m, n, After(workers, run[0]), run[1..]);
    }
  }

  lemma TopsTogether(n: nat, between: seq<set<string>>, now: seq<set<string>>, workers: set<string>,
                     r: Round, run: seq<Round>)
    requires between <= now && n <= |between| && Tops(between, n, workers, r)
    requires TopsAll(now, |between|, After(workers, r), run)
    ensures TopsAll(now, n, workers, [r] + run)
  {
    var all := [r] + run;
    assert all[0] == r && all[1..] == run;
    TopsAllSince(now, |between|, n, After(workers, r), run);
    assert forall i :: 0 <= i < |between| ==> now[i] == between[i];
    assert Tops(now, n, workers, r);
  }

  // From one state to another a round is made.
  ghost predicate MakesRound(s: State, r: State, round: Round) {
    && r.workers == After(s.workers, round) && round.created !! Creating(s.workers, round)
    && Tops(r.points, |s.points|, s.workers, round)
    && s.points <= r.points && forall i :: |s.points| <= i < |r.points| ==> OnTheWay(s.workers, round, r.points[i])
  }

  lemma DeleteFirstRound(env: Environment, s: State, batch: seq<Node>)
    ensures MakesRound(s, DeleteFirst(env, s, batch).now, DeleteFirst(env, s, batch).round)
  {
    hide Increase, Delete;
    var deleted := Delete(env, s, batch);
    DeleteEffect(env, s, batch);
    IncreaseGrows(env, deleted, 1);
    assert forall i :: 0 <= i < |deleted.points| ==> Increase(env, deleted, 1).points[i] == deleted.points[i];
  }

  lemma CreateFirstRound(env: Environment, s: State, batch: seq<Node>)
    ensures MakesRound(s, CreateFirst(env, s, batch).now, CreateFirst(env, s, batch).round)
  {
    hide Increase, Delete;
    var increased := Increase(env, s, |batch|);
    IncreaseGrows(env, s, |batch|);
    DeleteEffect(env, increased, batch);
    assert forall i :: 0 <= i < |increased.points| ==> Delete(env, increased, batch).points[i] == increased.points[i];
  }

  lemma StepMakesRound(env: Environment, s: State, nodes: seq<Node>)
    requires WorkerNames(nodes) != [] && NextStep(env, s, nodes).size >= 0
    ensures MakesRound(s, NextStep(env, s, nodes).now, NextStep(env, s, nodes).round)
  {
    hide CreateFirst, DeleteFirst;
    if HasRoom(env, s.time) {
      CreateFirstRound(env, s.(time := s.time + 4), nodes[..ExpandSize(env, s.time + 2, nodes)]);
    } else {
      DeleteFirstRound(env, s.(time := s.time + 2), nodes[..1]);
    }
  }

  lemma FollowsTogether(n: nat, between: seq<set<string>>, now: seq<set<string>>, workers: set<string>,
                        r: Round, run: seq<Round>)
    requires between <= now
    requires forall i :: n <= i < |between| ==> OnTheWay(workers, r, between[i])
    requires Follows(now, |between|, After(workers, r), run)
    ensures Follows(now, n, workers, [r] + run)
  {
    var all := [r] + run;
    assert all[0] == r && all[1..] == run;
    forall i | n <= i < |now| ensures OnTheWayOf(workers, all, now[i]) {
      if i < |between| {
        assert now[i] == between[i];
      }
    }
  }

  /** In any environment the workers are where the rounds lead, and have been nowhere else on the way. */
  lemma {:induction false} RepairFollowsItsRun(env: Environment, s: State, nodes: seq<Node>, rounds: nat)
    ensures var r := RepairFrom(env, s, nodes, rounds);
      && r.now.workers == Final(s.workers, r.run)
      && s.points <= r.now.points && Follows(r.now.points, |s.points|, s.workers, r.run)
      && TopsAll(r.now.points, |s.points|, s.workers, r.run)
    decreases rounds
  {
    hide NextStep;
    if WorkerNames(nodes) != [] && rounds > 0 {
      var step := NextStep(env, s, nodes);
      if step.size < 0 {
        ClashAsksNothing(env, s, nodes);
      } else {
        var later := RepairFrom(env, step.now, nodes[step.size..], rounds - 1);
        StepMakesRound(env, s, nodes);
        RepairFollowsItsRun(env, step.now, nodes[step.size..], rounds - 1);
        FollowsTogether(|s.points|, step.now.points, later.now.points, s.workers, step.round, later.run);
        TopsTogether(|s.points|, step.now.points, later.now.points, s.workers, step.round, later.run);
        FinalTogether(s.workers, step.round, later.run);
      }
    }
  }

  lemma FinalTogether(workers: set<string>, r: Round, run: seq<Round>)
    ensures Final(workers, [r] + run) == Final(After(workers, r), run)
  {
    assert ([r] + run)[0] == r && ([r] + run)[1..] == run;
  }

  // A look at time t shows so many workers as there are, and the maximum.
  predicate TrueLook(env: Environment, t: nat, size: nat, limit: int) {
    WorkersListed(env, t) == size && env.maxSize(t + 1) == limit
  }

  /** All that the size results count on: each look of a round, and its second one, shows so many workers as
      there are, and the same maximum. The cluster may be busy for as long as it likes, report errors, refuse
      requests and grant them in part or twice. */
  ghost predicate LooksAreTrue(env: Environment, s: State, nodes: seq<Node>, rounds: nat, limit: int)
    decreases rounds
  {
    WorkerNames(nodes) != [] && rounds > 0 ==>
      && TrueLook(env, s.time, |s.workers|, limit)
      && (|s.workers| < limit ==> TrueLook(env, s.time + 2, |s.workers|, limit))
      && var step := NextStep(env, s, nodes);
         step.size >= 0 ==> LooksAreTrue(env, step.now, nodes[step.size..], rounds - 1, limit)
  }

  lemma StepShape(env: Environment, s: State, nodes: seq<Node>)
    requires WorkerNames(nodes) != [] && NextStep(env, s, nodes).size >= 0
    ensures var step := NextStep(env, s, nodes);
      && step.round.deleteFirst == !HasRoom(env, s.time)
      && step.size == if HasRoom(env, s.time) then ExpandSize(env, s.time + 2, nodes) else 1
  {
    hide Increase, Delete;
  }

  lemma StepIsRound(env: Environment, s: State, nodes: seq<Node>, limit: int)
    requires WorkerNames(nodes) != [] && TrueLook(env, s.time, |s.workers|, limit)
    requires |s.workers| < limit ==> TrueLook(env, s.time + 2, |s.workers|, limit)
    ensures NextStep(env, s, nodes).size > 0 && IsRound(s.workers, limit, nodes, NextStep(env, s, nodes).round)
  {
    hide NextStep;
    assert !LooksClash(env, s.time) && !Stalls(env, s.time);
    StepShape(env, s, nodes);
    StepMakesRound(env, s, nodes);
  }

  /** If looks are true, no slice is bad, every round takes on a node, and the rounds follow the protocol. */
  lemma {:induction false} RepairIsRun(env: Environment, s: State, nodes: seq<Node>, rounds: nat, limit: int)
    requires LooksAreTrue(env, s, nodes, rounds, limit)
    ensures var r := RepairFrom(env, s, nodes, rounds);
      && r.outcome != Panicked && (|nodes| <= rounds ==> r.outcome == Repaired)
      && (r.outcome == Repaired ==> IsRun(s.workers, limit, nodes, r.run))
    decreases rounds
  {
    hide NextStep;
    if WorkerNames(nodes) != [] && rounds > 0 {
      var step := NextStep(env, s, nodes);
      StepIsRound(env, s, nodes, limit);
      StepMakesRound(env, s, nodes);
      RepairIsRun(env, step.now, nodes[step.size..], rounds - 1, limit);
      var later := RepairFrom(env, step.now, nodes[step.size..], rounds - 1);
      if later.outcome == Repaired {
        RunGrows(s.workers, limit, nodes, step.round, later.run);
      }
    }
  }

  // ---------------------------------------------------------------- sizes

  // A point on the way is no larger than a set that is visited, and no smaller unless it is the start.
  lemma {:induction false} WayIsBounded(workers: set<string>, run: seq<Round>, p: set<string>, low: int, high: int)
    requires OnTheWayOf(workers, run, p) && low <= |workers| && SizesBetween(Visited(workers, run), 0, low, high)
    ensures low <= |p| <= high
    decreases |run|
  {
    var r, visited := run[0], Visited(workers, run);
    assert visited[0] == Halfway(workers, r) && visited[1] == After(workers, r);
    if OnTheWay(workers, r, p) {
      if p != After(workers, r) {
        SubsetSize(Creating(workers, r), p);
        SubsetSize(p, Creating(workers, r) + r.created);
      }
    } else {
      assert visited[2..] == Visited(After(workers, r), run[1..]);
      assert forall i :: 0 <= i < |visited[2..]| ==> visited[2..][i] == visited[i + 2];
      WayIsBounded(After(workers, r), run[1..], p, low, high);
    }
  }

  lemma WayIsBetween(points: seq<set<string>>, n: nat, workers: set<string>, run: seq<Round>, low: int, high: int)
    requires Follows(points, n, workers, run) && low <= |workers| && SizesBetween(Visited(workers, run), 0, low, high)
    ensures SizesBetween(points, n, low, high)
  {
    forall i | n <= i < |points| ensures low <= |points[i]| <= high {
      WayIsBounded(workers, run, points[i], low, high);
    }
  }

  // Points within a bound leave room for all that is created.
  lemma {:induction false} TopsFit(points: seq<set<string>>, n: nat, workers: set<string>, limit: int, nodes: seq<Node>,
                                   run: seq<Round>, bound: int)
    requires IsRun(workers, limit, nodes, run) && TopsAll(points, n, workers, run)
    requires |workers| <= bound && SizesBetween(points, n, 0, bound)
    ensures CreationsFit(workers, run, bound)
    decreases |run|
  {
    if run != [] {
      var r := run[0];
      var base := Creating(workers, r);
      SubsetSize(base, workers);
      assert |base + r.created| == |base| + |r.created| <= bound;
      SubsetSize(After(workers, r), base + r.created);
      TopsFit(points, n, After(workers, r), limit, nodes[|r.batch|..], run[1..], bound);
    }
  }

  // The sizes that a repair of so many workers takes a cluster of this size through.
  ghost predicate Envelope(now: State, n: nat, workers: set<string>, limit: int, toRepair: nat, run: seq<Round>) {
    var size, top := |workers|, Ceiling(|workers|, limit);
    && SizesBetween(now.points, n, 0, top + Overshoots(run) + Excess(run))
    && (SizesBetween(now.points, n, 0, top) <==> CreationsFit(workers, run, top))
    && (Complete(run) ==>
          && SizesBetween(now.points, n, size - 1, top)
          && |now.workers| == size
          && |run| == BatchesOf(toRepair, FullBatch(size, limit)))
  }

  /** Repairing listed current workers: the cluster stays within its maximum (or its initial size) exactly as
      long as what each round creates, over all its requests, fits; it never exceeds it by more than the nodes
      that should have been removed first and were not, and the workers that were created beyond what their
      rounds take on; and if every round gets just its workers and drops nothing,
      the cluster is never more than one worker short, ends as large as it began, and takes the rounds that
      full batches take. */
  lemma RepairEnvelope(env: Environment, s: State, nodes: seq<Node>, rounds: nat, limit: int)
    requires LooksAreTrue(env, s, nodes, rounds, limit) && Repairable(s.workers, nodes) && Tidy(nodes)
    requires RepairFrom(env, s, nodes, rounds).outcome == Repaired
    ensures var r := RepairFrom(env, s, nodes, rounds);
      Envelope(r.now, |s.points|, s.workers, limit, |WorkerNames(nodes)|, r.run)
  {
    hide RepairFrom, LooksAreTrue, Envelope, IsRun, Follows, TopsAll, Final;
    var r, top := RepairFrom(env, s, nodes, rounds), Ceiling(|s.workers|, limit);
    RepairIsRun(env, s, nodes, rounds, limit);
    RepairFollowsItsRun(env, s, nodes, rounds);
    RunEnvelope(r.now, |s.points|, s.workers, limit, nodes, r.run);
  }

  lemma FitStaysWithin(points: seq<set<string>>, n: nat, workers: set<string>, limit: int, nodes: seq<Node>,
                       run: seq<Round>, bound: int)
    requires IsRun(workers, limit, nodes, run) && Follows(points, n, workers, run)
    requires |workers| <= bound && CreationsFit(workers, run, bound)
    ensures SizesBetween(points, n, 0, bound)
  {
    hide Visited, Follows, CreationsFit, SizesBetween;
    WithinBoundIff(workers, limit, nodes, run, bound);
    WayIsBetween(points, n, workers, run, 0, bound);
  }

  lemma CeilingIff(points: seq<set<string>>, n: nat, workers: set<string>, limit: int, nodes: seq<Node>,
                   run: seq<Round>, bound: int)
    requires IsRun(workers, limit, nodes, run) && |workers| <= bound
    requires Follows(points, n, workers, run) && TopsAll(points, n, workers, run)
    ensures SizesBetween(points, n, 0, bound) <==> CreationsFit(workers, run, bound)
  {
    hide *;
    if CreationsFit(workers, run, bound) {
      FitStaysWithin(points, n, workers, limit, nodes, run, bound);
    }
    if SizesBetween(points, n, 0, bound) {
      TopsFit(points, n, workers, limit, nodes, run, bound);
    }
  }

  lemma CeilingBound(points: seq<set<string>>, n: nat, workers: set<string>, limit: int, nodes: seq<Node>,
                     run: seq<Round>, bound: int)
    requires IsRun(workers, limit, nodes, run) && Repairable(workers, nodes) && Tidy(nodes)
    requires Follows(points, n, workers, run) && |workers| <= bound && limit <= bound
    ensures SizesBetween(points, n, 0, bound + Overshoots(run) + Excess(run))
  {
    hide *;
    NeverAboveCapacity(workers, limit, nodes, run, bound);
    WayIsBetween(points, n, workers, run, 0, bound + Overshoots(run) + Excess(run));
  }

  lemma RunEnvelope(now: State, n: nat, workers: set<string>, limit: int, nodes: seq<Node>, run: seq<Round>)
    requires IsRun(workers, limit, nodes, run) && Repairable(workers, nodes) && Tidy(nodes)
    requires now.workers == Final(workers, run)
    requires Follows(now.points, n, workers, run) && TopsAll(now.points, n, workers, run)
    ensures Envelope(now, n, workers, limit, |WorkerNames(nodes)|, run)
  {
    hide Visited, Overshoots, Excess, Repairable, Tidy, Follows, TopsAll, CreationsFit, IsRun, SizesBetween;
    CeilingBound(now.points, n, workers, limit, nodes, run, Ceiling(|workers|, limit));
    CeilingIff(now.points, n, workers, limit, nodes, run, Ceiling(|workers|, limit));
    if Complete(run) {
      SizeEnvelope(workers, limit, nodes, run);
      WayIsBetween(now.points, n, workers, run, |workers| - 1, Ceiling(|workers|, limit));
      RoundCount(workers, limit, nodes, run);
    }
  }

  // Every call of a repair is made while the cluster is idle, and every scale-up brings just what it asks for.
  ghost predicate WellServed(env: Environment, s: State, nodes: seq<Node>, rounds: nat)
    decreases rounds
  {
    WorkerNames(nodes) != [] && rounds > 0 && NextStep(env, s, nodes).size >= 0 ==>
      && StepServed(env, s, nodes)
      && var step := NextStep(env, s, nodes);
         WellServed(env, step.now, nodes[step.size..], rounds - 1)
  }

  ghost predicate StepServed(env: Environment, s: State, nodes: seq<Node>)
    requires WorkerNames(nodes) != []
  {
    if !HasRoom(env, s.time) then
      env.status(s.time + 3) == Succeeded && Delivers(env, Delete(env, s.(time := s.time + 2), nodes[..1]), 1)
    else
      var looked, size := s.(time := s.time + 4), ExpandSize(env, s.time + 2, nodes);
      Delivers(env, looked, size) && env.status(Increase(env, looked, size).time + 1) == Succeeded
  }

  lemma ServedStep(env: Environment, s: State, nodes: seq<Node>)
    requires WorkerNames(nodes) != [] && NextStep(env, s, nodes).size >= 0 && StepServed(env, s, nodes)
    ensures var r := NextStep(env, s, nodes).round;
      |r.created| == |r.batch| && r.removals > 0
  {
    hide Increase, Delete, Removing, Delivers;
    if HasRoom(env, s.time) {
      DeliveredInFull(env, s.(time := s.time + 4), ExpandSize(env, s.time + 2, nodes));
    } else {
      DeliveredInFull(env, Delete(env, s.(time := s.time + 2), nodes[..1]), 1);
    }
  }

  /** Then every round gets its workers and removes its batch. */
  lemma {:induction false} ServedRunIsComplete(env: Environment, s: State, nodes: seq<Node>, rounds: nat)
    requires WellServed(env, s, nodes, rounds)
    ensures Complete(RepairFrom(env, s, nodes, rounds).run)
    decreases rounds
  {
    hide NextStep;
    if WorkerNames(nodes) != [] && rounds > 0 {
      var step := NextStep(env, s, nodes);
      if step.size >= 0 {
        ServedStep(env, s, nodes);
        ServedRunIsComplete(env, step.now, nodes[step.size..], rounds - 1);
        CompleteTogether(step.round, RepairFrom(env, step.now, nodes[step.size..], rounds - 1).run);
      }
    }
  }

  // ---------------------------------------------------------------- one iteration of the repair loop

  // A node of that name was not ready in a listing.
  predicate SeenNotReady(nodes: seq<Node>, name: string) {
    exists n :: n in nodes && n.name == name && NotReadyNode(n)
  }

  method ListNotReadyNodes(c: Client) returns (nodes: seq<Node>)
    modifies c`clock
    ensures c.clock == old(c.clock) + 1
    ensures nodes == Filtered(c.env.listing(old(c.clock)), NotReadyNode)
  {
    var all := c.ListNodes();
    nodes := FilterNodes(all, NotReadyNode);
  }

  // Every scale-down names only workers whose node was not ready in either listing.
  ghost predicate OnlyConfirmed(requests: seq<Request>, from: nat, first: seq<Node>, second: seq<Node>) {
    forall i, name :: from <= i < |requests| && requests[i].ScaleDown? && name in requests[i].names ==>
      IsWorker(name) && SeenNotReady(first, name) && SeenNotReady(second, name)
  }

  ghost function Confirmed(first: seq<Node>, second: seq<Node>): seq<Node> {
    Common(Filtered(first, NotReadyNode), Filtered(second, NotReadyNode))
  }

  lemma ConfirmedTargets(requests: seq<Request>, from: nat, first: seq<Node>, second: seq<Node>)
    requires SafeRequests(requests, from, Confirmed(first, second))
    ensures OnlyConfirmed(requests, from, first, second)
  {
    forall i, name | from <= i < |requests| && requests[i].ScaleDown? && name in requests[i].names
      ensures IsWorker(name) && SeenNotReady(first, name) && SeenNotReady(second, name)
    {
      WorkerNamesSound(Confirmed(first, second), name);
    }
  }

  lemma OneMoreName(names: seq<string>, name: string)
    ensures Distinct(names + [name]) <==> Distinct(names) && name !in names
    ensures Elements(names + [name]) == Elements(names) + {name}
  {
    var all := names + [name];
    assert all[|names|] == name && all[..|names|] == names;
    assert forall i :: 0 <= i < |names| ==> all[i] == names[i];
  }

  // The names of one list, each listed once, are among those of another.
  ghost predicate NamesWithin(part: seq<string>, all: seq<string>) {
    Distinct(part) && Elements(part) <= Elements(all)
  }

  lemma OneMoreWithin(part: seq<string>, all: seq<string>, name: string, keep: bool)
    requires NamesWithin(part, all) && Distinct(all + [name])
    ensures Distinct(all) && NamesWithin(if keep then part + [name] else part, all + [name])
  {
    OneMoreName(all, name);
    OneMoreName(part, name);
    assert name in part ==> name in Elements(part);
  }

  lemma LastName(nodes: seq<Node>, last: Node)
    ensures WorkerNames(nodes + [last])
         == if IsWorker(last.name) then WorkerNames(nodes) + [last.name] else WorkerNames(nodes)
  {
    assert (nodes + [last])[..|nodes|] == nodes;
  }

  // Filtering a list that names each worker once gives such a list.
  lemma {:induction false} FilteringKeepsDistinct(nodes: seq<Node>, p: Node -> bool)
    requires Distinct(WorkerNames(nodes))
    ensures NamesWithin(WorkerNames(Filtered(nodes, p)), WorkerNames(nodes))
  {
    if nodes != [] {
      var front, last := nodes[..|nodes| - 1], nodes[|nodes| - 1];
      var kept := Filtered(front, p);
      assert nodes == front + [last];
      assert Filtered(nodes, p) == if p(last) then kept + [last] else kept;
      LastName(front, last);
      LastName(kept, last);
      if IsWorker(last.name) {
        OneMoreName(WorkerNames(front), last.name);
        FilteringKeepsDistinct(front, p);
        OneMoreWithin(WorkerNames(kept), WorkerNames(front), last.name, p(last));
      } else {
        FilteringKeepsDistinct(front, p);
      }
    }
  }

  /** If the first snapshot shows every current worker once, its confirmed nodes are current workers, each
      listed once. */
  lemma ConfirmedAreRepairable(first: seq<Node>, second: seq<Node>, workers: set<string>)
    requires Truthful(first, workers)
    ensures Repairable(workers, Confirmed(first, second))
  {
    var notReady := Filtered(first, NotReadyNode);
    FilteringKeepsDistinct(first, NotReadyNode);
    FilteringKeepsDistinct(notReady, (n: Node) => Named(Filtered(second, NotReadyNode), n.name));
  }

  /** One iteration of the loop: two snapshots, the second only if the first shows any node that is not ready,
      and the repair of the nodes that are in both. */
  ghost function OnceFrom(env: Environment, s: State, rounds: nat): Repair {
    var targets := ConfirmedAt(env, s.time);
    if targets == [] then
      var snapshots := if Filtered(env.listing(s.time), NotReadyNode) == [] then 1 else 2;
      Repair(Repaired, s.(time := s.time + snapshots), [], [], [])
    else RepairFrom(env, s.(time := s.time + 2), targets, rounds)
  }

  ghost function ConfirmedAt(env: Environment, t: nat): seq<Node> { Confirmed(env.listing(t), env.listing(t + 1)) }

  /** In any environment every name in any scale-down request is a worker's whose node was not ready in both
      snapshots. */
  lemma OnlyConfirmedAreRemoved(env: Environment, s: State, rounds: nat)
    ensures s.requests <= OnceFrom(env, s, rounds).now.requests
    ensures OnlyConfirmed(OnceFrom(env, s, rounds).now.requests, |s.requests|,
                          env.listing(s.time), env.listing(s.time + 1))
  {
    hide RepairFrom, Confirmed, SafeRequests, Downs, Removals;
    var targets := ConfirmedAt(env, s.time);
    if targets != [] {
      RepairIsHandled(env, s.(time := s.time + 2), targets, rounds);
      ConfirmedTargets(OnceFrom(env, s, rounds).now.requests, |s.requests|,
                       env.listing(s.time), env.listing(s.time + 1));
    }
  }

  lemma NothingToRepair(now: State, limit: int)
    ensures Envelope(now, |now.points|, now.workers, limit, |WorkerNames([])|, [])
  {
  }

  // Not ready, like a node of that name in another listing.
  predicate NotReadyHereAndThere(n: Node, there: seq<Node>) {
    NotReadyNode(n) && exists m :: m in there && m.name == n.name && NotReadyNode(m)
  }

  /** The targets are exactly the nodes of the first listing that are not ready there and whose name is that of a
      node not ready in the second, in the order of the first and as often as it has them. */
  lemma ConfirmedSelect(env: Environment, t: nat) returns (at: seq<nat>)
    ensures Selects(env.listing(t), (n: Node) => NotReadyHereAndThere(n, env.listing(t + 1)), Same, at,
                    ConfirmedAt(env, t))
  {
    var first, second := env.listing(t), env.listing(t + 1);
    var notReady, later := Filtered(first, NotReadyNode), Filtered(second, NotReadyNode);
    var p, q := NotReadyNode, (n: Node) => Named(later, n.name);
    var one := FilteredSelects(first, NotReadyNode);
    var two := CommonSelects(notReady, later);
    at := SelectsTwice(first, p, one, notReady, q, two, Common(notReady, later));
    SameTest(first, (n: Node) => p(n) && q(n), (n: Node) => NotReadyHereAndThere(n, second), Same, at,
             Common(notReady, later));
  }

  /** Nobody is forgotten: if the iteration ends well, its batches are made of exactly the workers among the
      targets, in order. */
  lemma AllConfirmedAreRepaired(env: Environment, s: State, rounds: nat)
    requires OnceFrom(env, s, rounds).outcome == Repaired
    ensures BatchedNames(OnceFrom(env, s, rounds).run) == WorkerNames(ConfirmedAt(env, s.time))
  {
    hide RepairFrom, Confirmed, Handled;
    var targets, r := ConfirmedAt(env, s.time), OnceFrom(env, s, rounds);
    if targets != [] {
      RepairIsHandled(env, s.(time := s.time + 2), targets, rounds);
      EveryWorkerInOneBatch(targets, r.run, r.rest);
    }
  }

  lemma TargetsEnvelope(env: Environment, s: State, first: seq<Node>, second: seq<Node>, rounds: nat, limit: int)
    requires Truthful(first, s.workers) && Tidy(Confirmed(first, second)) && |Confirmed(first, second)| <= rounds
    requires LooksAreTrue(env, s, Confirmed(first, second), rounds, limit)
    ensures var r := RepairFrom(env, s, Confirmed(first, second), rounds);
      && r.outcome == Repaired
      && Envelope(r.now, |s.points|, s.workers, limit, |WorkerNames(Confirmed(first, second))|, r.run)
  {
    hide *;
    ConfirmedAreRepairable(first, second, s.workers);
    RepairIsRun(env, s, Confirmed(first, second), rounds, limit);
    RepairEnvelope(env, s, Confirmed(first, second), rounds, limit);
  }

  /** If the first snapshot and all later looks are true, the confirmed nodes are repaired, within the envelope
      if they are listed tidily. */
  lemma OnceEnvelope(env: Environment, s: State, rounds: nat, limit: int)
    requires Truthful(env.listing(s.time), s.workers) && Tidy(ConfirmedAt(env, s.time))
    requires LooksAreTrue(env, s.(time := s.time + 2), ConfirmedAt(env, s.time), rounds, limit)
    requires |ConfirmedAt(env, s.time)| <= rounds
    ensures var r := OnceFrom(env, s, rounds);
      && r.outcome == Repaired
      && Envelope(r.now, |s.points|, s.workers, limit, |WorkerNames(ConfirmedAt(env, s.time))|, r.run)
  {
    hide RepairFrom, LooksAreTrue, Envelope, Confirmed, Truthful, Tidy, Repairable;
    if ConfirmedAt(env, s.time) == [] {
      NothingToRepair(OnceFrom(env, s, rounds).now, limit);
    } else {
      TargetsEnvelope(env, s.(time := s.time + 2), env.listing(s.time), env.listing(s.time + 1), rounds, limit);
    }
  }

  method RepairNodes(c: Client, toBeRepairedNodes: seq<Node>, rounds: nat) returns (outcome: Outcome)
    modifies c
    ensures var r := RepairFrom(c.env, old(c.Now()), toBeRepairedNodes, rounds);
      outcome == r.outcome && c.Now() == r.now
  {
    outcome := AsgRepairNodes(c, toBeRepairedNodes, rounds);
  }

  method ConfirmUnhealthy(c: Client) returns (nodes: seq<Node>)
    modifies c`clock
    ensures nodes == ConfirmedAt(c.env, old(c.clock))
    ensures c.clock == old(c.clock) + if Filtered(c.env.listing(old(c.clock)), NotReadyNode) == [] then 1 else 2
  {
    nodes := [];
    var notReadyNodes := ListNotReadyNodes(c);
    if |notReadyNodes| != 0 {
      var stillNotReadyNodes := ListNotReadyNodes(c);
      nodes := CommonNodes(notReadyNodes, stillNotReadyNodes);
    }
  }

  method RunOnce(c: Client, rounds: nat) returns (outcome: Outcome)
    modifies c
    ensures var r := OnceFrom(c.env, old(c.Now()), rounds);
      outcome == r.outcome && c.Now() == r.now
    ensures old(c.requests) <= c.requests
    ensures OnlyConfirmed(c.requests, |old(c.requests)|, c.env.listing(old(c.clock)), c.env.listing(old(c.clock) + 1))
  {
    hide RepairFrom;
    OnlyConfirmedAreRemoved(c.env, c.Now(), rounds);
    outcome := Repaired;
    var toBeRepairedNodes := ConfirmUnhealthy(c);
    if |toBeRepairedNodes| != 0 {
      outcome := RepairNodes(c, toBeRepairedNodes, rounds);
    }
  }
}
