/**
  The controller as interleaved atomic steps (Controller.go). One informer and one worker share
  `enqueueMap` and the queue. The informer enqueues nodes that have not been ready for too long, once
  per mark; both remove marks, each only after a readiness check that came out positive. Between any
  two steps of one, the other may take any number of steps.
 */
module ControllerSteps {
  import opened Wrappers

  // What has happened, in order.
  datatype Event =
    | Enqueued(name: string)
    | Unmarked(name: string)
    | SeenReady(name: string)
    // After a replacement of this node, some node was seen ready.
    | SeenAnyReady(name: string)
    | Taken(name: string)
    | Rebooted(name: string)
    | ReplaceTried(name: string)

  datatype Informer = Idle | Checking(name: string) | Clearing(name: string)

  datatype Worker =
    | Resting
    | Rebooting(name: string, reboots: nat)
    | Verifying(name: string, reboots: nat)
    | Replacing(name: string)
    | VerifyingAll(name: string)
    | Unmarking(name: string)

  datatype State = State(enqueueMap: set<string>, queue: seq<string>, informer: Informer, worker: Worker,
                         log: seq<Event>)

  datatype Step =
    | Observe(name: string, tooLong: bool)
    | InformerVerdict(ready: bool)
    | InformerClears
    | Take
    | Reboot(done: bool)
    | RebootVerdict(ready: bool)
    | Replace
    | ReplaceVerdict(ready: bool)
    | WorkerClears

  const MAX_REBOOT_RETRY := 3

  function Start(): State { State({}, [], Idle, Resting, []) }

  // What a step does to the state, except for the log, and the event it leaves in the log.
  datatype Effect = Effect(state: State, event: Option<Event>)

  // Removes a mark; only the removal of a mark that is there is an event.
  function Clear(s: State, name: string): Effect {
    if name in s.enqueueMap then Effect(s.(enqueueMap := s.enqueueMap - {name}), Some(Unmarked(name)))
    else Effect(s, None)
  }

  // A step that is not enabled changes nothing.
  function EffectOf(s: State, step: Step): Effect {
    match step
    case Observe(name, tooLong) =>
      if !s.informer.Idle? then Effect(s, None)
      else
        var t := s.(informer := Checking(name));
        if tooLong && name !in s.enqueueMap
        then Effect(t.(enqueueMap := s.enqueueMap + {name}, queue := s.queue + [name]), Some(Enqueued(name)))
        else Effect(t, None)
    case InformerVerdict(ready) =>
      if !s.informer.Checking? then Effect(s, None)
      else if ready then Effect(s.(informer := Clearing(s.informer.name)), Some(SeenReady(s.informer.name)))
      else Effect(s.(informer := Idle), None)
    case InformerClears =>
      if !s.informer.Clearing? then Effect(s, None) else Clear(s.(informer := Idle), s.informer.name)
    case Take =>
      if !s.worker.Resting? || s.queue == [] then Effect(s, None)
      else Effect(s.(worker := Rebooting(s.queue[0], 0), queue := s.queue[1..]), Some(Taken(s.queue[0])))
    case Reboot(done) =>
      if !s.worker.Rebooting? then Effect(s, None)
      else if done
      then Effect(s.(worker := Verifying(s.worker.name, s.worker.reboots + 1)), Some(Rebooted(s.worker.name)))
      else Effect(s.(worker := Resting), None)
    case RebootVerdict(ready) =>
      if !s.worker.Verifying? then Effect(s, None)
      else if ready then Effect(s.(worker := Unmarking(s.worker.name)), Some(SeenReady(s.worker.name)))
      else if s.worker.reboots < MAX_REBOOT_RETRY
      then Effect(s.(worker := Rebooting(s.worker.name, s.worker.reboots)), None)
      else Effect(s.(worker := Replacing(s.worker.name)), None)
    case Replace =>
      if !s.worker.Replacing? then Effect(s, None)
      else Effect(s.(worker := VerifyingAll(s.worker.name)), Some(ReplaceTried(s.worker.name)))
    case ReplaceVerdict(ready) =>
      if !s.worker.VerifyingAll? then Effect(s, None)
      else if ready then Effect(s.(worker := Unmarking(s.worker.name)), Some(SeenAnyReady(s.worker.name)))
      else Effect(s.(worker := Resting), None)
    case WorkerClears =>
      if !s.worker.Unmarking? then Effect(s, None) else Clear(s.(worker := Resting), s.worker.name)
  }

  function Next(s: State, step: Step): State {
    var e := EffectOf(s, step);
    if e.event.None? then e.state else e.state.(log := s.log + [e.event.value])
  }

  function Run(s: State, steps: seq<Step>): State {
    if steps == [] then s else Next(Run(s, steps[..|steps| - 1]), steps[|steps| - 1])
  }

  // ---------------------------------------------------------------- accounting

  // How often each kind of event has happened to one name.
  datatype Tally = Tally(enqueued: nat, unmarked: nat, seenReady: nat, seenAny: nat, taken: nat, rebooted: nat,
                         replaced: nat)

  function Counted(t: Tally, e: Event, name: string): Tally {
    if e.name != name then t
    else match e
      case Enqueued(_) => t.(enqueued := t.enqueued + 1)
      case Unmarked(_) => t.(unmarked := t.unmarked + 1)
      case SeenReady(_) => t.(seenReady := t.seenReady + 1)
      case SeenAnyReady(_) => t.(seenAny := t.seenAny + 1)
      case Taken(_) => t.(taken := t.taken + 1)
      case Rebooted(_) => t.(rebooted := t.rebooted + 1)
      case ReplaceTried(_) => t.(replaced := t.replaced + 1)
  }

  function TallyOf(log: seq<Event>, name: string): Tally {
    if log == [] then Tally(0, 0, 0, 0, 0, 0, 0)
    else Counted(TallyOf(log[..|log| - 1], name), log[|log| - 1], name)
  }

  lemma TallyAppend(log: seq<Event>, e: Event, name: string)
    ensures TallyOf(log + [e], name) == Counted(TallyOf(log, name), e, name)
  {
    assert (log + [e])[..|log|] == log;
  }

  // Marks of this name about to be removed on the strength of a check already made.
  function AboutToClear(s: State, name: string): nat {
    (if s.informer == Clearing(name) then 1 else 0) + (if s.worker == Unmarking(name) then 1 else 0)
  }

  // Reboots of this name the job at hand has made on its way to a replacement, and those it may still make.
  function JobReboots(w: Worker, name: string): nat {
    match w
    case Rebooting(n, k) => if n == name then k else 0
    case Verifying(n, k) => if n == name then k else 0
    case Replacing(n) => if n == name then MAX_REBOOT_RETRY else 0
    case _ => 0
  }

  function RebootsToCome(w: Worker, name: string): int {
    if (w.Rebooting? || w.Verifying?) && w.name == name then MAX_REBOOT_RETRY - w.reboots else 0
  }

  // A mark is an enqueue that has not been unmarked.
  ghost predicate MarksBalance(s: State, t: Tally, name: string) {
    t.enqueued == t.unmarked + if name in s.enqueueMap then 1 else 0
  }

  // Every unmark, made or about to be made, has its own positive check: of the node itself or, after a
  // replacement, of any node; and every check of the second kind has its own replacement.
  ghost predicate ChecksBalance(s: State, t: Tally, name: string) {
    && t.unmarked + AboutToClear(s, name) <= t.seenReady + t.seenAny
    && t.seenAny + (if s.worker == VerifyingAll(name) then 1 else 0) <= t.replaced
  }

  // What was enqueued is waiting or was taken.
  ghost predicate QueueBalances(s: State, t: Tally, name: string) {
    t.enqueued == t.taken + multiset(s.queue)[name]
  }

  ghost predicate JobsBalance(s: State, t: Tally, name: string) {
    // A job reboots at most three times, and replaces only after three reboots.
    && t.rebooted + RebootsToCome(s.worker, name) <= MAX_REBOOT_RETRY * t.taken
    && MAX_REBOOT_RETRY * t.replaced + JobReboots(s.worker, name) <= t.rebooted
    && (s.worker.Rebooting? ==> s.worker.reboots < MAX_REBOOT_RETRY)
    && (s.worker.Verifying? ==> 0 < s.worker.reboots <= MAX_REBOOT_RETRY)
  }

  /** What every reachable state satisfies for every name. */
  ghost predicate Accounts(s: State, name: string) {
    var t := TallyOf(s.log, name);
    MarksBalance(s, t, name) && ChecksBalance(s, t, name) && QueueBalances(s, t, name) && JobsBalance(s, t, name)
  }

  function TallyAfter(s: State, step: Step, name: string): Tally {
    var t, event := TallyOf(s.log, name), EffectOf(s, step).event;
    if event.None? then t else Counted(t, event.value, name)
  }

  lemma StepTally(s: State, step: Step, name: string)
    ensures TallyOf(Next(s, step).log, name) == TallyAfter(s, step, name)
  {
    var event := EffectOf(s, step).event;
    if event.Some? {
      TallyAppend(s.log, event.value, name);
    }
  }

  lemma StepKeepsMarks(s: State, step: Step, name: string)
    requires MarksBalance(s, TallyOf(s.log, name), name)
    ensures MarksBalance(Next(s, step), TallyAfter(s, step, name), name)
  {
  }

  lemma StepKeepsChecks(s: State, step: Step, name: string)
    requires ChecksBalance(s, TallyOf(s.log, name), name)
    ensures ChecksBalance(Next(s, step), TallyAfter(s, step, name), name)
  {
  }

  lemma StepKeepsJobs(s: State, step: Step, name: string)
    requires JobsBalance(s, TallyOf(s.log, name), name)
    ensures JobsBalance(Next(s, step), TallyAfter(s, step, name), name)
  {
  }

  lemma QueueGrows(queue: seq<string>, x: string, name: string)
    ensures multiset(queue + [x])[name] == multiset(queue)[name] + if x == name then 1 else 0
  {
  }

  lemma QueueShrinks(queue: seq<string>, name: string)
    requires queue != []
    ensures multiset(queue)[name] == multiset(queue[1..])[name] + if queue[0] == name then 1 else 0
  {
    assert queue == [queue[0]] + queue[1..];
  }

  lemma OtherStepsKeepQueue(s: State, step: Step, name: string)
    requires !step.Observe? && !step.Take?
    ensures Next(s, step).queue == s.queue
    ensures TallyAfter(s, step, name).enqueued == TallyOf(s.log, name).enqueued
    ensures TallyAfter(s, step, name).taken == TallyOf(s.log, name).taken
  {
  }

  lemma StepKeepsQueue(s: State, step: Step, name: string)
    requires QueueBalances(s, TallyOf(s.log, name), name)
    ensures QueueBalances(Next(s, step), TallyAfter(s, step, name), name)
  {
    match step
    case Observe(x, _) => QueueGrows(s.queue, x, name);
    case Take => if s.queue != [] { QueueShrinks(s.queue, name); }
    case _ => OtherStepsKeepQueue(s, step, name);
  }

  /** In every interleaving, for every name: enqueues less effective unmarks is one if the name is marked
      and zero otherwise, and each unmark has its own positive check, of the node itself or, once per
      replacement of it, of any node. */
  lemma {:induction false} MarksAreAccounted(steps: seq<Step>, name: string)
    ensures Accounts(Run(Start(), steps), name)
  {
    if steps != [] {
      var s, step := Run(Start(), steps[..|steps| - 1]), steps[|steps| - 1];
      MarksAreAccounted(steps[..|steps| - 1], name);
      StepKeepsMarks(s, step, name);
      StepKeepsChecks(s, step, name);
      StepKeepsQueue(s, step, name);
      StepKeepsJobs(s, step, name);
      StepTally(s, step, name);
    }
  }

  /** Hence a bound on how much a node is disturbed over any run: one enqueue and one replacement, and
      three reboots, more than the checks that saw it ready, and those that saw any node ready after it
      was replaced, account for. */
  lemma DisturbanceBound(steps: seq<Step>, name: string)
    ensures var t := TallyOf(Run(Start(), steps).log, name);
            && t.enqueued <= 1 + t.seenReady + t.seenAny
            && t.rebooted <= MAX_REBOOT_RETRY * (1 + t.seenReady + t.seenAny)
            && t.seenAny <= t.replaced <= 1 + t.seenReady + t.seenAny
  {
    MarksAreAccounted(steps, name);
  }

  // Marked, and nobody is about to remove the mark.
  ghost predicate Blocked(s: State, name: string) {
    name in s.enqueueMap && AboutToClear(s, name) == 0
  }

  lemma StepKeepsBlocked(s: State, step: Step, name: string)
    requires Blocked(s, name)
    ensures var t, u := TallyOf(s.log, name), TallyAfter(s, step, name);
            && u.enqueued == t.enqueued && u.seenReady >= t.seenReady && u.seenAny >= t.seenAny
            && (u.seenReady == t.seenReady && u.seenAny == t.seenAny ==> Blocked(Next(s, step), name))
  {
  }

  /** A failed repair stays blocked: a marked name that nobody is about to clear stays marked, and is not
      enqueued again, through any further steps, until a check sees the node ready or, after a replacement
      of it, any node. */
  lemma {:induction false} BlockedUntilChecked(s: State, steps: seq<Step>, name: string)
    requires Blocked(s, name)
    ensures var t := Run(s, steps);
            var before, after := TallyOf(s.log, name), TallyOf(t.log, name);
            && after.seenReady >= before.seenReady && after.seenAny >= before.seenAny
            && (after.seenReady == before.seenReady && after.seenAny == before.seenAny ==>
                  Blocked(t, name) && after.enqueued == before.enqueued)
  {
    if steps != [] {
      var front, step := steps[..|steps| - 1], steps[|steps| - 1];
      var u := Run(s, front);
      BlockedUntilChecked(s, front, name);
      StepTally(u, step, name);
      if Blocked(u, name) {
        StepKeepsBlocked(u, step, name);
      } else {
        CountsGrow(u, step, name);
      }
    }
  }

  lemma CountsGrow(s: State, step: Step, name: string)
    ensures var t, u := TallyOf(s.log, name), TallyAfter(s, step, name);
            u.seenReady >= t.seenReady && u.seenAny >= t.seenAny
  {
  }

  // ---------------------------------------------------------------- released without being ready

  lemma RunAppend(s: State, steps: seq<Step>, step: Step)
    ensures Run(s, steps + [step]) == Next(Run(s, steps), step)
  {
    assert (steps + [step])[..|steps|] == steps;
  }

  // A reboot that does not help.
  lemma RebootInVain(steps: seq<Step>, name: string, k: nat)
    requires Run(Start(), steps).worker == Rebooting(name, k)
    ensures var s, t := Run(Start(), steps), Run(Start(), steps + [Reboot(true)] + [RebootVerdict(false)]);
      && t.worker == (if k + 1 < MAX_REBOOT_RETRY then Rebooting(name, k + 1) else Replacing(name))
      && t.enqueueMap == s.enqueueMap && t.log == s.log + [Rebooted(name)]
  {
    RunAppend(Start(), steps, Reboot(true));
    RunAppend(Start(), steps + [Reboot(true)], RebootVerdict(false));
  }

  // A node that is enqueued and taken.
  lemma StuckAndTaken(name: string)
    ensures var s := Run(Start(), [] + [Observe(name, true)] + [Take]);
      s.worker == Rebooting(name, 0) && s.enqueueMap == {name} && s.log == [Enqueued(name)] + [Taken(name)]
  {
    RunAppend(Start(), [], Observe(name, true));
    RunAppend(Start(), [] + [Observe(name, true)], Take);
  }

  // The end of a job whose reboots were in vain: any ready node will do.
  lemma AnyNodeReleases(steps: seq<Step>, name: string)
    requires Run(Start(), steps).worker == Replacing(name) && name in Run(Start(), steps).enqueueMap
    ensures var s := Run(Start(), steps);
            var t := Run(Start(), steps + [Replace] + [ReplaceVerdict(true)] + [WorkerClears]);
      && t.enqueueMap == s.enqueueMap - {name}
      && t.log == s.log + [ReplaceTried(name)] + [SeenAnyReady(name)] + [Unmarked(name)]
  {
    RunAppend(Start(), steps, Replace);
    RunAppend(Start(), steps + [Replace], ReplaceVerdict(true));
    RunAppend(Start(), steps + [Replace] + [ReplaceVerdict(true)], WorkerClears);
  }

  /** A run in which a node loses its mark although no check ever sees it ready. */
  lemma ReleasedUnseen(name: string) returns (steps: seq<Step>)
    ensures var s := Run(Start(), steps);
      name !in s.enqueueMap && Unmarked(name) in s.log && SeenReady(name) !in s.log
  {
    StuckAndTaken(name);
    steps := [] + [Observe(name, true)] + [Take];
    var k := 0;
    while k < MAX_REBOOT_RETRY
      invariant 0 <= k <= MAX_REBOOT_RETRY
      invariant Run(Start(), steps).worker == if k < MAX_REBOOT_RETRY then Rebooting(name, k) else Replacing(name)
      invariant Run(Start(), steps).enqueueMap == {name} && SeenReady(name) !in Run(Start(), steps).log
    {
      RebootInVain(steps, name, k);
      steps := steps + [Reboot(true)] + [RebootVerdict(false)];
      k := k + 1;
    }
    AnyNodeReleases(steps, name);
    steps := steps + [Replace] + [ReplaceVerdict(true)] + [WorkerClears];
  }

  // ---------------------------------------------------------------- what a mark does not prevent

  /** A mark is meant to keep a node from being enqueued again before it is processed. It does not: the
      informer removes the mark of a node that is ready again although its entry is still waiting, and
      the next time the node is stuck it is enqueued a second time. */
  lemma QueuedTwice(name: string) returns (steps: seq<Step>)
    ensures Run(Start(), steps).queue == [name, name]
  {
    var observe := Observe(name, true);
    var s1 := Next(Start(), observe);
    var s2 := Next(s1, InformerVerdict(true));
    var s3 := Next(s2, InformerClears);
    assert s3.queue == [name] && s3.enqueueMap == {} && s3.informer.Idle?;
    steps := [observe, InformerVerdict(true), InformerClears, observe];
    assert steps[..3] == [observe, InformerVerdict(true), InformerClears];
    assert steps[..3][..2] == [observe, InformerVerdict(true)];
    assert [observe, InformerVerdict(true)][..1] == [observe] && [observe][..0] == [];
    assert Run(Start(), [observe]) == s1;
    assert Run(Start(), steps[..3][..2]) == s2;
    assert Run(Start(), steps[..3]) == s3;
  }

  /** Exactly when a stuck node is observed that is waiting but no longer marked, a second entry for it
      joins the first. */
  lemma QueuedAgainIff(s: State, step: Step, name: string)
    requires multiset(s.queue)[name] == 1
    ensures multiset(Next(s, step).queue)[name] > 1
       <==> step == Observe(name, true) && s.informer.Idle? && name !in s.enqueueMap
  {
    match step
    case Observe(x, _) => QueueGrows(s.queue, x, name);
    case Take => if s.queue != [] { QueueShrinks(s.queue, name); }
    case _ => OtherStepsKeepQueue(s, step, name);
  }
}
