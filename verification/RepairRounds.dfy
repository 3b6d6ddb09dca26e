/**
  The batch repair as a protocol (core/util.go): in each round a batch of unhealthy nodes is
  replaced, deleting first when the cluster is at its maximum and creating first otherwise. A run is
  the list of its rounds; the portal decides how many new workers each round really gets, and whether
  it is idle when a batch is to be removed: if it is not, the batch is dropped.
 */
module RepairRounds {
  import opened Nodes
  import opened Portal

  // A round, with the workers it got, over all requests it made, and how many times it asked for its batch
  // to be removed.
  datatype Round = Round(deleteFirst: bool, batch: seq<Node>, created: set<string>, removals: nat)

  ghost function Names(nodes: seq<Node>): set<string> { Elements(WorkerNames(nodes)) }

  // How many nodes a round takes on, given the number of workers and of workers left to repair.
  function BatchSize(size: int, limit: int, toRepair: int): int {
    if size >= limit then 1 else if limit - size >= toRepair then toRepair else limit - size
  }

  // The names a round removes, and those it drops.
  ghost function Gone(r: Round): set<string> { if r.removals > 0 then Names(r.batch) else {} }

  ghost function Dropped(r: Round): set<string> { if r.removals > 0 then {} else Names(r.batch) }

  // The workers there are when a round begins to create, between its two halves, and after it.
  ghost function Creating(workers: set<string>, r: Round): set<string> {
    if r.deleteFirst then workers - Gone(r) else workers
  }

  ghost function Halfway(workers: set<string>, r: Round): set<string> {
    if r.deleteFirst then workers - Gone(r) else workers + r.created
  }

  ghost function After(workers: set<string>, r: Round): set<string> {
    if r.deleteFirst then workers - Gone(r) + r.created else workers + r.created - Gone(r)
  }

  /** A run that repairs `nodes` in a cluster with these workers. The portal may create fewer workers than
      a round asks for, or more, when a round repeats its request. */
  ghost predicate IsRun(workers: set<string>, limit: int, nodes: seq<Node>, run: seq<Round>)
    decreases |run|
  {
    if WorkerNames(nodes) == [] then run == []
    else
      && run != []
      && IsRound(workers, limit, nodes, run[0])
      && IsRun(After(workers, run[0]), limit, nodes[|run[0].batch|..], run[1..])
  }

  ghost predicate IsRound(workers: set<string>, limit: int, nodes: seq<Node>, r: Round) {
    && r.deleteFirst == (|workers| >= limit)
    && |r.batch| == BatchSize(|workers|, limit, |WorkerNames(nodes)|)
    && r.batch <= nodes
    && r.created !! Creating(workers, r)
  }

  // Every round got as many workers as it takes on.
  ghost predicate Honoured(run: seq<Round>) {
    forall i :: 0 <= i < |run| ==> |run[i].created| == |run[i].batch|
  }

  // No round dropped its batch.
  ghost predicate AllRemoved(run: seq<Round>) {
    forall i :: 0 <= i < |run| ==> run[i].removals > 0
  }

  // Every round got its workers and removed its batch.
  ghost predicate Complete(run: seq<Round>) { Honoured(run) && AllRemoved(run) }

  lemma CompleteTogether(r: Round, run: seq<Round>)
    requires |r.created| == |r.batch| && r.removals > 0 && Complete(run)
    ensures Complete([r] + run)
  {
  }

  // The workers at every point of a run after its start.
  ghost function Visited(workers: set<string>, run: seq<Round>): seq<set<string>>
    decreases |run|
  {
    if run == [] then []
    else [Halfway(workers, run[0]), After(workers, run[0])] + Visited(After(workers, run[0]), run[1..])
  }

  ghost function Final(workers: set<string>, run: seq<Round>): set<string>
    decreases |run|
  {
    if run == [] then workers else Final(After(workers, run[0]), run[1..])
  }

  // The names of the batches that were dropped.
  ghost function AllDropped(run: seq<Round>): set<string> {
    if run == [] then {} else Dropped(run[0]) + AllDropped(run[1..])
  }

  // How many listed workers were not removed.
  function DroppedWorkers(run: seq<Round>): nat {
    if run == [] then 0
    else (if run[0].removals > 0 then 0 else |WorkerNames(run[0].batch)|) + DroppedWorkers(run[1..])
  }

  // How many rounds should have removed a node first and did not.
  function Overshoots(run: seq<Round>): nat {
    if run == [] then 0
    else (if run[0].deleteFirst && run[0].removals == 0 then 1 else 0) + Overshoots(run[1..])
  }

  // How many workers more were created than their rounds take on.
  function Excess(run: seq<Round>): nat {
    if run == [] then 0
    else (if |run[0].created| > |run[0].batch| then |run[0].created| - |run[0].batch| else 0) + Excess(run[1..])
  }

  ghost function AllCreated(run: seq<Round>): set<string> {
    if run == [] then {} else run[0].created + AllCreated(run[1..])
  }

  // The nodes to repair are current workers, each listed once.
  ghost predicate Repairable(workers: set<string>, nodes: seq<Node>) {
    Distinct(WorkerNames(nodes)) && Names(nodes) <= workers
  }

  // No node that is not a worker stands before a worker.
  ghost predicate Tidy(nodes: seq<Node>) {
    forall i, j :: 0 <= i < j < |nodes| && IsWorker(nodes[j].name) ==> IsWorker(nodes[i].name)
  }

  // The number of nodes before the last worker that are not workers themselves.
  function Strays(nodes: seq<Node>): nat {
    if WorkerNames(nodes) == [] then 0
    else
      (if IsWorker(nodes[0].name) then 0 else 1) + Strays(nodes[1..])
  }

  // ---------------------------------------------------------------- one round

  lemma SplitNames(nodes: seq<Node>, k: nat)
    requires k <= |nodes|
    ensures WorkerNames(nodes) == WorkerNames(nodes[..k]) + WorkerNames(nodes[k..])
  {
    WorkerNamesConcat(nodes[..k], nodes[k..]);
    assert nodes == nodes[..k] + nodes[k..];
  }

  // A batch lies within the nodes and takes at least one of them.
  lemma BatchBounds(workers: set<string>, limit: int, nodes: seq<Node>)
    requires WorkerNames(nodes) != []
    ensures 1 <= BatchSize(|workers|, limit, |WorkerNames(nodes)|) <= |WorkerNames(nodes)| <= |nodes|
  {
  }

  lemma DistinctParts(a: seq<string>, b: seq<string>)
    requires Distinct(a + b)
    ensures Distinct(a) && Distinct(b) && Elements(a) !! Elements(b) && Elements(a + b) == Elements(a) + Elements(b)
  {
    var all := a + b;
    assert forall i :: 0 <= i < |a| ==> a[i] == all[i];
    assert forall i :: 0 <= i < |b| ==> b[i] == all[|a| + i];
  }

  // A list of workers is cut into a batch and a rest that have nothing in common.
  lemma RepairableParts(workers: set<string>, nodes: seq<Node>, k: nat)
    requires Repairable(workers, nodes) && k <= |nodes|
    ensures Repairable(workers, nodes[..k]) && Repairable(workers, nodes[k..])
    ensures Names(nodes[..k]) !! Names(nodes[k..]) && Names(nodes) == Names(nodes[..k]) + Names(nodes[k..])
    ensures |Names(nodes[..k])| == |WorkerNames(nodes[..k])|
  {
    SplitNames(nodes, k);
    DistinctParts(WorkerNames(nodes[..k]), WorkerNames(nodes[k..]));
    DistinctSize(WorkerNames(nodes[..k]));
  }

  // A round removes its batch's workers, or drops them, and leaves the rest of the list repairable.
  lemma RoundEffect(workers: set<string>, limit: int, nodes: seq<Node>, r: Round)
    requires Repairable(workers, nodes) && IsRound(workers, limit, nodes, r)
    ensures Repairable(After(workers, r), nodes[|r.batch|..])
    ensures |Names(r.batch)| == |WorkerNames(r.batch)|
    ensures |After(workers, r)| == |workers| + |r.created| - |Gone(r)|
    ensures |Halfway(workers, r)| == |workers| + if r.deleteFirst then - |Gone(r)| else |r.created|
  {
    assert nodes[..|r.batch|] == r.batch;
    RepairableParts(workers, nodes, |r.batch|);
  }

  // A tidy list gives batches of workers only.
  lemma TidyBatch(nodes: seq<Node>, k: nat)
    requires Tidy(nodes) && k <= |WorkerNames(nodes)|
    ensures |WorkerNames(nodes[..k])| == k && Tidy(nodes[k..])
  {
    StraysOfPrefix(nodes, k);
    TidyHasNoStrays(nodes);
  }

  // ---------------------------------------------------------------- strays

  lemma HeadCount(nodes: seq<Node>)
    requires nodes != []
    ensures |WorkerNames(nodes)| == (if IsWorker(nodes[0].name) then 1 else 0) + |WorkerNames(nodes[1..])|
  {
    SplitNames(nodes, 1);
    assert nodes[..1] == [nodes[0]] && [nodes[0]][..0] == [];
  }

  lemma PrefixShift(nodes: seq<Node>, k: nat)
    requires 0 < k <= |nodes|
    ensures nodes[..k][0] == nodes[0] && nodes[..k][1..] == nodes[1..][..k - 1] && nodes[1..][k - 1..] == nodes[k..]
  {
  }

  // The strays of a list are those of a batch and those of the rest.
  lemma {:induction false} StraysOfPrefix(nodes: seq<Node>, k: nat)
    requires k <= |WorkerNames(nodes)|
    ensures Strays(nodes) == k - |WorkerNames(nodes[..k])| + Strays(nodes[k..])
  {
    if k == 0 {
      assert nodes[0..] == nodes && nodes[..0] == [];
    } else {
      var batch, rest := nodes[..k], nodes[1..];
      HeadCount(nodes);
      HeadCount(batch);
      PrefixShift(nodes, k);
      StraysOfPrefix(rest, k - 1);
    }
  }

  lemma {:induction false} NoWorkers(nodes: seq<Node>)
    ensures WorkerNames(nodes) == [] <==> forall i :: 0 <= i < |nodes| ==> !IsWorker(nodes[i].name)
  {
    if nodes != [] {
      NoWorkers(nodes[..|nodes| - 1]);
    }
  }

  lemma {:induction false} TidyHasNoStrays(nodes: seq<Node>)
    ensures Tidy(nodes) <==> Strays(nodes) == 0
  {
    NoWorkers(nodes);
    if WorkerNames(nodes) != [] {
      var rest := nodes[1..];
      TidyHasNoStrays(rest);
      assert forall i :: 1 <= i < |nodes| ==> nodes[i] == rest[i - 1];
      if Strays(nodes) == 0 {
        assert Tidy(nodes);
      } else if IsWorker(nodes[0].name) {
        var i, j :| 0 <= i < j < |rest| && IsWorker(rest[j].name) && !IsWorker(rest[i].name);
        assert !IsWorker(nodes[i + 1].name) && IsWorker(nodes[j + 1].name);
      }
    }
  }

  // A round of a tidy list takes on workers only, and leaves a tidy list.
  lemma TidyRest(workers: set<string>, limit: int, nodes: seq<Node>, r: Round)
    requires Repairable(workers, nodes) && IsRound(workers, limit, nodes, r) && WorkerNames(nodes) != [] && Tidy(nodes)
    ensures 1 <= |r.batch| == |WorkerNames(r.batch)|
    ensures Tidy(nodes[|r.batch|..])
    ensures |WorkerNames(nodes[|r.batch|..])| == |WorkerNames(nodes)| - |r.batch|
  {
    BatchBounds(workers, limit, nodes);
    TidyBatch(nodes, |r.batch|);
    SplitNames(nodes, |r.batch|);
    assert nodes[..|r.batch|] == r.batch;
  }

  lemma TidyRound(workers: set<string>, limit: int, nodes: seq<Node>, r: Round)
    requires Repairable(workers, nodes) && IsRound(workers, limit, nodes, r) && WorkerNames(nodes) != [] && Tidy(nodes)
    ensures Repairable(After(workers, r), nodes[|r.batch|..])
    ensures |After(workers, r)| == |workers| + |r.created| - (if r.removals > 0 then |r.batch| else 0)
    ensures |Halfway(workers, r)|
         == if !r.deleteFirst then |workers| + |r.created| else if r.removals > 0 then |workers| - 1 else |workers|
  {
    TidyRest(workers, limit, nodes, r);
    RoundEffect(workers, limit, nodes, r);
  }

  // A round of a tidy list that drops nothing and gets no more than it takes on leaves the size at most as it
  // was; a round that drops the node it should have removed first leaves one more at most.
  lemma TidyBounds(workers: set<string>, limit: int, nodes: seq<Node>, r: Round)
    requires Repairable(workers, nodes) && IsRound(workers, limit, nodes, r) && WorkerNames(nodes) != [] && Tidy(nodes)
    ensures |After(workers, r)| <= Ceiling(|workers|, limit) + Overshoots([r]) + Excess([r])
    ensures |Halfway(workers, r)| <= Ceiling(|workers|, limit) + Excess([r])
  {
    TidyRound(workers, limit, nodes, r);
  }

  // A round that gets all it asks for and removes its batch.
  lemma FullRound(workers: set<string>, limit: int, nodes: seq<Node>, r: Round)
    requires Repairable(workers, nodes) && IsRound(workers, limit, nodes, r) && WorkerNames(nodes) != [] && Tidy(nodes)
    requires |r.created| == |r.batch| && r.removals > 0
    ensures |After(workers, r)| == |workers|
    ensures |workers| - 1 <= |Halfway(workers, r)| <= Ceiling(|workers|, limit)
    ensures Repairable(After(workers, r), nodes[|r.batch|..]) && Tidy(nodes[|r.batch|..])
    ensures |WorkerNames(nodes[|r.batch|..])|
         == |WorkerNames(nodes)| - BatchSize(|workers|, limit, |WorkerNames(nodes)|)
  {
    TidyRest(workers, limit, nodes, r);
    TidyRound(workers, limit, nodes, r);
  }

  // ---------------------------------------------------------------- whole runs

  lemma RunGrows(workers: set<string>, limit: int, nodes: seq<Node>, r: Round, rest: seq<Round>)
    requires WorkerNames(nodes) != [] && IsRound(workers, limit, nodes, r)
    requires IsRun(After(workers, r), limit, nodes[|r.batch|..], rest)
    ensures IsRun(workers, limit, nodes, [r] + rest)
    ensures Final(workers, [r] + rest) == Final(After(workers, r), rest)
  {
    assert ([r] + rest)[0] == r && ([r] + rest)[1..] == rest;
  }

  lemma OneMoreVisit(workers: set<string>, run: seq<Round>, low: int, high: int)
    requires run != [] && SizesBetween(Visited(After(workers, run[0]), run[1..]), 0, low, high)
    requires low <= |Halfway(workers, run[0])| <= high && low <= |After(workers, run[0])| <= high
    ensures SizesBetween(Visited(workers, run), 0, low, high)
  {
  }

  // Each round creates no more workers than there is room for below the bound when it creates them.
  ghost predicate CreationsFit(workers: set<string>, run: seq<Round>, bound: int)
    decreases |run|
  {
    run == []
    || (&& |Creating(workers, run[0])| + |run[0].created| <= bound
        && CreationsFit(After(workers, run[0]), run[1..], bound))
  }

  lemma OneRoundFits(workers: set<string>, r: Round, bound: int)
    requires r.created !! Creating(workers, r) && |workers| <= bound
    ensures |Creating(workers, r)| + |r.created| <= bound
       <==> |Halfway(workers, r)| <= bound && |After(workers, r)| <= bound
  {
    var created := Creating(workers, r) + r.created;
    assert |created| == |Creating(workers, r)| + |r.created|;
    if r.deleteFirst {
      assert workers == Halfway(workers, r) + workers * Gone(r);
      assert |Halfway(workers, r)| <= |workers|;
    } else {
      assert created == After(workers, r) + created * Gone(r);
      assert |After(workers, r)| <= |created|;
    }
  }

  /** Whatever the list and the rounds: a cluster stays within a bound exactly as long as what each round
      creates, over all its requests, fits below the bound. */
  lemma {:induction false} WithinBoundIff(workers: set<string>, limit: int, nodes: seq<Node>, run: seq<Round>,
                                          bound: int)
    requires IsRun(workers, limit, nodes, run) && |workers| <= bound
    ensures SizesBetween(Visited(workers, run), 0, 0, bound) <==> CreationsFit(workers, run, bound)
    decreases |run|
  {
    if run != [] {
      var r, visited := run[0], Visited(workers, run);
      var between := After(workers, r);
      var later := Visited(between, run[1..]);
      assert visited[0] == Halfway(workers, r) && visited[1] == between && visited[2..] == later;
      OneRoundFits(workers, r, bound);
      if |between| <= bound {
        WithinBoundIff(between, limit, nodes[|r.batch|..], run[1..], bound);
      }
      TwoMoreSizes(visited, bound);
    }
  }

  lemma TwoMoreSizes(points: seq<set<string>>, bound: int)
    requires |points| >= 2
    ensures SizesBetween(points, 0, 0, bound)
       <==> |points[0]| <= bound && |points[1]| <= bound && SizesBetween(points[2..], 0, 0, bound)
  {
    assert forall i :: 2 <= i < |points| ==> points[i] == points[2..][i - 2];
  }

  /** Capacity: repairing workers never pushes the cluster over its maximum, or over its initial size
      if that was larger, by more than one worker for each node that should have been removed first and
      was not, and for each worker that was created beyond what its round takes on. */
  lemma {:induction false} NeverAboveCapacity(workers: set<string>, limit: int, nodes: seq<Node>, run: seq<Round>,
                                              bound: int)
    requires Repairable(workers, nodes) && IsRun(workers, limit, nodes, run) && Tidy(nodes)
    requires |workers| <= bound && limit <= bound
    ensures SizesBetween(Visited(workers, run), 0, 0, bound + Overshoots(run) + Excess(run))
    decreases |run|
  {
    if run != [] {
      var r := run[0];
      var more := Overshoots([r]) + Excess([r]);
      TidyBounds(workers, limit, nodes, r);
      TidyRest(workers, limit, nodes, r);
      TidyRound(workers, limit, nodes, r);
      NeverAboveCapacity(After(workers, r), limit, nodes[|r.batch|..], run[1..], bound + more);
      OneMoreVisit(workers, run, 0, bound + Overshoots(run) + Excess(run));
    }
  }

  lemma {:induction false} NothingDropped(run: seq<Round>)
    requires AllRemoved(run)
    ensures Overshoots(run) == 0 && DroppedWorkers(run) == 0
  {
    if run != [] {
      NothingDropped(run[1..]);
    }
  }

  /** If every request is carried out and no batch dropped, the cluster is never more than one worker
      short, nor larger than it was or may be, and it is back at its initial size after every round. */
  lemma {:induction false} SizeEnvelope(workers: set<string>, limit: int, nodes: seq<Node>, run: seq<Round>)
    requires Repairable(workers, nodes) && IsRun(workers, limit, nodes, run) && Tidy(nodes)
    requires Honoured(run) && AllRemoved(run)
    ensures SizesBetween(Visited(workers, run), 0, |workers| - 1, Ceiling(|workers|, limit))
    ensures |Final(workers, run)| == |workers|
    decreases |run|
  {
    if run != [] {
      var r := run[0];
      FullRound(workers, limit, nodes, r);
      SizeEnvelope(After(workers, r), limit, nodes[|r.batch|..], run[1..]);
      OneMoreVisit(workers, run, |workers| - 1, Ceiling(|workers|, limit));
    }
  }

  /** Each node that is not a worker and stands before one, and each worker of a dropped batch, leaves
      exactly one worker too many. */
  lemma {:induction false} StraysGrowTheCluster(workers: set<string>, limit: int, nodes: seq<Node>, run: seq<Round>)
    requires Repairable(workers, nodes) && IsRun(workers, limit, nodes, run) && Honoured(run)
    ensures |Final(workers, run)| == |workers| + Strays(nodes) + DroppedWorkers(run)
    decreases |run|
  {
    if run != [] {
      var r := run[0];
      RoundEffect(workers, limit, nodes, r);
      StraysOfPrefix(nodes, |r.batch|);
      assert nodes[..|r.batch|] == r.batch;
      StraysGrowTheCluster(After(workers, r), limit, nodes[|r.batch|..], run[1..]);
    }
  }

  // A dropped batch of a tidy list is a batch of workers.
  lemma {:induction false} TidyDrops(workers: set<string>, limit: int, nodes: seq<Node>, run: seq<Round>)
    requires IsRun(workers, limit, nodes, run) && Tidy(nodes) && DroppedWorkers(run) == 0
    ensures AllRemoved(run)
    decreases |run|
  {
    if run != [] {
      var r := run[0];
      BatchBounds(workers, limit, nodes);
      TidyBatch(nodes, |r.batch|);
      assert nodes[..|r.batch|] == r.batch;
      TidyDrops(After(workers, r), limit, nodes[|r.batch|..], run[1..]);
    }
  }

  /** A repair that gets all the workers it asks for restores the size of the cluster if and only if no
      unhealthy node that is not a worker is listed before a worker, and no batch is dropped because
      the cluster is not idle when its removal is due. */
  lemma SizeRestoredIff(workers: set<string>, limit: int, nodes: seq<Node>, run: seq<Round>)
    requires Repairable(workers, nodes) && IsRun(workers, limit, nodes, run) && Honoured(run)
    ensures |Final(workers, run)| == |workers| <==> Tidy(nodes) && AllRemoved(run)
  {
    StraysGrowTheCluster(workers, limit, nodes, run);
    TidyHasNoStrays(nodes);
    if Tidy(nodes) && DroppedWorkers(run) == 0 {
      TidyDrops(workers, limit, nodes, run);
    }
    if AllRemoved(run) {
      NothingDropped(run);
    }
  }

  // Who stays through a round, apart from those who are still to be repaired.
  lemma RoundStays(workers: set<string>, r: Round, all: set<string>, rest: set<string>)
    requires all == Names(r.batch) + rest && Names(r.batch) !! rest && all <= workers
    ensures var stay := workers - all + Dropped(r);
      stay <= After(workers, r) - rest <= stay + r.created
  {
  }

  /** Who is left: every worker that was not to be repaired stays, and so do those whose batch was
      dropped; every other worker at the end was created during the run. */
  lemma {:induction false} OnlyTargetsReplaced(workers: set<string>, limit: int, nodes: seq<Node>, run: seq<Round>)
    requires Repairable(workers, nodes) && IsRun(workers, limit, nodes, run)
    ensures var stay := workers - Names(nodes) + AllDropped(run);
      stay <= Final(workers, run) <= stay + AllCreated(run)
    decreases |run|
  {
    if run != [] {
      var r := run[0];
      RoundEffect(workers, limit, nodes, r);
      RepairableParts(workers, nodes, |r.batch|);
      assert nodes[..|r.batch|] == r.batch;
      RoundStays(workers, r, Names(nodes), Names(nodes[|r.batch|..]));
      OnlyTargetsReplaced(After(workers, r), limit, nodes[|r.batch|..], run[1..]);
    }
  }

  // ---------------------------------------------------------------- where the size is not restored

  lemma OneName(name: string)
    ensures WorkerNames([Bare(name)]) == if IsWorker(name) then [name] else []
  {
    assert [Bare(name)][..0] == [];
  }

  // The whole repair of a single worker in a cluster at or over its maximum.
  lemma LastRound(workers: set<string>, limit: int, name: string, r: Round)
    requires IsWorker(name) && name in workers && |workers| >= limit
    requires r.deleteFirst && r.batch == [Bare(name)] && |r.created| == 1 && r.created !! workers
    ensures IsRun(workers, limit, [Bare(name)], [r])
  {
    OneName(name);
    assert [Bare(name)][1..] == [] && [r][1..] == [];
  }

  lemma UntidyGrows(workers: set<string>, limit: int, nodes: seq<Node>, run: seq<Round>)
    requires Repairable(workers, nodes) && IsRun(workers, limit, nodes, run) && Honoured(run) && !Tidy(nodes)
    ensures |Final(workers, run)| > |workers|
  {
    StraysGrowTheCluster(workers, limit, nodes, run);
    TidyHasNoStrays(nodes);
  }

  lemma UntidyPair(master: string, worker: string)
    requires !IsWorker(master) && IsWorker(worker)
    ensures var nodes := [Bare(master), Bare(worker)];
      WorkerNames(nodes) == [worker] && !Tidy(nodes) && Repairable({worker}, nodes) && nodes[1..] == [Bare(worker)]
  {
    hide IsWorker;
    var nodes := [Bare(master), Bare(worker)];
    OneName(master);
    OneName(worker);
    WorkerNamesConcat([Bare(master)], [Bare(worker)]);
    assert nodes == [Bare(master)] + [Bare(worker)];
    assert nodes[0].name == master && nodes[1].name == worker;
  }

  // A round that takes on the master alone, and one that takes on the worker.
  lemma PairIsRun(master: string, worker: string, a: string, b: string)
    requires !IsWorker(master) && IsWorker(worker) && a != worker && b != a && b != worker
    ensures IsRun({worker}, 2, [Bare(master), Bare(worker)],
                  [Round(false, [Bare(master)], {a}, 1)] + [Round(true, [Bare(worker)], {b}, 1)])
  {
    var first, second := Round(false, [Bare(master)], {a}, 1), Round(true, [Bare(worker)], {b}, 1);
    UntidyPair(master, worker);
    OneName(master);
    assert After({worker}, first) == {worker, a};
    LastRound({worker, a}, 2, worker, second);
    RunGrows({worker}, 2, [Bare(master), Bare(worker)], first, [second]);
  }

  /** A master listed before a worker, in a cluster of that worker that may have two: the master's batch
      adds a worker and removes none. */
  lemma UntidyListGrows() returns (workers: set<string>, limit: int, nodes: seq<Node>, run: seq<Round>)
    ensures Repairable(workers, nodes) && IsRun(workers, limit, nodes, run) && Complete(run) && !Tidy(nodes)
    ensures |Final(workers, run)| > |workers|
  {
    var worker, master := WorkerOrNot();
    workers, limit, nodes := {worker}, 2, [Bare(master), Bare(worker)];
    run := [Round(false, [Bare(master)], {worker + "2"}, 1)] + [Round(true, [Bare(worker)], {worker + "3"}, 1)];
    assert (worker + "2")[|worker|] == '2' && (worker + "3")[|worker|] == '3';
    PairIsRun(master, worker, worker + "2", worker + "3");
    UntidyPair(master, worker);
    UntidyGrows(workers, limit, nodes, run);
  }

  /** One worker that may have a second beside it, in a cluster that is busy again when the first half of
      the round is over: the replacement is there, the node stays, and the repair is over. */
  lemma DroppedBatchGrows(worker: string, a: string)
    requires IsWorker(worker) && a != worker
    ensures var workers, nodes, run := {worker}, [Bare(worker)], [Round(false, [Bare(worker)], {a}, 0)];
      && Repairable(workers, nodes) && IsRun(workers, 2, nodes, run) && Honoured(run) && Tidy(nodes)
      && Final(workers, run) == {worker, a}
  {
    var nodes, run := [Bare(worker)], [Round(false, [Bare(worker)], {a}, 0)];
    OneName(worker);
    assert nodes[1..] == [] && run[1..] == [];
    assert After({worker}, run[0]) == {worker, a};
  }

  // ---------------------------------------------------------------- batches

  // The batches of a run, in order, make up the list up to `rest`.
  ghost predicate Splits(nodes: seq<Node>, run: seq<Round>, rest: seq<Node>) {
    if run == [] then rest == nodes
    else run[0].batch <= nodes && Splits(nodes[|run[0].batch|..], run[1..], rest)
  }

  lemma SplitsTogether(nodes: seq<Node>, r: Round, run: seq<Round>, rest: seq<Node>)
    requires r.batch <= nodes && Splits(nodes[|r.batch|..], run, rest)
    ensures Splits(nodes, [r] + run, rest)
  {
    assert ([r] + run)[0] == r && ([r] + run)[1..] == run;
  }

  // The workers of the batches, batch after batch.
  function BatchedNames(run: seq<Round>): seq<string> {
    if run == [] then [] else WorkerNames(run[0].batch) + BatchedNames(run[1..])
  }

  function Copies(n: nat, names: seq<string>): seq<seq<string>> {
    if n == 0 then [] else Copies(n - 1, names) + [names]
  }

  // The lists of names handed to scale-down: each batch's workers, as often as its removal was asked for.
  function Removals(run: seq<Round>): seq<seq<string>> {
    if run == [] then [] else Copies(run[0].removals, WorkerNames(run[0].batch)) + Removals(run[1..])
  }

  /** The workers of the batches are, in order, the workers of the list up to the rest: when no worker is
      left in the rest, every worker is in exactly one batch, as often as it is listed. */
  lemma {:induction false} EveryWorkerInOneBatch(nodes: seq<Node>, run: seq<Round>, rest: seq<Node>)
    requires Splits(nodes, run, rest)
    ensures WorkerNames(nodes) == BatchedNames(run) + WorkerNames(rest)
  {
    if run != [] {
      var k := |run[0].batch|;
      SplitNames(nodes, k);
      assert nodes[..k] == run[0].batch;
      EveryWorkerInOneBatch(nodes[k..], run[1..], rest);
    }
  }

  // ---------------------------------------------------------------- number of rounds

  // The batches of at most g that it takes to get through k.
  function BatchesOf(k: int, g: int): nat
    requires g > 0
    decreases k
  {
    if k <= 0 then 0 else 1 + BatchesOf(k - g, g)
  }

  // That is k divided by g, rounded up.
  lemma {:induction false} BatchesAreCeiling(k: nat, g: int)
    requires g > 0
    ensures k <= BatchesOf(k, g) * g < k + g
    decreases k
  {
    if k > g {
      BatchesAreCeiling(k - g, g);
      assert BatchesOf(k, g) * g == BatchesOf(k - g, g) * g + g;
    } else if k > 0 {
      assert BatchesOf(k - g, g) == 0;
    }
  }

  // The largest batch: the free capacity below the maximum, a single node at the maximum.
  function FullBatch(size: int, limit: int): (g: int)
    ensures g > 0
  {
    if size < limit then limit - size else 1
  }

  lemma OneBatch(size: int, limit: int, toRepair: int, left: int, batches: nat)
    requires toRepair > 0 && left == toRepair - BatchSize(size, limit, toRepair)
    requires batches == BatchesOf(left, FullBatch(size, limit))
    ensures 1 + batches == BatchesOf(toRepair, FullBatch(size, limit))
  {
  }

  /** With all requests carried out and no batch dropped a run takes exactly as many rounds as full batches are
      needed. */
  lemma {:induction false} RoundCount(workers: set<string>, limit: int, nodes: seq<Node>, run: seq<Round>)
    requires Repairable(workers, nodes) && IsRun(workers, limit, nodes, run) && Tidy(nodes)
    requires Honoured(run) && AllRemoved(run)
    ensures |run| == BatchesOf(|WorkerNames(nodes)|, FullBatch(|workers|, limit))
    decreases |run|
  {
    if run != [] {
      var r, rest, left := run[0], run[1..], nodes[|run[0].batch|..];
      FullRound(workers, limit, nodes, r);
      RoundCount(After(workers, r), limit, left, rest);
      OneBatch(|workers|, limit, |WorkerNames(nodes)|, |WorkerNames(left)|, |rest|);
    }
  }
}
