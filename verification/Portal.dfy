/**
  The outside world of the repairer: the portal that scales the cluster, the node lister and the
  autoscaler's configuration. Every answer comes from an environment that is fixed before the run
  but otherwise arbitrary: a function of the number of calls made so far.
 */
module Portal {
  import opened Nodes
  import opened Selections

  datatype Status = Succeeded | Scaling | Errored | OtherStatus

  // The answer to a scale-up request: refused for quota, or taken, with the workers it creates.
  datatype Reply = QuotaReached | Taken(created: set<string>)

  datatype Request = ScaleUp(count: int) | ScaleDown(names: seq<string>)

  datatype Owner = Owner(kind: string, replicas: int)

  // A pod, its owner references and, for each volume, whether it is an empty directory.
  datatype Pod = Pod(nodeName: string, owners: seq<Owner>, volumes: seq<bool>)

  datatype Environment = Environment(
    status: nat -> Status,
    listing: nat -> seq<Node>,
    maxSize: nat -> int,
    reply: (nat, int) -> Reply,
    pods: nat -> seq<Pod>,
    connects: nat -> bool,
    reboots: nat -> bool)

  // An idle cluster without nodes or pods that creates nothing; a start for examples.
  const STILL := Environment(_ => Succeeded, _ => [], _ => 0, (_, _) => QuotaReached, _ => [], _ => true, _ => true)

  // ---------------------------------------------------------------- worker nodes

  predicate Contains(s: string, part: string) {
    part <= s || (s != [] && Contains(s[1..], part))
  }

  predicate IsWorker(name: string) { Contains(name, "worker") }

  predicate StandsAt(s: string, part: string, k: int) {
    0 <= k <= |s| - |part| && s[k..k + |part|] == part
  }

  /** A worker is a node in whose name "worker" stands somewhere. */
  lemma IsWorkerIff(name: string)
    ensures IsWorker(name) <==> exists k :: StandsAt(name, "worker", k)
  {
    ContainsIff(name, "worker");
  }

  lemma {:induction false} ContainsIff(s: string, part: string)
    ensures Contains(s, part) <==> exists k :: StandsAt(s, part, k)
  {
    if part <= s {
      assert StandsAt(s, part, 0);
    } else if s != [] {
      ContainsIff(s[1..], part);
      if k :| StandsAt(s, part, k) {
        assert StandsAt(s[1..], part, k - 1);
      }
      if k :| StandsAt(s[1..], part, k) {
        assert StandsAt(s, part, k + 1);
      }
    }
  }

  /** The worker names of a list are the names of its workers, in order and as often as they are listed. */
  lemma {:induction false} WorkerNamesSelect(nodes: seq<Node>) returns (at: seq<nat>)
    ensures Selects(nodes, WorkerNode, NameOf, at, WorkerNames(nodes))
  {
    hide Selects;
    NoEntries(WorkerNode, NameOf);
    at := [];
    if nodes != [] {
      var front, last := nodes[..|nodes| - 1], nodes[|nodes| - 1];
      at := WorkerNamesSelect(front);
      OneMoreEntry(front, last, WorkerNode, NameOf, at, WorkerNames(front));
      assert nodes == front + [last];
      assert WorkerNames(nodes) == if WorkerNode(last) then WorkerNames(front) + [last.name] else WorkerNames(front);
      at := if WorkerNode(last) then at + [|front|] else at;
    }
  }

  predicate WorkerNode(n: Node) { IsWorker(n.name) }

  function NameOf(n: Node): string { n.name }

  // A node of which only the name matters.
  function Bare(name: string): Node { Node(name, 0, false, [], []) }

  lemma {:induction false} NoWorkerWithoutW(name: string)
    requires 'w' !in name
    ensures !IsWorker(name)
  {
    assert "worker"[0] == 'w';
    if name != [] {
      NoWorkerWithoutW(name[1..]);
    }
  }

  lemma {:induction false} WorkerStays(name: string, suffix: string)
    requires IsWorker(name)
    ensures IsWorker(name + suffix)
  {
    if !("worker" <= name) {
      WorkerStays(name[1..], suffix);
      assert (name + suffix)[1..] == name[1..] + suffix;
    }
  }

  lemma WorkerOrNot() returns (worker: string, master: string)
    ensures IsWorker(worker) && !IsWorker(master)
  {
    worker, master := "worker", "master";
    NoWorkerWithoutW(master);
  }

  function WorkerNames(nodes: seq<Node>): (names: seq<string>)
    ensures |names| <= |nodes|
  {
    if nodes == [] then []
    else
      var last := nodes[|nodes| - 1];
      WorkerNames(nodes[..|nodes| - 1]) + if IsWorker(last.name) then [last.name] else []
  }

  lemma {:induction false} WorkerNamesConcat(a: seq<Node>, b: seq<Node>)
    ensures WorkerNames(a + b) == WorkerNames(a) + WorkerNames(b)
  {
    if b == [] {
      assert a + b == a;
    } else {
      var front, last := b[..|b| - 1], b[|b| - 1];
      WorkerNamesConcat(a, front);
      assert (a + b)[..|a + b| - 1] == a + front;
      var more := if IsWorker(last.name) then [last.name] else [];
      assert WorkerNames(a) + (WorkerNames(front) + more) == (WorkerNames(a) + WorkerNames(front)) + more;
    }
  }

  lemma {:induction false} WorkerNamesSound(nodes: seq<Node>, name: string)
    requires name in WorkerNames(nodes)
    ensures IsWorker(name) && exists n :: n in nodes && n.name == name
  {
    var front, last := nodes[..|nodes| - 1], nodes[|nodes| - 1];
    if name in WorkerNames(front) {
      WorkerNamesSound(front, name);
      var n :| n in front && n.name == name;
      assert n in nodes;
    } else {
      assert last in nodes && last.name == name;
    }
  }

  method WorkerNodeCount(nodes: seq<Node>) returns (numberWorkerNode: nat, workerNodeNameList: seq<string>)
    ensures workerNodeNameList == WorkerNames(nodes) && numberWorkerNode == |WorkerNames(nodes)|
  {
    numberWorkerNode, workerNodeNameList := 0, [];
    for i := 0 to |nodes|
      invariant workerNodeNameList == WorkerNames(nodes[..i]) && numberWorkerNode == |workerNodeNameList|
    {
      assert nodes[..i + 1][..i] == nodes[..i];
      if IsWorker(nodes[i].name) {
        numberWorkerNode := numberWorkerNode + 1;
        workerNodeNameList := workerNodeNameList + [nodes[i].name];
      }
    }
    assert nodes[..|nodes|] == nodes;
  }

  ghost function Elements(names: seq<string>): set<string> { set name | name in names }

  ghost predicate Distinct(names: seq<string>) {
    forall i, j :: 0 <= i < j < |names| ==> names[i] != names[j]
  }

  lemma {:induction false} DistinctSize(names: seq<string>)
    requires Distinct(names)
    ensures |Elements(names)| == |names|
  {
    if names != [] {
      var front, last := names[..|names| - 1], names[|names| - 1];
      DistinctSize(front);
      assert Elements(names) == Elements(front) + {last};
    }
  }

  // A listing that shows each current worker once.
  ghost predicate Truthful(nodes: seq<Node>, workers: set<string>) {
    Distinct(WorkerNames(nodes)) && Elements(WorkerNames(nodes)) == workers
  }

  lemma TruthfulSize(nodes: seq<Node>, workers: set<string>)
    requires Truthful(nodes, workers)
    ensures |WorkerNames(nodes)| == |workers|
  {
    DistinctSize(WorkerNames(nodes));
  }

  // The workers that a scale-up request made at time t creates: none if it is refused.
  function Granted(env: Environment, t: nat, count: int): set<string> {
    match env.reply(t, count) case QuotaReached => {} case Taken(created) => created
  }

  // Every set of workers since the first n is the given one.
  ghost predicate SettlesOn(points: seq<set<string>>, n: nat, workers: set<string>) {
    forall i :: n <= i < |points| ==> points[i] == workers
  }

  // Every set of workers since the first n lies between two sets.
  ghost predicate Between(points: seq<set<string>>, n: nat, low: set<string>, high: set<string>) {
    forall i :: n <= i < |points| ==> low <= points[i] <= high
  }

  // If the workers are not those at the start, they have been what they are now since the first n.
  ghost predicate Reaches(points: seq<set<string>>, n: nat, start: set<string>, now: set<string>) {
    now == start || exists i :: n <= i < |points| && points[i] == now
  }

  // Every set of workers since the first n is of a size between two bounds.
  ghost predicate SizesBetween(points: seq<set<string>>, n: nat, low: int, high: int) {
    forall i :: n <= i < |points| ==> low <= |points[i]| <= high
  }

  lemma SubsetSize(a: set<string>, b: set<string>)
    requires a <= b
    ensures |a| <= |b|
  {
    assert b == a + (b - a);
  }

  // The larger of the size and the maximum.
  function Ceiling(size: int, limit: int): int { if size < limit then limit else size }

  // ---------------------------------------------------------------- what has happened

  /** What has happened by some moment: the requests sent and the time, in calls; and, if every request the
      portal takes is carried out, the workers there are and all sets of workers there have been. */
  datatype State = State(requests: seq<Request>, time: nat, workers: set<string>, points: seq<set<string>>)

  function AskUp(env: Environment, s: State, count: int): State {
    var now := s.workers + Granted(env, s.time, count);
    State(s.requests + [ScaleUp(count)], s.time + 1, now,
          if env.reply(s.time, count).QuotaReached? then s.points else s.points + [now])
  }

  ghost function AskDown(s: State, names: seq<string>): State {
    var now := s.workers - Elements(names);
    State(s.requests + [ScaleDown(names)], s.time + 1, now, s.points + [now])
  }

  // ---------------------------------------------------------------- the client

  /** Calls to the outside world. */
  class Client {
    const env: Environment
    var clock: nat
    var requests: seq<Request>
    ghost var workers: set<string>
    ghost var points: seq<set<string>>

    constructor (env: Environment, ghost workers: set<string>)
      ensures this.env == env && Now() == State([], 0, workers, [])
    {
      this.env, this.workers := env, workers;
      clock, requests, points := 0, [], [];
    }

    ghost function Now(): State
      reads this
    {
      State(requests, clock, workers, points)
    }

    method CheckStatusCluster() returns (isSucceeded: bool)
      modifies this`clock
      ensures clock == old(clock) + 1 && isSucceeded == (env.status(old(clock)) == Succeeded)
    {
      isSucceeded := env.status(clock).Succeeded?;
      clock := clock + 1;
    }

    method CheckErrorStatusCluster() returns (isError: bool)
      modifies this`clock
      ensures clock == old(clock) + 1 && isError == (env.status(old(clock)) == Errored)
    {
      isError := env.status(clock).Errored?;
      clock := clock + 1;
    }

    method ListNodes() returns (nodes: seq<Node>)
      modifies this`clock
      ensures clock == old(clock) + 1 && nodes == env.listing(old(clock))
    {
      nodes := env.listing(clock);
      clock := clock + 1;
    }

    method GetMaxSizeNodeGroup() returns (max: int)
      modifies this`clock
      ensures clock == old(clock) + 1 && max == env.maxSize(old(clock))
    {
      max := env.maxSize(clock);
      clock := clock + 1;
    }

    method ListPods() returns (pods: seq<Pod>)
      modifies this`clock
      ensures clock == old(clock) + 1 && pods == env.pods(old(clock))
    {
      pods := env.pods(clock);
      clock := clock + 1;
    }

    // Connects to the infrastructure and restarts the node's machine; false if either fails.
    method RebootVM(vmName: string) returns (connected: bool, rebooted: bool)
      modifies this`clock
      ensures clock == old(clock) + 1
      ensures connected == env.connects(old(clock)) && rebooted == (connected && env.reboots(old(clock)))
    {
      connected, rebooted := env.connects(clock), env.connects(clock) && env.reboots(clock);
      clock := clock + 1;
    }

    method PerformScaleUp(count: int) returns (quotaReached: bool)
      modifies this
      ensures Now() == AskUp(env, old(Now()), count)
      ensures quotaReached == env.reply(old(clock), count).QuotaReached?
    {
      var reply := env.reply(clock, count);
      quotaReached := reply.QuotaReached?;
      workers := workers + Granted(env, clock, count);
      clock, requests := clock + 1, requests + [ScaleUp(count)];
      if reply.Taken? {
        points := points + [workers];
      }
    }

    method PerformScaleDown(names: seq<string>)
      modifies this
      ensures Now() == AskDown(old(Now()), names)
    {
      clock, requests := clock + 1, requests + [ScaleDown(names)];
      workers := workers - Elements(names);
      points := points + [workers];
    }
  }
}
