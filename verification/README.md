# Verified model of the node auto-repair controller

The repository repairs Kubernetes nodes that stop being ready: it reboots them, replaces them through
a portal that scales the cluster, or repairs whole batches of them, and it keeps the books that these
decisions depend on. This project models that logic in Dafny and proves what it promises.

| file | models |
|---|---|
| `NodeGroupSet.dfy` | distribution of new nodes over node groups, an in-place water-filling loop |
| `Nodes.dfy` | folding readiness out of conditions and taints; the filtered node listers |
| `Selections.dfy` | what it means to select entries of a list, in order |
| `Portal.dfy` | the outside world: status, listings, configuration, replies, pods; worker nodes |
| `RepairRounds.dfy` | the batch repair as a protocol of rounds, and the theorems about whole runs |
| `BlockingCalls.dfy` | the code of the batch repair's calls: quota back-off, scale-up and scale-down with waiting |
| `BatchRepair.dfy` | the code of the batch repair: batches, the recursion, `RunOnce` |
| `Scaler.dfy` | the request/poll/retry protocol of scale-up and scale-down; the pod scan |
| `ControllerSteps.dfy` | the controller as interleaved atomic steps of an informer and a worker |
| `NodeReplacement.dfy` | the replacement of one node, and what it does to the workers |
| `Controller.dfy` | the controller's methods: handler, escalation from reboot to replacement, the checks |
| `DeletionTracker.dfy` | counters of deletions in progress and pending deletion results |
| `LogCollector.dfy` | the bounded log |
| `ClusterState.dfy` | condition transition times and first-seen records of unregistered nodes |

**The outside world.** Every answer from outside comes from an `Environment`, a record of functions of
the number of calls made so far, so a statement about a method holds for every behaviour of the portal,
the lister and the configuration. `Portal.Client` records what has happened as a `State`: the requests sent
and the time in calls; and, if every request the portal takes is carried out, the workers there are and all
sets of workers there have been. What the code of the batch repair and of a replacement does to this state
is stated exactly, for every environment, by a function of the environment; what the source promises is
proved of these functions. The size results of the batch repair count on one thing only (`LooksAreTrue`):
the looks that decide about a round show so many workers as there are, and the same maximum. The cluster
may be busy for as long as it likes and report errors, and the portal may refuse requests and grant them in
part, in full or twice.

**Unbounded loops.** The repair recursion and the polling loops of the scaler have no bound in the
source. The model observes their first `rounds` or `polls` iterations; safety is proved for every such
prefix, and separate results say exactly when they end.

**The balancer** is present in the repository only as commented-out text (`utils/nodegroupset/scale_up.go`);
the model follows that text. The loop invariants written there name `CurrentSize` where the loop changes
`NewSize`, and a full group may stay in the array until it is visited; `FillState` is the invariant that
holds.

## Where the code does not do what it says

Each of these is proved, with the exact condition under which the code does or does not meet the intent,
and an input at which it does not.

- Batches of unhealthy nodes are cut by position while only workers are removed, and a batch whose removal
  is due while the cluster is busy is dropped without a word: a repair that gets all its workers keeps the
  size of the cluster if and only if no node that is not a worker is listed before a worker and no batch is
  dropped (`SizeRestoredIff`; `UntidyListGrows`, `DroppedBatchGrows`).
- A scale-up that meets an error asks for the full count again, whatever it was granted before: a repair
  stays within the maximum if and only if what each round is granted, over all its requests, fits
  (`CeilingIff`; `RetryAddsToPartialGrant`).
- A create-first round looks at the cluster twice. If the second look shows more workers than the
  maximum, the batch has a negative bound and the process panics; if it shows as many, the batch is
  empty and the recursion goes on with the same list (`RepairIsExplained`; `RepairMayPanic`).
- The cap of the balancer is documented as the total free capacity; a group above its maximum lowers it
  (`CapIsFreeCapacity`; `GroupAboveMaximumLowersCap`).
- A create-first replacement still removes the node when its scale-up is skipped because the cluster is
  busy, is refused for quota, or is taken and brings nobody: the cluster shrinks exactly when no request
  brings anybody (`CreateFirstShrinksIff`; `BusyClusterShrinks`, `RefusedRequestShrinks`, `EmptyGrantShrinks`).
  A retry may make good a first request that failed (`RetryKeepsSize`).
- A create-first replacement is meant for a cluster below its maximum and stay within it. It passes the
  maximum on its way when a request and its retry both bring a worker and there is room for one
  (`CreateFirstPassesMaximumIff`, `PassesMaximumByRetry`; `RetryPassesMaximum`).
- The repository's README has a cluster at its maximum remove first. If the removal is skipped because the
  cluster is busy, the worker is created all the same, and the cluster ends above its maximum
  (`RemoveFirstPassesMaximumIff`; `SkippedRemovalPassesMaximum`).
- The check after a replacement is documented as one of all nodes; one ready node satisfies it, whatever
  the replacement did. So a node may lose its mark without being ready (`ReleasesUnreadyIff`,
  `MarksAreAccounted`; `NothingDoneReleases`, `ReleasedUnseen`).
- A mark in `enqueueMap` does not keep a node from being enqueued again before it is processed
  (`QueuedAgainIff`; `QueuedTwice`).
- The limit of 100 polls in `ScaleDown` never takes effect, because the counter is declared inside the
  loop; a cluster that stays in error after the retry is polled for good (`PollScaleDown`, `EndsIff`; `NeverEndsInError`).
- The repository's README speaks of ten minutes before a node counts as not ready; the code waits five.

## Model

| member | source | states |
|---|---|---|
| NodeGroupSet.BalanceScaleUpBetweenGroups | utils/nodegroupset/scale_up.go:55-153 | errors exactly for no groups and for a failed size query; otherwise a plan for exactly the given groups that are not at their maximum, which stays within limits and is fair; what changed is reported, within the maximum of a given group, and grows by `newNodes`, capped by the sum of the given groups' room and never less than nothing |
| NodeGroupSet.Fill | utils/nodegroupset/scale_up.go:109-142 | in place: same groups, exactly the requested increase, limits and fairness, at most one iteration per node and per group, no index out of range |
| NodeGroupSet.Visit | utils/nodegroupset/scale_up.go:112-141 | one iteration of the loop: grow or swap out, then the next index, as a function of the array |
| NodeGroupSet.GrowKeepsFillState | utils/nodegroupset/scale_up.go:114-117 | adding a node keeps the loop invariant |
| NodeGroupSet.RemoveKeepsFillState | utils/nodegroupset/scale_up.go:118-126 | swapping a full group out keeps the loop invariant |
| NodeGroupSet.FillStateIsFair | utils/nodegroupset/scale_up.go:99-105 | the loop invariant implies that a group that got a node is at most one larger than any group with room |
| NodeGroupSet.RoomLeft | utils/nodegroupset/scale_up.go:93-97 | while nodes remain, both indices are inside the array |
| NodeGroupSet.CollectCandidates | utils/nodegroupset/scale_up.go:61-82 | the candidates among the groups and their capacity, or failure if any size query fails |
| NodeGroupSet.CandidatesSelect | utils/nodegroupset/scale_up.go:61-82 | the candidates are the groups whose size is not their maximum, in order, with their own size and maximum |
| NodeGroupSet.CandidatesCount | utils/nodegroupset/scale_up.go:71-82 | for every size and maximum that differ there are as many candidates with both as groups, and none where they are equal |
| NodeGroupSet.CandidatesCapacity | utils/nodegroupset/scale_up.go:71-86 | the candidates have the room of all groups: the sum of maximum less size |
| NodeGroupSet.PlanServesGroups | utils/nodegroupset/scale_up.go:61-152 | what a filled plan reports, in terms of the given groups: whose it is, within which maximum, and by how much in all |
| NodeGroupSet.SelectChanged | utils/nodegroupset/scale_up.go:144-150 | exactly the groups whose size changed, in order |
| NodeGroupSet.ChangedSelects | utils/nodegroupset/scale_up.go:144-150 | what changed are the entries of the plan whose new size is not their current one, in order |
| NodeGroupSet.ReportedIncrease | utils/nodegroupset/scale_up.go:144-152 | the reported groups carry the whole increase |
| NodeGroupSet.CapIsFreeCapacity | utils/nodegroupset/scale_up.go:52-54 | the computed capacity is the free capacity if and only if no group is above its maximum, and never more |
| NodeGroupSet.GroupAboveMaximumLowersCap | utils/nodegroupset/scale_up.go:61-86 | two groups with room for two whose cap is one |
| NodeGroupSet.AsEvenAsPossible | utils/nodegroupset/scale_up.go:46-48 | of all ways to add as many nodes within the limits, a fair plan has the least total for every convex cost of a group's size |
| Nodes.GetNodeReadiness | utils/kubernetes/ready.go:76-131 | error exactly without a Ready condition; ready exactly if nothing spoils it; the latest relevant time; the last reason |
| Nodes.FoldReadsAll | utils/kubernetes/ready.go:81-121 | the fold over conditions and taints computes the declarative readiness |
| Nodes.ReadyIff | utils/kubernetes/ready.go:76-131 | ready if and only if there is a Ready condition and no condition and no taint says otherwise; an error exactly without a Ready condition |
| Nodes.LatestChange | utils/kubernetes/ready.go:81-121 | the time is the latest of all conditions and timed taints that matter, or the zero time |
| Nodes.LastReasonIs | utils/kubernetes/ready.go:81-97 | the reason is that of the last Ready condition that is false or unknown |
| Nodes.ReadinessIgnoresOrder | utils/kubernetes/ready.go:76-131 | error, readiness and time do not change when conditions and taints are permuted |
| Nodes.GetUnreadyNodeCopy | utils/kubernetes/ready.go:134-150 | the copy has one Ready condition, false, in front of the other conditions |
| Nodes.UnreadyCopyIs | utils/kubernetes/ready.go:134-150 | the copy differs in its conditions only: a false Ready condition as old as the node, then the other kinds in order |
| Nodes.UnreadyCopyReadsBack | utils/kubernetes/ready.go:134-150 | reading the copy of any node gives not ready with the given reason and a time no earlier than its creation |
| Nodes.IsNodeReadyAndSchedulable | utils/kubernetes/ready.go:45-55 | ready and not cordoned |
| Nodes.IsNotNodeReadyAndSchedulable | utils/kubernetes/ready.go:157-167 | not ready, whether cordoned or not |
| Nodes.FilterNodes | utils/kubernetes/listers.go:297-305 | the nodes that pass the filter, in order |
| Nodes.FilteredSelects | utils/kubernetes/listers.go:297-305 | filtering selects what passes, in order and as often as it is listed |
| Nodes.FilteredCount | utils/kubernetes/listers.go:272-305 | filtering keeps every occurrence of a passing node and none of another |
| Nodes.ListersPartition | utils/kubernetes/listers.go:244-252 | the ready and the not-ready list share no node and together miss exactly the ready cordoned ones |
| Nodes.ListedIff | utils/kubernetes/listers.go:244-252 | who is in which list |
| Portal.WorkerNodeCount | core/util.go:307-318 | the worker names of the list and their number |
| Portal.WorkerNamesSelect | core/util.go:307-318 | the worker names are the names of the workers, in order and as often as they are listed |
| Portal.IsWorkerIff | core/util.go:311 | a worker is a node in whose name "worker" stands somewhere |
| RepairRounds.NeverAboveCapacity | core/util.go:279-304 | a repair of listed workers exceeds the larger of its size and its maximum by no more than the nodes that were to be removed first and were dropped, and the workers granted beyond what their rounds take on |
| RepairRounds.WithinBoundIff | core/util.go:118-195 | for any list and any rounds: within a bound exactly as long as what each round is granted, over all its requests, fits below it |
| RepairRounds.SizeEnvelope | core/util.go:279-304 | with all requests carried out and nothing dropped the size stays between one short and that bound at every point, and ends where it began |
| RepairRounds.SizeRestoredIff | core/util.go:198-276 | with all workers granted the size is restored if and only if no non-worker is listed before a worker and no batch is dropped |
| RepairRounds.UntidyListGrows | core/util.go:284-301 | a master listed before a worker: a complete repair that leaves the cluster larger |
| RepairRounds.DroppedBatchGrows | core/util.go:217-251 | a dropped batch: the replacement is there, the node stays, the repair is over |
| RepairRounds.StraysGrowTheCluster | core/util.go:296-301 | each non-worker before the last worker, and each worker of a dropped batch, leaves exactly one worker too many |
| RepairRounds.OnlyTargetsReplaced | core/util.go:279-304 | workers not to be repaired and those of dropped batches stay; everyone else at the end was created during the run |
| RepairRounds.EveryWorkerInOneBatch | core/util.go:291-301 | the workers of the batches, in order, are exactly the workers of the list |
| RepairRounds.RoundCount | core/util.go:58-74 | the number of rounds is the number of full batches: by free capacity below the maximum, one by one at it |
| RepairRounds.BatchesAreCeiling | core/util.go:58-74 | that number is the quotient rounded up |
| RepairRounds.BatchBounds | core/util.go:58-74 | a batch takes at least one node and lies within the list |
| RepairRounds.RoundEffect | core/util.go:289-298 | a round removes exactly its batch's workers, or drops them, and leaves the rest of the list repairable |
| BatchRepair.ContainsNode | core/util.go:48-55 | whether a node of that name is in the list |
| BatchRepair.CommonNodes | core/util.go:37-45 | the nodes of the first list whose name is in the second, in order |
| BatchRepair.CommonSelects | core/util.go:37-45 | which nodes these are, with order and number |
| BlockingCalls.BackOff | core/util.go:129-138 | exactly what the back-off does, as a function of the environment |
| BlockingCalls.BackOffStops | core/util.go:129-138 | the back-off goes on as long as requests are refused, and ends with the first that is taken or with a count of one |
| BlockingCalls.BackOffIsMaximal | core/util.go:129-138 | against a fixed quota the back-off settles on the most the quota allows |
| BlockingCalls.BackOffTriesEachOnce | core/util.go:129-138 | every larger count is tried exactly once, from the largest down, and none after the first that is taken; only what that one is granted comes |
| BlockingCalls.IncreaseSize | core/util.go:118-195 | exactly the requests, the duration and the workers of the call, as a function of the environment, errors and retries included |
| BlockingCalls.IncreaseTrace | core/util.go:118-195 | the whole call from listings, status trace and replies: nothing unless idle; else one back-off and then polls, each of which asks again exactly if it reads an error, until the size is there, the cluster is idle or 30 polls are made |
| BlockingCalls.OneBackOffUnlessError | core/util.go:139-170 | if no status read during the call is an error, the requests and workers are those of one back-off |
| BlockingCalls.IncreaseGrows | core/util.go:118-195 | workers only come, one set after the other; none do if the call is skipped |
| BlockingCalls.IncreaseOnlyGranted | core/util.go:118-195 | only workers granted to a request of this call for one to `incSize` come |
| BlockingCalls.DeliveredInFull | core/util.go:118-195 | a first request granted in full, and later ones that bring nobody else: exactly `incSize` more, whatever is read |
| BlockingCalls.RetryAddsToPartialGrant | core/util.go:154-166 | an input: a partial grant, an error, and a retry that takes the cluster beyond its maximum |
| BlockingCalls.IncreaseIsBounded | core/util.go:118-195 | over all error retries a call sends at most 31 times `incSize` requests, all of them scale-ups for one to `incSize` |
| BlockingCalls.WaitForScaleUp | core/util.go:140-170 | exactly what the waiting loop does, with its retries, as a function of the environment |
| BlockingCalls.GrowthIsAwaited | core/util.go:140-170 | the waiting loop ends at the first moment at which the size last listed is the expected one, or the cluster is idle, or 30 polls are made |
| BlockingCalls.PollScaleUp | core/util.go:141-169 | one poll, as a function of the environment |
| BlockingCalls.PolledIsPoll | core/util.go:141-169 | a poll of a busy cluster backs off exactly if the status it then reads is an error, and otherwise only reads the size again |
| BlockingCalls.DeleteNodes | core/util.go:198-251 | exactly the requests, the duration and the workers of the call, as a function of the environment |
| BlockingCalls.DeleteTrace | core/util.go:198-251 | the whole call from listings and status trace: nothing unless idle; else one request, a wait for the listings, and a second request and wait exactly if an error is read after the first |
| BlockingCalls.DeleteEffect | core/util.go:198-251 | exactly the workers among the nodes are gone if the cluster is idle when the call begins, and all stay otherwise |
| BlockingCalls.DeleteHandsOver | core/util.go:198-246 | the names handed to scale-down are the workers among the nodes, once per request |
| BlockingCalls.DeleteIsBounded | core/util.go:198-246 | at most two requests, both for exactly the workers among the nodes, the second only after an error was read; bounded duration |
| BlockingCalls.RemovalIsAwaited | core/util.go:219-227 | the waiting loop ends on the first listing with the expected size, or after six |
| BatchRepair.CalcExpandSize | core/util.go:58-74 | the lesser of the workers to repair and the room of a fresh look; positive exactly if that look shows room |
| BatchRepair.RepairRound | core/util.go:288-299 | exactly what a round does; the slice bound is bad exactly if the second look shows more workers than the maximum, and then nothing is done |
| BatchRepair.LooksMayClash | core/util.go:58-74 | a cluster in which the two looks of a round clash |
| BatchRepair.RepairMayPanic | core/util.go:294-296 | an input: a repair of a listed worker that panics |
| BatchRepair.AsgRepairNodes | core/util.go:279-304 | the outcome, the requests, the duration and the workers of the whole recursion, as a function of the environment |
| BatchRepair.RepairIsOfRounds | core/util.go:279-304 | each round takes its order and its batch from the listings and maxima read when it begins |
| BatchRepair.RepairTrace | core/util.go:279-304 | each round is one removal call and one scale-up call on its batch, in its order, one round after the other, until no worker is left to repair |
| BatchRepair.RepairIsHandled | core/util.go:279-304 | any environment: batches split the list, only listed workers are removed, and the scale-downs sent are exactly those of the batches, in order |
| BatchRepair.RepairIsExplained | core/util.go:58-74 | a bad slice if and only if the looks of one of its rounds clash; no more rounds than nodes, and rounds that find no room at their second look |
| BatchRepair.RepairFollowsItsRun | core/util.go:279-304 | any environment: the workers are where the rounds lead, and have been nowhere else on the way |
| BatchRepair.RepairIsRun | core/util.go:279-304 | if looks are true: no bad slice, as many rounds as nodes suffice, and the rounds follow the protocol |
| BatchRepair.CeilingIff | core/util.go:279-304 | every point of a run is within a bound exactly if what each round is granted, over all its requests, fits |
| BatchRepair.ServedRunIsComplete | core/util.go:118-251 | idle at each call and delivered in full: every round gets its workers and removes its batch |
| BatchRepair.RepairEnvelope | core/util.go:279-304 | if looks are true: the code's own points obey the size envelope, with the exact ceiling, and its rounds are counted, whatever is read and granted |
| BatchRepair.RepairNodes | core/util.go:322-354 | hands the targets to the recursion |
| BatchRepair.RunOnce | core/static_autorepair.go:51-86 | exactly what an iteration does; every name in any scale-down is a worker's whose node was not ready in both snapshots |
| BatchRepair.ConfirmedSelect | core/static_autorepair.go:56-78 | the targets are exactly the nodes of the first listing that are not ready there and whose name a node not ready in the second has, in order and as often as listed |
| BatchRepair.AllConfirmedAreRepaired | core/static_autorepair.go:75-86 | an iteration that ends repaired has put exactly the workers among the targets into batches |
| BatchRepair.OnlyConfirmedAreRemoved | core/static_autorepair.go:56-78 | the same of the function, for every environment |
| BatchRepair.OnceEnvelope | core/static_autorepair.go:51-86 | if the first snapshot and later looks are true, all confirmed nodes are repaired, within the size envelope if they are listed tidily |
| BatchRepair.ConfirmedAreRepairable | core/static_autorepair.go:56-76 | confirmed nodes of a truthful first snapshot are current workers, each listed once |
| BatchRepair.ConfirmedTargets | core/static_autorepair.go:56-78 | repairing the common nodes touches only confirmed targets |
| Scaler.CheckWorkerNodeCanBeScaleDown | scaler/ScaleDown.go:380-415 | panics exactly on an ownerless pod of the node, otherwise blocks exactly on a last replica or local storage outside daemon sets |
| Scaler.ScanIs | scaler/ScaleDown.go:380-415 | when the function of the pods panics and when it blocks |
| Scaler.PollingIsGuarded | scaler/ScaleUp.go:118-139 | a retry follows an error reading with no success read since the request; polling ends only on success |
| Scaler.AwaitIsFirst | scaler/ScaleUp.go:131-138 | the check that ends the inner loop is the first that reads success |
| Scaler.PollingIs | scaler/ScaleUp.go:118-139 | the first decisive poll decides: success ends the loop, an error leads to one retry and a wait for success |
| Scaler.PollingGoesOn | scaler/ScaleUp.go:118-139 | without a decisive poll there is neither a retry nor an end |
| Scaler.EndsIff | scaler/ScaleUp.go:118-139 | a call ends if and only if its first decisive poll reads success, or an error after which success is read at some time |
| Scaler.NeverEndsInError | scaler/ScaleUp.go:116-139 | a cluster that stays in error: the call never returns |
| Scaler.EndsOnceSettled | scaler/ScaleUp.go:118-139 | a call ends, within as many polls, once the cluster settles in SUCCEEDED |
| Scaler.CallIsGuarded | scaler/ScaleUp.go:116-157 | at most two equal requests per call, only after SUCCEEDED was read; a finished call last read SUCCEEDED |
| Scaler.CallsAre | scaler/ScaleDown.go:178-263 | each call is skipped exactly unless the cluster is idle and, for a removal, the pods allow it; else one request, and the retry if polling calls for it |
| Scaler.ScaleUpCluster | scaler/ScaleUp.go:67-158 | exactly the requests, the result and the workers gained, as functions of the status trace and the replies |
| Scaler.ScaleDownCluster | scaler/ScaleDown.go:178-263 | exactly the requests, the result and the worker lost, as functions of pods and status trace |
| Scaler.PollScaleUp | scaler/ScaleUp.go:118-139 | the polling loop sends at most the one retry that the status trace calls for |
| Scaler.PollScaleDown | scaler/ScaleDown.go:219-245 | the same for scale-down; the counter in the loop has no effect |
| ControllerSteps.MarksAreAccounted | Controller.go:130-166 | in every interleaving: enqueues less unmarks is one if marked and zero otherwise; each unmark has its own positive check, of the node itself or, once per replacement of it, of any node; a job reboots at most three times and replaces only after three |
| ControllerSteps.DisturbanceBound | Controller.go:130-166 | over any run a node is enqueued, rebooted and replaced no more often than one plus the checks of both kinds account for |
| ControllerSteps.BlockedUntilChecked | Controller.go:236-254 | a failed repair stays marked and is not enqueued again until a check sees the node ready or, after a replacement of it, any node |
| ControllerSteps.ReleasedUnseen | Controller.go:154-163 | a run in which a node loses its mark although no check ever sees it ready |
| ControllerSteps.StepKeepsMarks | Controller.go:236-254 | every step keeps marks equal to enqueues less unmarks |
| ControllerSteps.StepKeepsChecks | Controller.go:147-163 | every step keeps unmarks, made or pending, covered by positive checks |
| ControllerSteps.StepKeepsJobs | Controller.go:134-164 | every step keeps reboots within three per job and replacements within a third of the reboots |
| ControllerSteps.QueuedTwice | Controller.go:241-253 | a run in which a node is waiting twice |
| ControllerSteps.QueuedAgainIff | Controller.go:241-244 | a waiting node gets a second entry exactly when it is observed stuck and is no longer marked |
| NodeReplacement.ReplacementIsSafe | Controller.go:193-228 | a replacement asks only for one worker more and for the repaired node's removal, after a clean scan and with the size in range |
| NodeReplacement.RefusedIff | Controller.go:193-228 | refused, with nothing asked for, if and only if the pods block it or the listed nodes are fewer than the minimum and than the maximum |
| NodeReplacement.ReplacementCalls | Controller.go:196-224 | which two calls are made in which order, and how the second depends on the first |
| NodeReplacement.FirstRequestIs | Controller.go:196-224 | anything is asked for only within the range or at the maximum; the first request is for a worker exactly if the call that comes first is that, or is a removal that is skipped |
| NodeReplacement.CreateFirstSize | Controller.go:196-210 | create first, for any trace and any grants: the size is what it was, more the newcomers, less the removed node |
| NodeReplacement.CreateFirstShrinksIff | Controller.go:196-210 | fewer workers exactly when the removal is carried out and no request brings anybody; as many exactly when there is one newcomer and a removal, or neither |
| NodeReplacement.CreateFirstPassesMaximumIff | Controller.go:196-210 | the maximum is passed on the way exactly when there are more newcomers than room, and for good exactly when by more than the removed node |
| NodeReplacement.PassesMaximumByRetry | scaler/ScaleUp.go:116-139 | with one worker per request at most: passed exactly when there is room for one, an error is read, and request and retry bring different workers |
| NodeReplacement.BusyClusterShrinks | Controller.go:196-210 | an input: busy at the first check only |
| NodeReplacement.RefusedRequestShrinks | scaler/ScaleUp.go:116-118 | an input: always idle, and the request for a worker refused |
| NodeReplacement.EmptyGrantShrinks | scaler/ScaleUp.go:116-118 | an input: always idle, and a request that is taken and brings nobody |
| NodeReplacement.RetryKeepsSize | scaler/ScaleUp.go:128-138 | an input: the first request fails, the retry delivers, and the size is kept |
| NodeReplacement.RetryPassesMaximum | scaler/ScaleUp.go:128-138 | an input: request and retry both deliver, and three workers are where two may be |
| NodeReplacement.SkippedRemovalPassesMaximum | scaler/ScaleDown.go:246-253 | an input: a cluster at its maximum whose removal is skipped ends above it |
| NodeReplacement.RemoveFirstSize | Controller.go:211-224 | remove first, for any trace and any grants: the size is what it was, less the removed node, more the newcomers |
| NodeReplacement.RemoveFirstShrinksIff | Controller.go:211-224 | fewer workers exactly when the node is removed and no request brings anybody; as many exactly when as many come as go |
| NodeReplacement.RemoveFirstPassesMaximumIff | Controller.go:211-224 | the cluster ends above its maximum and its old size exactly when more come than there is room for, the removed node included |
| NodeReplacement.NobodyCreatedIff | scaler/ScaleUp.go:116-158 | a scale-up call brings nobody exactly if none of its requests does |
| NodeReplacement.ReplaceNode | Controller.go:168-229 | the requests, the outcome and the workers afterwards as functions of the environment; at no point fewer than the lesser of start and end, or the start less the removed node; within the maximum exactly if its largest point, between the halves or at the end, is |
| NodeReplacement.CreateThenRemove | Controller.go:196-210 | create first, in any environment: what is sent, who is created and who is taken away |
| NodeReplacement.RemoveThenCreate | Controller.go:211-224 | remove first, in any environment: what is sent, who is created and who is taken away |
| Controller.ReleasesUnreadyIff | Controller.go:154-163 | a node loses its mark without being ready exactly if the replacement returns and the first listing after it with a ready node shows only others |
| Controller.NothingDoneReleases | Controller.go:154-163 | an input: the node may not go, nothing is asked for, and its mark goes |
| Controller.FirstReadyIs | Controller.go:290-309 | the listing that decides is the first of ten that shows any ready node |
| Controller.DecidingIff | Controller.go:154-163 | the mark goes through a replacement exactly if that returns and one of the ten listings after it shows any ready node |
| Controller.ReplaceAndCheck | Controller.go:154-163 | a replacement and the check after it, as functions of the environment |
| Controller.IsNodeNotReadyForTooLong | Controller.go:256-266 | some Ready condition other than true is at least five minutes old |
| Controller.StuckIff | Controller.go:256-266 | the same of the function, with the five minutes |
| Controller.CheckNodeReadyStatusAfterRepairing | Controller.go:269-287 | the first of 30 listings that shows the node ready, or the node gone, decides; not ready only after all 30 |
| Controller.FirstNamedIs | Controller.go:273-276 | the node looked up is the first of that name, and none exactly if there is none |
| Controller.CheckAllNodesReadyStatus | Controller.go:290-309 | true on the first of 10 listings that shows any ready node, false if none does |
| Controller.Controller.Observe | Controller.go:238-245 | the locked section is the machine's step: enqueue and mark once |
| Controller.Controller.HandleUpdate | Controller.go:236-254 | reached by atomic steps; enqueued exactly if stuck and unmarked; the mark goes exactly if a listing shows the node ready |
| Controller.Controller.TryReboot | Controller.go:134-153 | reached by atomic steps; fails exactly if the reboot does; the mark goes exactly if the check after it shows the node ready; otherwise on to the next reboot or to replacement |
| Controller.Controller.TryReplace | Controller.go:155-165 | reached by atomic steps; sends exactly the requests of the replacement; the mark goes exactly if one of the listings that decide shows a ready node |
| Controller.Controller.HandleNotReadyNode | Controller.go:130-166 | one to three reboots, again only after one in vain, and the replacement exactly after three: done, failed, dead or still at the replacement exactly as the environment has it; the mark goes exactly on success; exactly the requests of the replacement are sent |
| Controller.Controller.ProcessItem | Controller.go:88-106 | takes the first item; how its job ends, and what it asks for, follows from the environment; continues exactly if the job is done |
| DeletionTracker.LargestSuffixBalance | scaler/ScaleDown.go:121-144 | a group's counter is the largest balance of starts and ends over all suffixes of the history |
| DeletionTracker.BalanceIs | scaler/ScaleDown.go:121-144 | a balance is the number of starts less the number of ends |
| DeletionTracker.OtherGroupsDoNotMatter | scaler/ScaleDown.go:121-144 | a group's counter depends on its own history only |
| DeletionTracker.PendingIsLastWord | scaler/ScaleDown.go:154-167 | a result is pending exactly if it is its node's last and was added since the last hand-over |
| DeletionTracker.NodeDeletionTracker.StartDeletion | scaler/ScaleDown.go:121-125 | keeps the map in agreement with the longer history |
| DeletionTracker.NodeDeletionTracker.EndDeletion | scaler/ScaleDown.go:128-144 | the same; no non-positive value is ever stored, so the branch for it is dead |
| DeletionTracker.NodeDeletionTracker.GetDeletionsInProgress | scaler/ScaleDown.go:147-151 | the counter of the history |
| DeletionTracker.NodeDeletionTracker.AddNodeDeleteResult | scaler/ScaleDown.go:154-158 | keeps the results in agreement with the longer history |
| DeletionTracker.NodeDeletionTracker.GetAndClearNodeDeleteResults | scaler/ScaleDown.go:161-167 | hands over exactly the pending results and leaves none |
| LogCollection.CallKeepsExplained | clusterstate/utils/logging.go:72-97 | any call keeps the store a bounded suffix of all items and, if the clock never went back, exactly the recent ones |
| LogCollection.CompactionKeepsRecent | clusterstate/utils/logging.go:72-88 | compacting what an earlier compaction left still gives exactly the recent history |
| LogCollection.CompactIsSuffix | clusterstate/utils/logging.go:72-88 | with any clock, compaction gives a suffix of the history no longer than the bound |
| LogCollection.DropOldIs | clusterstate/utils/logging.go:72-88 | what is dropped is too old, and what is kept begins with an item that is not |
| LogCollection.LogCollector.Compact | clusterstate/utils/logging.go:72-88 | the last items, less those at the front that are too old |
| LogCollection.LogCollector.Log | clusterstate/utils/logging.go:91-97 | appends to the history and keeps the store explained by it |
| LogCollection.LogCollector.GetLogs | clusterstate/utils/logging.go:100-107 | exactly those of the last `maxItems` items ever logged that are young enough, if the clock never went back |
| ClusterState.UpdateLastTransitionSingleList | clusterstate/clusterstate.go:488-504 | each condition keeps its transition time exactly if the first old one of its kind has the same status |
| ClusterState.CarriedIs | clusterstate/clusterstate.go:488-504 | the time carried over, from the first old condition of the kind |
| ClusterState.FirstOfKindIs | clusterstate/clusterstate.go:488-504 | the first old condition of a kind, and none exactly if there is none |
| ClusterState.ClusterStateRegistry.Observation | clusterstate/clusterstate.go:324-460 | which status is reported when, for health, scale-up and scale-down, and with which probe time |
| ClusterState.TransitionTimes | clusterstate/clusterstate.go:324-340 | after any run: three conditions, each with its last probe time and the probe time of the call that opened its current stretch |
| ClusterState.ScaleUpNeverChanges | clusterstate/clusterstate.go:421-445 | the scale-up condition keeps the time of the first call |
| ClusterState.ClusterStateRegistry.GetStatus | clusterstate/clusterstate.go:324-340 | the status is that of the run of observations so far |
| ClusterState.UpdateRemembers | clusterstate/clusterstate.go:297-307 | a name is recorded exactly if the last list has it, with the entry of the first update of its unbroken stretch |
| ClusterState.LastEntryIs | clusterstate/clusterstate.go:297-307 | the entry that counts is the last of that name in the list |
| ClusterState.ClusterStateRegistry.UpdateUnregisteredNodes | clusterstate/clusterstate.go:297-307 | the map remembers every name correctly after any sequence of updates |

## Left out

- BatchRepair.AsgRepairNodes: the recursion is observed for a number of rounds given as an argument; the source has no bound.
- Scaler.ScaleUpCluster: polling is observed for a number of polls given as an argument; the source has no bound.
- Scaler.ScaleDownCluster: polling is observed for a number of polls given as an argument; the source has no bound.
- NodeReplacement.ReplaceNode: a failing node list or configuration read is not modelled, and the minimum size is an argument.
- Scaler.CheckWorkerNodeCanBeScaleDown: replica counts are part of the pods; the separate look-up of each replica set is not a call of its own.
- ClusterState.ClusterStateRegistry.GetStatus: messages, reasons and node group statuses, which are always empty, are left out; the candidate count is reduced to whether there is any candidate.
- ControllerSteps.MarksAreAccounted: the read of the mark and its removal in the handler are one step; a data race on the map itself is not modelled.
- Health percentages use exact reals instead of floating point.
- Sorting is a function with the contract of the library sort; the order of groups of equal size is not part of any contract.
- Sleeps and real time: time is counted in calls, or given as an argument.
- Queue internals: rate limiting, de-duplication of identical objects, Done and Forget.
- HTTP, JSON, the Kubernetes and vCloud clients, secrets and configuration maps, logging and events.
- The copies of the scaler in the core package, evictions, cordoning and delay-deletion annotations.
- Node group health, acceptable ranges, scale-up failures and the readable status text.
