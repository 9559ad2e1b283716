# procmesh: verified models of the cluster logic

A Dafny model of the parts of procmesh where several rules, nodes or leaders interact, with proofs of what
they keep. `dafny verify dfyconfig.toml` checks everything. Each module follows one component; code that
updates state step by step is a class or a looping method proved against a function, and the laws are
lemmas about that function. Names ending in `Laws`, and AuditMerge, AuditStore, RetentionStable,
LimiterRuns and AwsQueryDecode, hold the laws.

| files | component |
|---|---|
| AuditPaging, AuditMerge, AuditStore | the aggregated audit list: fetch a prefix of every log, merge, sort, slice; the order a store serves its log in |
| Retention, RetentionLaws, RetentionStable, Holds | which backup snapshots may be deleted, and the holds that keep one |
| Topology, TopologyLaws | the replication route planner |
| Dispatch, DispatchLaws | the dispatch of one frozen backup run: loop, workers, lease, fail-fast, every interleaving |
| BackupClaims, BackupClaimLaws, BackupPrune, BackupPruneLaws | the replicated ledger that decides which leader drives a backup run, without and with pruning |
| BackupTick, BackupTickLaws | the leader's tick: recovery, claims, dispatches, its memo |
| ReplicationFires, ReplicationLaws | automatic and manual replication runs, with lost and unacknowledged commands |
| BatchTypes, BatchEngine, BatchMachine, BatchLaws, Expand, ExpandLaws | batch operations: expansion, run, crash, resume, retry, replay |
| Cron | the cron search and the snapshot tick |
| LoginLimiter, LimiterRuns | the sliding login window, compacted in place |
| AwsQuery, AwsQueryDecode | the canonical query string of AWS request signing |
| Workload, WorkloadLaws, WorkloadTransfer | the versioned workload summary and its transfer in chunks |
| ChannelConfig, ChannelLaws | redacting an alert channel's secrets and merging them back |
| Sorting, StringOrder, Merging, Filtering | sequences: sorting, the order of strings, windows of merged lists, filters |

## Where the code falls short

Each of these is a concrete lemma, beside the exact condition under which the promise holds.

- Audit pages: the store lists rows by timestamp text and row id (`internal/store/audit.go:147`), the merge
  by millisecond, source and audit id. The text drops trailing zeros, so "05Z" sorts above "05.5Z" and an
  older event is served before a newer one (`DroppedZerosRepeat`); and two events of one millisecond may
  have row ids and audit ids in different orders (`MillisecondTieRepeats`). Consecutive pages then repeat one
  row and lose the other. A page is
  right if and only if no entry up to its end lies deeper in its own log than the prefix fetched
  (`MergedPageExact`). All pages a request can ask for are if and only if no entry lies, in its own log,
  beyond the end of a page that it lies before in the full list (`EveryPageExact`); for one node's rows, if
  and only if store and merge agree on every two rows with the end of a page between them, which up to 201
  rows are all pairs (`ServedPagesExact`, `ShortServedExact`). They agree when the older fraction is not the
  beginning of the newer one and, within a millisecond, the audit ids run the store's way.
- Batches: when every target succeeded, a crash after the last one ended and before the final write leaves the
  batch RUNNING for good (`StrandedReachable`, `StrandedForever`): Resume re-enqueues only batches with an
  incomplete target, and there is no failure or timeout to retry. A batch without queue and run is stuck if
  and only if all its targets succeeded (`StrandedExactly`).
- Replication: a fire can get more than one run (`PrunedFireRunsAgain`). A tick creates its run if and only if
  the fire is due, unclaimed, its policy idle and the command committed (`TickCreatesExactly`); the fire is
  open again if and only if the run is pruned before the fire was claimed (`ReopensExactly`); so it gets a
  second run if and only if that happens and a later tick still finds it due and the policy idle
  (`SecondRunExactly`). It never gets more than one plus one per such prune (`OneRunPerFire`).
  Retrying an ended run does not look for a running one of the same policy (`RetryBesideRunning`).
- Backup tick: it returns at the first policy that fails, so the policies after it get no claim. A policy is
  reached if and only if recovery succeeds (`RecoveryFailsExactly`) and no policy before it would fail in the
  situation recovery left (`ReachedExactly`). A policy fails if and only if its schedule is malformed or has
  not fired in the last 366 days, or its claim is refused, which means a policy that is not accepted or a
  timeout of more than a day (`FailsExactly`). In a common year a policy for 29 February starves the ones
  listed after it (`LeapDayStarvesOthers`). So a due fire ends up in the ledger if and only if it was there
  before, or neither its policy nor any before it fails (`DueFireClaimedExactly`). A run whose owner stops
  driving it is taken up only by a later term, never again by the same one (`OnlyLaterTerms`).
- Run terms: a claim checks the fire's term and then overwrites the run's, which a report may have raised
  further (`TermCanDrop`). That is the only way a run's term drops (`TermsGrow`).
- Pruning: it forgets which terms owned a run. A fire whose run is done and pruned with it can be claimed and
  run again, even by a lower term (`PrunedFireIsOwnedAgain`); the fence drops in no other way (`FenceDrops`).
  A run that is not over keeps its fire through a prune if and only if its lease reaches past the cutoff
  (`LiveRunKeepsFire`). Nothing sends the prune command today.
- Snapshot tick: it fires only for the minute it runs in; a minute without a tick is lost, two ticks in one
  minute make two snapshots (`SnapshotsOfMinute`), where the policies' look-back would catch up.
- Workload version: an equal version means equal content only within 2^64 changes (`VersionWraps`), and
  reordering is invisible if and only if entries with equal id and name have equal content
  (`SortFixesContent`). The chunk format does not say how many chunks follow (`CutStreamLooksWhole`).
- Channel configuration: writing back what was read is the identity if and only if no secret is empty beside
  other keys, headers are an object and no Authorization header is empty (`WriteBackIsIdentity`).

## Assumptions

- One API call, one tick, and the batch engine's final read, rollup and write are single steps; the code
  holds no lock across them. Store calls of the batch engine succeed.
- Hashes (run ids, workload content) are injective. Clocks and random ids are inputs; new operation ids are
  fresh. Byte sums and counts are unbounded unless a 64-bit wrap is modelled.
- `(source, audit id)`, snapshot ids and topology node ids are unique; backup node ids hold no NUL.
- Capacity weights are reals. The calendar and time zone are one function from an instant to civil fields.
- Dispatcher: a nil return or a TaskOutcomeError means it has stored the task's result, any other error that
  it has not.
- Fire keys of backups and of replication are disjoint. Whether a policy accepts a new run is an input. The
  policies a tick lists have distinct ids, being the entries of a map.
- The answers an expansion gets from gossip, owners and the authorizer do not change while it runs.

## Model

| member | source | states |
|---|---|---|
| AuditPaging.HopNodePrefix | internal/api/auditapi.go:148-172 | fetching in chunks of 200 yields exactly the first `needed` entries and the log's total; the 100-page cap can show only beyond 20000 entries |
| AuditPaging.Answer | internal/api/auditapi.go:113-143 | a member contributes its own prefix and total, or one placeholder entry that counts as one |
| AuditPaging.AggregateRemotes | internal/api/auditapi.go:106-146 | the pooled answers are the prefixes of all member logs, whatever order they arrive in |
| AuditPaging.ListAggregate | internal/api/auditapi.go:90-104 | the page is the slice of the sorted pool of prefixes, and the total is that of all logs |
| AuditPaging.ListTarget | internal/api/auditapi.go:71-88 | one other node's page is the slice of its own log, or the placeholder on page 1 if it cannot be reached |
| AuditPaging.PoolPermutation | internal/api/auditapi.go:125-144 | arrival order changes neither the pooled entries nor the total |
| AuditPaging.SamePoolSameSort | internal/api/auditapi.go:334-345 | with unique ids the sort has one outcome for one pool |
| AuditMerge.MergedPageExact | internal/api/auditapi.go:90-104 | the merged page equals the page of the full sort if and only if no entry up to the page's end is stored beyond the fetched prefix of its log |
| AuditMerge.SortedLogsSuffice | internal/api/auditapi.go:148-172 | logs stored in merge order always meet that condition |
| AuditMerge.EveryPageExact | internal/api/auditapi.go:40-104 | every page that a request can ask for is right if and only if no entry stands, in its own log, beyond the end of such a page that it stands before in the full list |
| AuditMerge.SingleLogExact | internal/api/auditapi.go:40-104 | for one log: if and only if entries with the end of a page between them are stored in the merge's order |
| AuditMerge.ShortLogExact | internal/api/auditapi.go:40-104 | for one log of at most 201 entries: if and only if it is stored in the merge's order |
| AuditMerge.MissingMeansLongLog | internal/api/auditapi.go:148-172 | an entry left out of the pool lies at depth n or more in its log, and the pool then has at least n entries |
| AuditMerge.PagesConcatenate | internal/api/auditapi.go:347-356 | pages 1 to p together are the first p times limit entries of the full list if and only if for each of them no entry up to its end is stored too deep in its log |
| AuditMerge.SortedLogsConcatenate | internal/api/auditapi.go:347-356 | logs in the merge's own order, millisecond ties included, meet that: no gap and no repeat |
| AuditMerge.HasMoreExact | internal/api/auditapi.go:315-324 | HasMore is true exactly when entries remain, in any storage order |
| AuditMerge.ArrivalOrderIrrelevant | internal/api/auditapi.go:106-146 | the order of the members' answers does not show in the page |
| AuditMerge.ListAudit | internal/api/auditapi.go:40-69 | page and limit default to 1 and 50 and are capped; the response is that page of all logs, of one other node's log, or of the local log, with its total and HasMore |
| AuditMerge.MillisecondTieRepeats | internal/store/audit.go:147 | two entries of one millisecond in row order make page 2 repeat page 1 |
| AuditStore.TextOrder | internal/store/audit.go:49 | of two rows the earlier one has the smaller timestamp text exactly unless its fraction's digits begin the later one's |
| AuditStore.ServedInOrder | internal/store/audit.go:147 | the served log is in the merge's order if and only if the two orders agree on every pair of rows |
| AuditStore.ServedPagesExact | internal/store/audit.go:147 | every page of one node's rows that can be asked for is right if and only if they agree on every two rows with the end of a page between them |
| AuditStore.ShortServedExact | internal/store/audit.go:147 | for at most 201 rows: if and only if they agree on every pair |
| AuditStore.EqualWidthsAgree | internal/store/audit.go:49 | timestamps written in one width never differ from time order |
| AuditStore.DroppedZerosRepeat | internal/store/audit.go:147 | two rows half a second apart of which page 2 repeats page 1 |
| Retention.CountExpired | internal/backup/retention.go:60-72 | marks exactly the oldest n - keep_last keys of each source |
| Retention.DayExpired | internal/backup/retention.go:74-84 | marks exactly the keys created before the cutoff |
| Retention.OldestExactly | internal/backup/retention.go:60-72 | a key is among the oldest exactly when keep_last snapshots of its source are newer |
| Retention.SelectExpired | internal/backup/retention.go:85-99 | selects the unprotected keys that every active rule has expired |
| Retention.SelectWithinBudget | internal/backup/retention.go:101-121 | the greedy loop takes exactly an oldest-first cut of the unprotected candidates |
| Retention.ProtectLastRemaining | internal/backup/retention.go:134-151 | puts back the newest of every source whose snapshots were all selected, and nothing else |
| Retention.PlanRetention | internal/backup/retention.go:28-132 | errors and result of the whole plan, as its selection with survivors put back |
| RetentionLaws.KeyInjective | internal/backup/retention.go:157-166 | distinct (source, id) pairs have distinct keys when sources hold no NUL |
| RetentionLaws.PlanSafe | internal/backup/retention.go:28-151 | a plan is oldest first, holds only unprotected completed snapshots of the policy, and leaves every source one |
| RetentionLaws.KeepLastExact | internal/backup/retention.go:60-72 | keep_last alone selects exactly the unprotected among each source's oldest n - k |
| RetentionLaws.BudgetLaw | internal/backup/retention.go:101-121 | before survivors return, what is left fits the budget or is all protected; deletions are an oldest-first run; keeping the newest of them would exceed the budget |
| RetentionLaws.NothingPutBack | internal/backup/retention.go:134-151 | with keep_last and no byte budget no survivor has to be put back |
| RetentionStable.PlanStable | internal/backup/retention.go:28-151 | planning again at the same cutoff on what is left selects nothing, under any combination of the three limits |
| RetentionStable.BudgetShrinks | internal/backup/retention.go:101-121 | the second plan's budget takes nothing the first left alone |
| RetentionStable.SoleSurvivor | internal/backup/retention.go:134-151 | a survivor put back is alone of its source afterwards |
| Holds.SnapshotHolds.Protect | internal/backup/engine.go:801-823 | a new hold joins the live ones; an empty id holds nothing |
| Holds.SnapshotHolds.Call | internal/backup/engine.go:801-823 | a release ends its own hold once; calling it again changes no counter |
| Holds.SnapshotHolds.Active | internal/backup/engine.go:825-832 | a snapshot is active exactly while some unreleased hold names it, under any nesting, or the caller's own check does |
| Holds.BackupIndex.Snapshots | internal/backup/retention.go:255-272 | the retention metadata of the listed rows, in order |
| Holds.ListedExactly | internal/backup/retention.go:255-272 | which holds every listed row in scope exactly once, with its fields and marks, and nothing else |
| Holds.BackupIndex.PlanDeletions | internal/backup/retention.go:248-276 | the plan for exactly those snapshots, or the planner's error |
| Holds.BackupIndex.DeletePlanned | internal/backup/retention.go:277-302 | of rows and objects exactly the planned ones go whose deletion went through, the row after the object; one result each, in plan order |
| Holds.BackupIndex.ApplyRetention | internal/backup/retention.go:248-302 | plans on the rows as listed and held, then deletes that plan; an error deletes nothing |
| Holds.HeldStays | internal/backup/retention.go:248-302 | no row or object of a held or last-usable snapshot, or of one out of scope, is touched, whatever the plan and the outcomes |
| Holds.EveryNodeKeepsOne | internal/backup/retention.go:248-302 | every node that had a row in scope has one afterwards, with its object |
| Topology.RingSuccessors | internal/backup/topology.go:236-256 | the ring from after the source round to before it |
| Topology.PartitionByAffinity | internal/backup/topology.go:279-297 | splits the candidates by best affinity, order kept |
| Topology.RankByCapacity | internal/backup/topology.go:316-327 | sorts by capacity score, then ring distance |
| Topology.PartsInPreference | internal/backup/topology.go:197-234 | partition, rank, join puts the candidates into one preference order |
| Topology.ChooseNodes | internal/backup/topology.go:197-226 | takes the most preferred and lists them in ring order |
| Topology.SelectTargets | internal/backup/topology.go:197-234 | the route's targets, and the load of each raised by one |
| Topology.CollectSources | internal/backup/topology.go:72-89 | all sources looked up, or as the error the first of them that is a duplicate or unknown |
| Topology.PlanRoutes | internal/backup/topology.go:119-138 | one route per source in turn; inboundLoad of a node always counts the routes planned so far that target it |
| Topology.GenerateRoutesForSources | internal/backup/topology.go:59-141 | errors, warnings and routes of the whole draft |
| TopologyLaws.ChosenAreBest | internal/backup/topology.go:197-234 | whatever is chosen precedes whatever is left in preference order |
| TopologyLaws.RouteLaw | internal/backup/topology.go:197-327 | a route has exactly min(factor, N-1) distinct targets without its source, in ring order, lesser affinity only when the best class is exhausted, and nobody left out of a class scores higher where capacity decides |
| TopologyLaws.RoutesPlanned | internal/backup/topology.go:119-138 | each route of a draft is planned against the load of the routes before it |
| TopologyLaws.RoutesCoverSources | internal/backup/topology.go:119-138 | one route per selected source, in ring order |
| TopologyLaws.DraftIgnoresOrder | internal/backup/topology.go:59-141 | the draft depends on the sets of nodes and sources only |
| TopologyLaws.UniformTargets | internal/backup/topology.go:197-234 | with equal weights and affinities the targets are the next k on the ring |
| TopologyLaws.HitsClosedForm | internal/backup/topology.go:236-256 | among all ring positions exactly k have a given one among their next k |
| TopologyLaws.UniformBalance | internal/backup/topology.go:119-138 | then, with every node a source, every node is targeted exactly k times |
| DispatchLaws.StepInv | internal/backup/coordinator.go:263-347 | every step of loop, worker or environment keeps slots, targets and the fail-fast state consistent |
| DispatchLaws.DispatchOnce | internal/backup/coordinator.go:302-347 | in every interleaving a target is dispatched once or given one cancel update, never both; in-flight dispatches stay within the limit; a stored outcome gets no update |
| DispatchLaws.ConfiguredBounds | internal/backup/coordinator.go:264-278 | so no more than max(1, MaxConcurrency) dispatches are in flight, and FAIL_FAST with one slot dispatches a prefix in which all but the last succeeded |
| DispatchLaws.ResultStays | internal/backup/coordinator.go:323-344 | a returned result never changes |
| DispatchLaws.FailFastPrefix | internal/backup/coordinator.go:302-346 | fail-fast with one slot dispatches a prefix in which all but the last succeeded |
| DispatchLaws.SkippedAfterFailure | internal/backup/coordinator.go:290-301 | SKIPPED is given only in a fail-fast run in which some target failed |
| DispatchLaws.NoDeadlock | internal/backup/coordinator.go:302-347 | until the run is over, the loop or a worker can move |
| DispatchLaws.RunsEnd | internal/backup/coordinator.go:302-347 | no run takes more than 13 steps per target and 6 besides |
| BackupClaimLaws.ReachableInv | internal/control/fsm.go:1391-1435 | after any log without prunes a fire and its run exist together and agree on the lease while the run goes on |
| BackupClaimLaws.AcquisitionFacts | internal/control/fsm.go:1391-1435 | an acquisition is above the fence, becomes it, and finds the run new or its lease over |
| BackupClaimLaws.OwnersIncrease | internal/control/fsm.go:1736-1760 | over any log of claims, reports, retries, creations and finishes the owners of one run have strictly increasing terms, with no assumption on clocks |
| BackupClaimLaws.StaleReportsIgnored | internal/control/fsm.go:1829-1865 | after an acquisition, task reports of older terms change nothing |
| BackupClaimLaws.LeaseRespected | internal/control/fsm.go:1736-1760 | without an operator's retry in between, whoever takes the run next finds every earlier owner's lease over on its own clock |
| BackupClaimLaws.LeaseMoves | internal/control/fsm.go:1736-1760 | a lease moves only by an acquisition or a retry |
| BackupClaimLaws.TargetsFrozen | internal/control/fsm.go:1416-1435 | a run's policy and targets never change after its creation |
| BackupClaimLaws.TermsGrow | internal/control/fsm.go:1829-1883 | a run's term drops if and only if a takeover by a lower term than the run's goes through |
| BackupClaimLaws.TermCanDrop | internal/control/fsm.go:1405-1415 | it drops from 5 to 4 in a three-command log out of term order |
| BackupPruneLaws.FenceDrops | internal/control/fsm.go:2106-2128 | with prunes in the log, the term a next owner must exceed drops if and only if a prune removes the fire, or the run started by hand |
| BackupPruneLaws.RegainedExactly | internal/control/fsm.go:1391-1435 | some sender of a term up to t can own the run if and only if it is not over and neither its fire's term nor, where that does not count, its own is in the way |
| BackupPruneLaws.NoneRegainsUnlessForgotten | internal/control/fsm.go:2106-2128 | as long as no prune forgets a run, no term up to that of an owner can own it again |
| BackupPruneLaws.LiveRunKeepsFire | internal/control/fsm.go:2123-2127 | a prune leaves a run that is not over, and leaves its fire if and only if the lease reaches past the cutoff or is not positive |
| BackupPruneLaws.WithoutPrunes | internal/control/fsm.go:391-465 | without prunes these are the logs above |
| BackupPruneLaws.PrunedFireIsOwnedAgain | internal/control/fsm.go:2106-2128 | a four-entry log in which term 5 and then term 3 own one run |
| BackupTick.RecoverRun | internal/agent/backup_scheduler.go:107-133 | claims one abandoned run and plans the targets left of it, if there are any |
| BackupTick.ClaimRecoverableRuns | internal/agent/backup_scheduler.go:94-135 | claims the abandoned runs of the listing in its order, up to the first lease the control plane refuses; a plan for each that has a target left |
| BackupTick.UnfinishedTargets | internal/agent/backup_scheduler.go:137-153 | the targets without a terminal task |
| BackupTick.Cluster.DispatchRun | internal/backup/coordinator.go:375-384 | one dispatch, and one report of each given target in order |
| BackupTick.Coordinator.DispatchPlans | internal/backup/coordinator.go:168-176 | dispatches every plan once, in order, with exactly its targets |
| BackupTick.Coordinator.RecoverAndDispatch | internal/backup/coordinator.go:168-176 | recovery: the claims, then the dispatches if none was refused |
| BackupTick.Coordinator.ClaimAndDispatch | internal/backup/coordinator.go:192-207 | passes over a remembered fire, fails on a refused claim, else submits the claim; remembers and dispatches exactly if it acquires |
| BackupTick.Coordinator.Consider | internal/backup/coordinator.go:181-229 | one policy: skipped if inactive, an error without a fire, else its latest fire claimed |
| BackupTick.Coordinator.ConsiderAll | internal/backup/coordinator.go:181-229 | the policies in order, up to the first that fails |
| BackupTick.Coordinator.Tick | internal/backup/coordinator.go:159-230 | nothing unless leader; else recovery and, if that succeeds, the policies up to the first that fails: log, dispatches and memo are exactly the tick's function |
| BackupTickLaws.TickIsFunction | internal/backup/coordinator.go:159-230 | the tick's contract leaves one result |
| BackupTickLaws.RecoveryFailsExactly | internal/agent/backup_scheduler.go:94-135 | recovery fails if and only if some listed abandoned run's lease is refused |
| BackupTickLaws.RecoveryTakesOver | internal/agent/backup_scheduler.go:94-135 | otherwise a run is acquired if and only if it is listed and abandoned |
| BackupTickLaws.RecoveryDispatches | internal/backup/coordinator.go:168-176 | and dispatched if and only if it also has a target left |
| BackupTickLaws.ClaimedFireInLedger | internal/backup/coordinator.go:192-207 | a claim that does not fail leaves the fire in the ledger |
| BackupTickLaws.DueFiresClaimed | internal/backup/coordinator.go:181-229 | every due fire of the policies a tick gets past is in the ledger |
| BackupTickLaws.ReachedExactly | internal/backup/coordinator.go:181-229 | a policy is reached if and only if no policy before it would fail in the situation recovery left; one without a fire is the last |
| BackupTickLaws.FailsExactly | internal/control/fsm.go:1391-1435 | a policy fails if and only if it has no fire, or its fire is new and it is not accepted or its timeout exceeds a day, or its run awaits an owner and its timeout does |
| BackupTickLaws.ViewsLeaveOthers | internal/backup/coordinator.go:181-229 | the claims, dispatches and reports for other policies leave a fire, its run and its memo entry alone |
| BackupTickLaws.DueFireClaimedExactly | internal/backup/coordinator.go:159-230 | a due fire is in the ledger after the tick if and only if it was before the policies' turn, or neither its policy nor any before it fails |
| BackupTickLaws.OnlyReachedAreClaimed | internal/backup/coordinator.go:181-229 | every claim a tick adds is of a policy it got past |
| BackupTickLaws.LeapDayHasNoFire | internal/backup/schedule.go:93-134 | in a common year a valid schedule for 29 February has no fire while one for every minute is due |
| BackupTickLaws.LeapDayStarvesOthers | internal/backup/coordinator.go:181-191 | a tick over these two policies fails, and dispatches the due one exactly if it is listed first |
| BackupTickLaws.NeverDispatchedTwice | internal/backup/coordinator.go:159-261 | over any ticks of any number of coordinators, restarts and other commands no (run, term) is dispatched twice, every dispatch follows an acquisition, and every memo holds only dispatches |
| BackupTickLaws.OnlyLaterTerms | internal/backup/coordinator.go:246-261 | a dispatched (run, term) is refused to that term and all earlier ones for ever, so the memo skips nothing |
| ReplicationFires.ControlPlane.ListDueFires | internal/agent/replication_scheduler.go:166-211 | exactly the due fires of enabled, scheduled policies, and whether a schedule was unreadable |
| ReplicationFires.ControlPlane.ClaimReplicationRuns | internal/agent/replication_scheduler.go:35-78 | one tick over all due fires with any pattern of lost or unacknowledged commands |
| ReplicationFires.ControlPlane.ClaimFire | internal/control/fsm.go:1300-1373 | a durable claim of a known fire changes nothing, of a new one adds its record |
| ReplicationFires.ControlPlane.StartRun | internal/api/disaster_replication.go:536-608 | a manual start creates a run only when the policy has none running, or returns the existing one |
| ReplicationFires.HandleDueFires | internal/agent/replication_scheduler.go:44-78 | handling the listed fires one by one is the tick |
| ReplicationLaws.TickEffect | internal/agent/replication_scheduler.go:35-78 | a tick adds only claims, and runs for due fires of policies that had none running |
| ReplicationLaws.TickCreatesExactly | internal/agent/replication_scheduler.go:35-78 | a tick creates a fire's missing run if and only if the fire is due, its policy has none running, and the command is committed |
| ReplicationLaws.CreatesOnlyWhenIdle | internal/agent/replication_scheduler.go:213-220 | neither scheduler nor manual start creates a run beside a running one |
| ReplicationLaws.NextTickClaims | internal/agent/replication_scheduler.go:51-56 | a run whose claim was lost is claimed by the next tick, which creates nothing |
| ReplicationLaws.OneRunPerFire | internal/agent/replication_scheduler.go:245-261 | creations of a (policy, fire) run are at most one plus its prunings before the claim |
| ReplicationLaws.CreatedExactly | internal/control/fsm.go:1601-1660 | of all steps only such a tick creates the run, and only while the fire has neither run nor claim |
| ReplicationLaws.ReopensExactly | internal/control/fsm.go:2106-2128 | a fire with a run or a claim loses both if and only if its run is pruned before the fire is claimed |
| ReplicationLaws.SecondRunExactly | internal/agent/replication_scheduler.go:245-261 | over every run a fire's run is created a second time if and only if it is created, then pruned before the claim, and then a tick finds the fire due and the policy idle |
| ReplicationLaws.PrunedFireRunsAgain | internal/control/fsm.go:2106-2128 | a four-step run with two creations |
| ReplicationLaws.AtMostOneRunning | internal/api/disaster_replication.go:557-564 | without retries no policy has two runs running |
| ReplicationLaws.RetryBesideRunning | internal/control/fsm.go:1770-1827 | a retry keeps that exactly when the policy has none running |
| BatchTypes.Rollup | internal/batch/types.go:96-116 | the early-exit loop computes the status defined by quantifiers over the targets |
| BatchTypes.CountSummary | internal/batch/types.go:119-140 | one count per terminal status |
| BatchTypes.SummaryTotals | internal/batch/types.go:119-140 | the counts of targets none of which is incomplete total all of them |
| BatchTypes.FoldsIgnoreOrder | internal/batch/types.go:96-140 | the order in which the store lists targets changes neither fold |
| BatchEngine.Engine.constructor | internal/batch/engine.go:59-136 | the new rows: those that name something, under consecutive fresh operations |
| BatchEngine.CreateWithExpand | internal/batch/engine.go:59-136 | the first of six refusals, or a batch of at least one pending row, queued exactly once the engine is started |
| BatchEngine.Engine.RetryFailed | internal/batch/engine.go:339-379 | definite failures become pending under new operations, all else stays; an error if there are none |
| BatchEngine.Engine.ReplayTimeout | internal/batch/engine.go:383-421 | timed-out targets become pending under their own operations; an error if there are none |
| BatchEngine.Engine.Resume | internal/batch/engine.go:425-439 | enqueues the batch exactly when some target is incomplete |
| BatchEngine.Engine.Finalize | internal/batch/engine.go:257-267 | writes the status and summary of the rows as they are |
| BatchLaws.RowChange | internal/batch/engine.go:270-309 | a step changes no successful row, and an operation only after a definite failure, to a fresh one |
| BatchLaws.ReachableInv | internal/batch/engine.go:208-268 | every step keeps distinct operations, exact final statuses and the worker limit |
| BatchLaws.FinalIsExact | internal/batch/engine.go:257-267 | a batch marked final has the status and counts of its targets, covering all; no more targets execute than the limit |
| BatchLaws.ExecutingBounded | internal/batch/engine.go:225-231 | at most 64 targets execute at once, 16 when nothing is configured, else what is configured |
| BatchLaws.SuccessStays | internal/batch/engine.go:208-456 | a successful target stays as it is over any run, crash, resume, retry or replay |
| BatchLaws.OperationChange | internal/batch/engine.go:458-465 | an operation changes only from a definite failure |
| BatchLaws.OperationsNeverShared | internal/batch/engine.go:83-91 | over the whole life of a batch two targets never have one operation |
| BatchLaws.NeverLost | internal/batch/engine.go:180-206 | without shutdown or crash a batch that is not final is queued or being run |
| BatchLaws.CrashRecovery | internal/batch/engine.go:425-439 | Resume puts a crashed batch back to work exactly when some target is incomplete |
| BatchLaws.StrandedReachable | internal/batch/engine.go:257-267 | a crash before the final write strands the batch |
| BatchLaws.StrandedForever | internal/batch/engine.go:425-439 | nothing gets a stranded batch to its final status |
| BatchLaws.StrandedExactly | internal/batch/engine.go:339-439 | a batch left without queue and run is stranded if and only if no call can queue it again |
| Expand.TargetAcc.Add | internal/batch/expand.go:359-369 | keeps a target exactly when its key is new |
| Expand.OwnersOf | internal/batch/expand.go:124-134 | the nested loops map every id to the first node that advertises it |
| Expand.SearchNodes | internal/batch/expand.go:146-182 | asks every node, keeps the last tolerated error, and adds one target or fails |
| Expand.AddFromGet | internal/batch/expand.go:239-285 | what one owner answer, missing process or error adds |
| Expand.ExpandProcessIDs | internal/batch/expand.go:123-184 | the loop adds each id's outcome in order and stops at the first failure |
| Expand.ExpandProcessNames | internal/batch/expand.go:186-198 | likewise for names |
| Expand.ExpandAgentGroup | internal/batch/expand.go:200-221 | likewise for the processes of member nodes |
| Expand.ExpandProcessGroup | internal/batch/expand.go:223-237 | likewise for the processes gossip puts into the group |
| Expand.ExpandSelector | internal/batch/expand.go:82-121 | the whole expansion is the four selectors' proposals in order, deduplicated, or the first error |
| ExpandLaws.AccumulatorKeepsFirst | internal/batch/expand.go:359-369 | of all proposals, exactly the first with each key is kept, in order |
| ExpandLaws.KeyIdentifies | internal/batch/expand.go:359-369 | without NUL, one key means one node and one process, by id or else by name |
| ExpandLaws.NoTargetTwice | internal/batch/expand.go:82-121 | no union of selectors yields two targets with one key |
| ExpandLaws.FinishExact | internal/batch/expand.go:287-330 | a target is left runnable exactly when nothing disqualified it, the owner's node and group are permitted and a config update has its payload; a denial outranks a failed overlay |
| ExpandLaws.RunnableIsAllowed | internal/batch/expand.go:239-330 | every runnable target is a process its owner reported and was allowed on the reported node and group |
| ExpandLaws.LoneGroupHolds | internal/batch/expand.go:223-285 | with only a process-group selector every runnable target is in that group by its owner's record |
| ExpandLaws.EveryIdIsAnswered | internal/batch/expand.go:123-184 | every id asked for gets exactly one answer, whose key is in the result |
| Cron.ValidateCron | internal/schedule/cron.go:11-31 | accepts exactly the empty expression and five fields in range |
| Cron.ParseFields | internal/backup/schedule.go:54-80 | accepts exactly the valid expressions, and the fields show a time exactly when the expression matches it |
| Cron.CronMatch | internal/backup/schedule.go:152-169 | all five fields agree, day and weekday both |
| Cron.NextAt | internal/backup/schedule.go:49-91 | the least matching minute after `from`, an error exactly when there is none up to the horizon, disabled exactly when empty |
| Cron.PreviousOrEqualAt | internal/backup/schedule.go:93-134 | the greatest matching minute at or before `from`, likewise |
| Cron.TickSchedule | internal/backup/schedule.go:172-185 | creates a snapshot exactly when the current minute matches; fails exactly when no minute up to the horizon does |
| Cron.NextOfPrevious | internal/backup/schedule.go:49-134 | the next fire after the latest fire is after `from` and is the next fire of `from`, exactly unless it lies beyond the earlier horizon |
| Cron.PreviousOfNext | internal/backup/schedule.go:49-134 | looking back from between two fires finds the earlier |
| Cron.LookBackCatchesUp | internal/backup/schedule.go:34-47 | a delayed look-back never answers with less than a fire within the horizon |
| Cron.TickIsTheCurrentFire | internal/backup/schedule.go:172-185 | the snapshot tick fires exactly when the look-back answers with the current minute |
| Cron.SteadyTicks | internal/backup/schedule.go:172-185 | one tick in every minute makes exactly the schedule's fires, each once |
| Cron.SnapshotsOfMinute | internal/backup/schedule.go:172-185 | in general a firing minute gets one snapshot per tick in it, and another minute none |
| Cron.FiresByNext | internal/backup/schedule.go:49-91 | following the forward search enumerates the schedule |
| LoginLimiter.Limiter.Compact | internal/auth/ratelimit.go:24-30 | in-place compaction through the front of the slice keeps exactly the live times, in order |
| LoginLimiter.Limiter.Allow | internal/auth/ratelimit.go:18-37 | allows exactly when fewer than 5 are live; other users' times are untouched |
| LimiterRuns.Replay | internal/auth/ratelimit.go:18-37 | a limiter given any sequence of calls holds the table of that sequence and gives its answers |
| LimiterRuns.TableIsHistory | internal/auth/ratelimit.go:24-36 | over any run with a clock that does not go back, the table has lost no live allowed login |
| LimiterRuns.RefusedExactly | internal/auth/ratelimit.go:31-34 | a call is refused exactly when 5 were allowed in the minute before it |
| LimiterRuns.WindowBounded | internal/auth/ratelimit.go:18-37 | any one-minute half-open window holds at most 5 allowed logins of a user |
| AwsQuery.UriEncode | internal/backup/s3.go:453-465 | the byte loop writes the percent-encoding of sections 2.1 and 2.3 of RFC 3986 |
| AwsQuery.EncodeAWSQuery | internal/backup/s3.go:434-451 | the string is the joined parts of the keys in ascending order |
| AwsQueryDecode.PctRoundTrip | internal/backup/s3.go:453-465 | decoding percent-encoded text gives the text back |
| AwsQueryDecode.QueryRoundTrip | internal/backup/s3.go:434-451 | a decoder recovers every key that has values, with its values in order |
| AwsQueryDecode.EncodingInjective | internal/backup/s3.go:434-451 | two queries have one string exactly when they differ at most in keys without values |
| AwsQueryDecode.EmptyKeysVanish | internal/backup/s3.go:434-451 | keys without values leave no trace |
| AwsQueryDecode.EncodingUnique | internal/backup/s3.go:434-451 | the map's iteration order does not show |
| AwsQueryDecode.EncodingCharacters | internal/backup/s3.go:453-465 | only unreserved characters, '=', '&' and complete escapes of two uppercase hexadecimal digits occur |
| Workload.SortSlice | internal/agent/summary.go:144-149 | sorted by process id and name, and nothing promised about equal keys |
| Workload.WorkloadContentHash | internal/agent/summary.go:165-172 | the hash of the content without freshness stamps |
| Workload.LiveSource.Observe | internal/agent/summary.go:130-163 | bumps the version exactly on new content, restamps, refills the reused buffer; a failed read changes nothing |
| Workload.LiveSource.Snapshot | internal/agent/summary.go:53-128 | observes, then hands out version, counters and a fresh copy of the list, apart from the reused buffer; no sync version without epoch or version |
| WorkloadLaws.RunCounts | internal/agent/summary.go:130-163 | the version counts the content changes of a run, the sequence its successful reads, modulo 2^64 |
| WorkloadLaws.RunContent | internal/agent/summary.go:130-163 | what is published is the last content seen |
| WorkloadLaws.Replay | internal/agent/summary.go:130-163 | a source that makes any sequence of observations goes through such a run |
| WorkloadLaws.VersionsMeet | internal/agent/summary.go:151-155 | versions are equal exactly when the changes between are a multiple of 2^64 |
| WorkloadLaws.EqualVersionEqualContent | internal/agent/summary.go:151-155 | equal versions fewer than 2^64 changes apart carry equal content up to stamps |
| WorkloadLaws.VersionWraps | internal/agent/summary.go:151-155 | a run in which the wrap makes two contents share a version |
| WorkloadLaws.ReorderingKeepsVersion | internal/agent/summary.go:144-155 | the next reading bumps the version exactly when its content is not a rearrangement, if keys decide content |
| WorkloadLaws.SortFixesContent | internal/agent/summary.go:144-149 | every outcome of the sort has the same content if and only if equal keys have equal content |
| WorkloadTransfer.FetchWorkloadSnapshot | internal/api/workload_summary.go:27-57 | the three refusals in their order, else the list in chunks of 256, one empty chunk for an empty list, up to the send that fails |
| WorkloadTransfer.WorkloadChunk | internal/api/workload_summary.go:59-74 | every field of every process is copied |
| WorkloadTransfer.Fetch | internal/agent/workload_sync.go:33-57 | the three error cases in their order, or the chunks' processes joined |
| WorkloadTransfer.TransferRoundTrip | internal/agent/workload_sync.go:33-69 | for every length, what was sent is what is fetched, exactly when the snapshot is the peer's and has an epoch and a version |
| WorkloadTransfer.BrokenNeverAccepted | internal/agent/workload_sync.go:33-57 | a stream is accepted if and only if it got through whole and its header is the peer's, with epoch and version |
| WorkloadTransfer.StreamsNeverMix | internal/agent/workload_sync.go:42-44 | parts of two snapshots never join |
| WorkloadTransfer.CutStreamLooksWhole | internal/agent/workload_sync.go:50-56 | a stream that ended cleanly after n chunks would be taken for whole; the stream error is what tells |
| ChannelConfig.RedactChannelConfig | internal/api/alert.go:624-642 | drops the three secrets and, from headers, both spellings of Authorization |
| ChannelConfig.MergeChannelConfig | internal/api/alert.go:570-599 | the merge with its loops over keys, defined on maps |
| ChannelConfig.MergeAuthHeader | internal/api/alert.go:601-622 | the merge of headers |
| ChannelLaws.RedactionIsExact | internal/api/alert.go:624-642 | no secret is shown, and two configurations look alike exactly when they differ in secrets only |
| ChannelLaws.SecretsOfMerge | internal/api/alert.go:570-586 | which value every secret has after a merge |
| ChannelLaws.PlainKeysOfMerge | internal/api/alert.go:570-579 | which value every other key has |
| ChannelLaws.HeadersOfMerge | internal/api/alert.go:587-622 | which headers there are |
| ChannelLaws.WriteBackRestores | internal/api/alert.go:570-642 | reading and writing back restores every secret that is not empty and every other key |
| ChannelLaws.HeadersWriteBack | internal/api/alert.go:587-642 | it restores the headers up to empty Authorization headers |
| ChannelLaws.WriteBackIsIdentity | internal/api/alert.go:570-642 | it is the identity if and only if the configuration is restorable |
| ChannelLaws.SecretIsLastSupplied | internal/api/alert.go:570-586 | over any run of updates a secret is the last non-empty value supplied |
| ChannelLaws.MergeIsIdempotent | internal/api/alert.go:570-622 | sending one update twice is sending it once |

## Left out

- RPC clients, forwarding, mTLS, HTTP wiring, the command line and the web interface.
- Raft itself: a log of commands in order is given. Leadership and terms are inputs.
- File and S3 transfers, SigV4 signing, JSON text and hashing: JSON is a value, a hash an injective function.
- The calendar and time-zone tables, and parsing of whitespace in cron text: fields come split.
- The rest of `internal/control`: only commands on runs and fires are modelled. Of these, fire claims without a run are modelled for replication only, which alone sends them, under keys of its own.
- The replication dispatch loop (`internal/backup/replication_coordinator.go`), a simpler relative of the backup one.
- The pre-ring target selection and the legacy draft hashes, kept for old drafts.
- Permission checks, proto conversions other than the workload's, configuration loading, disk and health thresholds, metrics.
- BatchEngine.Engine.RetryFailed: a crash between the row updates of one call is not modelled, because API calls are single steps.
- BackupClaimLaws.ReachableInv: logs with prunes are in BackupPrune, where a fire and its run may outlive each other.
- BackupClaimLaws.OwnersIncrease: false of logs with prunes; BackupPruneLaws has the exact condition.
- BackupTickLaws.NeverDispatchedTwice: the commands in between are those of BackupClaims, so not prunes.
- BackupPrune.Pruned: run finish times are not kept, so which ended runs finished before the cutoff is part of the entry.
- BackupTick.Cluster.DispatchRun: reduced to one report per target; the interleavings are in Dispatch.
- BackupTick.Coordinator.Tick: the path for a control plane without atomic claims is not modelled, because the production adapter always has them.
- BackupClaimLaws.StaleReportsIgnored: tasks are one per run and node, as the coordinator names them; run counters and finish times are not kept.
- Workload.LiveSource.Snapshot: resources, addresses and flags of the summary are not modelled.
- WorkloadTransfer.FetchWorkloadSnapshot: of the peer's certificate only the cluster it names is modelled.
- Holds.BackupIndex.DeletePlanned: looking up the sink, deleting and the event callbacks are one outcome per snapshot.
- ReplicationFires.ControlPlane.ClaimReplicationRuns: taking over expired runs and the frozen runs it returns are not modelled.
- ReplicationFires.ControlPlane.ClaimFire: all claims here are durable, so the lease and term branches never apply; validation is left out.
- Cron.TickSchedule: whether the creation it asks for succeeds is not modelled.
- DispatchLaws.DispatchOnce: what a dispatch does inside the agent, and the texts of error summaries, are not modelled.
