# Rococo: a verified model

Rococo is a distributed transaction system: an in-memory database (`memdb`) under several
concurrency-control protocols (`deptran`). This project models its hardest parts in Dafny and
proves what they promise, for every input and every run. `dafny verify dfyconfig.toml` checks it.

| files | part of the system |
|---|---|
| `Occ`, `OccTxn`, `OccRuns`, `OccPrepare`, `OccOneServer`, `TwoPhaseCommit`, `CommitProgress` | optimistic transactions (OCC_LAZY): row locks, version checks, prepare/confirm/abort on one server; several servers; the coordinator's two-phase commit with messages, failures and retries |
| `Reachability`, `DepGraph`, `Tarjan`, `SortVv`, `SortedScc`, `SccIds`, `Ancestors`, `CommitBarrier`, `CommitOrder`, `BarrierOpens`, `DeferredRuns` | the dependency-graph engine: components, their immediate-edge order and what ids and addresses do to it, ancestor searches, the commit barrier, its order and progress, the deferred pieces |
| `GraphUnion`, `GraphWire` | joining dependency graphs, and their wire form |
| `Snapshots`, `SnapshotEffects`, `SnapshotMap` | the multi-version sorted map: views as values, calls pair by pair, then the pointer ring |
| `Common` | shared notions |
| `Multimap`, `Indices` | sorted tables and secondary indices |
| `NestedTxn`, `NestedQuery`, `MergedCursor`, `StagedQuery` | staged writes: nested transactions and queries inside them, merged reads, commit |
| `XxHash`, `HashSpread`, `ItemChoice`, `Odometer` | streaming hash, item sampling, mixed-radix counter |

Where the source updates an object or an array, the model is a class or a method with loops, proved
against a function on values; the theorems are about those functions, their runs and invariants.
Requests handled under a server's mutex are atomic steps; a coordinator's callbacks run one at a time.

## Assumptions about code outside the model

- A `DragonBall(n, f)` runs `f` once, at its n-th trigger.
- `insert_into_map` does not overwrite an existing key of a unique map, and a multimap insert goes after its equals.
- A prepare call that returns an error to the coordinator is not executed afterwards; start and finish requests are delivered.
- `retry()` resets the counters, the participants and the commit flag of an attempt.
- Ancestor searches are given an empty result set, as all callers do.
- A server does not hear FINISH or COMMIT of a transaction with pieces there before the first of them arrives (`union_graph` copies the status of a vertex it has not seen).
- A released object is used again only by callers that hold a reference of their own.
- The key columns of a row are not written while the row is staged for insertion.

## Where the code differs from what its comments or names say

- `restart` reuses the transaction id, although the comment at `deptran/coordinator.cc:185` promises a new one. `TwoPhaseCommit` models the reuse; `RestartOk` shows why it is safe.
- `sort_vv` does not sort in general; `SortsIffNearlySorted` says exactly when it does.
- `sorted_scc` promises one result whatever the addresses of the vertices (`deptran/graph.h:369-374`); three start vertices are enough to break it (`AddressesDecide`). `OneOutput` says when it holds.
- `sorted_scc` stops at its own check when a member with an immediate parent inside the component also has one outside; `SortedScc` gives the exact condition.
- A row removed from an indexed table and inserted again is missing from the indices (`ReinsertedRowIsLost`).
- The commit of a staged removal takes the row out of an indexed table without its index entries (`InsertDetach`).
- A commit of a component commits members with pieces here whose finish request has not come, without running the pieces: a member behind one whose commit was learned (`LearnedMemberFails`), or one that joined after the barrier was set up (`LateMemberFails`). `DeferredRunsIff` has the exact condition.
- An aborted nested transaction leaves behind what it wrote in place to rows the base has staged (`AbortKeepsWrite`); `AbortLeavesNothingIff` has the exact condition.
- A query inside a nested transaction hides every copy of a removed row the base has staged twice (`HiddenCopyFails`), and finds a row written before it was inserted under its old key (`OldKeyFails`); `QueriesAreDirectIff` has the exact condition.
- Rows staged by the base make nested transactions disagree with direct execution in four ways: removed and inserted again they are staged twice (`ReinsertFails`); written, then inserted, they read stale (`StaleReadFails`) or end with the earlier value (`StaleMemoryFails`); inserted twice and removed, they lose an update (`DroppedUpdateFails`). The conditions in `StepAgreesIff` are exact.
- `gc_run` leaves entries that were removed at exactly the version of the oldest member, which nobody sees (`TombstoneStays`); `UnseenLeftIff` has the exact condition.
- A query through a transaction does not see a staged change of a key (`KeyUpdateFails`).
- `Index::all` ignores its order argument; only ascending enumeration is modelled.

## Model

| member | source | states |
|---|---|---|
| `Occ.ReadKeepsWf` | memdb/txn.cc:1330-1367 | a column read keeps the server well-formed: recorded versions were current, prepared transactions hold their locks, no stray locks |
| `Occ.WriteKeepsWf` | memdb/txn.cc:1369-1405 | a column write keeps it |
| `Occ.OpenKeepsWf` | deptran/dtxn.cc:535-563 | finding or starting a transaction keeps it |
| `Occ.PrepareKeepsWf` | memdb/txn.cc:1195-1253 | prepare, successful or not, keeps it |
| `Occ.ConfirmKeepsWf` | memdb/txn.cc:1255-1327 | confirm keeps it |
| `Occ.AbortKeepsWf` | memdb/txn.cc:1175-1180 | abort keeps it |
| `Occ.PreparedIsCovered` | memdb/txn.cc:1195-1253 | after a successful prepare the transaction holds every lock it needs and everything it read is still current |
| `Occ.OthersKeepLocks` | memdb/txn.cc:1195-1253 | taking locks never takes one from another prepared transaction |
| `Occ.PreparedReadsAreStable` | memdb/locking.h:27-58 | no prepared transaction writes what another prepared one has read |
| `Occ.PreparedWritesAreExclusive` | memdb/locking.h:27-48 | two prepared transactions never write the same column |
| `Occ.NoLockLeft` | memdb/txn.cc:1145-1173 | releasing leaves no lock of the transaction anywhere and takes none of others |
| `OccTxn.RWLock.WLockBy` | memdb/locking.h:27-48 | granted exactly when free, held by the owner, or read-locked by the owner alone (upgrade); the new lock value, unchanged on refusal |
| `OccTxn.RWLock.RLockBy` | memdb/locking.h:49-56 | granted exactly when not write-locked by another; the new lock value |
| `OccTxn.RWLock.UnlockBy` | memdb/locking.h:57-67 | drops both kinds of hold of the owner and reports whether there was one |
| `OccTxn.Rows.VersionCheck` | memdb/txn.cc:1123-1143 | true exactly when every recorded version is still current |
| `OccTxn.Rows.ApplyUpdates` | memdb/txn.cc:1262-1309 | every staged column gets its value and a version one higher; the rest is untouched |
| `OccTxn.TxnOCC.ReadColumn` | memdb/txn.cc:1330-1367 | returns the own staged value or the stored one and records what the server value says |
| `OccTxn.TxnOCC.WriteColumn` | memdb/txn.cc:1369-1405 | stages the value and records the first version |
| `OccTxn.TxnOCC.ReleaseLocks` | memdb/txn.cc:1150-1156 | unlocks every row in the lock list, however often it is named |
| `OccTxn.TxnOCC.LockReads` | memdb/txn.cc:1204-1226 | read locks on all rows read, or the lock table exactly as before |
| `OccTxn.TxnOCC.LockWrites` | memdb/txn.cc:1227-1249 | write locks, upgrading read locks; on failure the lock table of before the prepare |
| `OccTxn.TxnOCC.CommitPrepare` | memdb/txn.cc:1195-1253 | succeeds exactly when versions and locks allow it; all locks or none; the server becomes `Server.Prepare` of what it was |
| `OccTxn.TxnOCC.CommitConfirm` | memdb/txn.cc:1255-1327 | the server becomes `Server.Confirm` of what it was, well-formed, with the lock list empty |
| `OccTxn.TxnOCC.Abort` | memdb/txn.cc:1175-1180 | the server becomes `Server.Abort` of what it was |
| `OccTxn.GiveBack` | memdb/txn.cc:1217-1225 | locks taken by a transaction that held none are given back without a trace |
| `OccRuns.StepKeepsInv` | memdb/txn.cc:1116-1405 | each event of each transaction on each server keeps the invariant tying recorded versions, locks, tables and the chain of committed values |
| `OccRuns.ReadStep` | memdb/txn.cc:1330-1367 | a read finds a version of the chain no older than the one that will be checked |
| `OccRuns.WriteStep` | memdb/txn.cc:1369-1405 | staged updates stay the writes of the trace |
| `OccRuns.PrepareStep` | memdb/txn.cc:1195-1253 | prepare keeps the invariant |
| `OccRuns.DecideStep` | deptran/coordinator.cc:438-473 | deciding a transaction whose participants are all prepared keeps it: its reads are of the newest versions |
| `OccRuns.ConfirmStep` | memdb/txn.cc:1255-1327 | a confirm moves exactly its cells to the last version of their chains |
| `OccRuns.AbortStep` | memdb/txn.cc:1175-1180 | an abort keeps the invariant |
| `OccRuns.PreparedReadIsNewest` | memdb/txn.cc:1123-1143 | what a prepared transaction read is the newest decided version and no confirm of it is outstanding, even while other servers have yet to confirm |
| `OccRuns.RunsAreSerializable` | memdb/txn.cc:1116-1405 | for every interleaving on any number of servers, every value a decided transaction read is the one a serial execution in decision order gives it |
| `OccRuns.RunTablesAreSerial` | memdb/txn.cc:1255-1327 | wherever no confirm is outstanding the table holds the result of that serial execution |
| `OccPrepare.PrepareSucceedsIff` | memdb/txn.cc:1195-1253 | over any run, told by its events: a prepare succeeds if and only if no confirm has written a cell of the transaction since it first read or wrote it, and no other prepared transaction on the server has written a row it touched or touched a row it wrote |
| `OccPrepare.StepKept` | memdb/txn.cc:1116-1121 | every event keeps recorded versions different from the current ones exactly where a confirm has overwritten a touched cell |
| `OccPrepare.FreeIff` | memdb/locking.h:27-58 | the locks are free exactly when no other prepared transaction on the server conflicts |
| `OccOneServer.StoreIsSerialInConfirmOrder` | memdb/txn.cc:1116-1405 | on one server, for every interleaving of calls, the store equals the serial execution of the committed transactions in confirm order, and each read of theirs is the one that execution gives |
| `OccOneServer.ConfirmAppends` | memdb/txn.cc:1255-1327 | only a confirm extends that order |
| `TwoPhaseCommit.Agreement` | deptran/coordinator.cc:438-549 | in every reachable state: an attempt committed on some server is the last attempt, every participant's prepare of it returned success, and it is aborted nowhere |
| `TwoPhaseCommit.DecidedIffCommitted` | deptran/coordinator.cc:519-547 | the decision log holds exactly the transactions whose coordinator decided to commit |
| `TwoPhaseCommit.CommittedAreSerializable` | deptran/coordinator.cc:184-259 | committed transactions are serializable in decision order for every interleaving of requests, replies, failures and retries |
| `TwoPhaseCommit.QuietTablesAreSerial` | deptran/coordinator.cc:519-547 | once no commit request to a server is in flight its tables hold the serial result |
| `TwoPhaseCommit.NeverStuck` | deptran/dtxn.cc:565-673 | in every reachable state a step whose message has arrived can be taken: the checks the servers make of their callers never fail |
| `CommitProgress.AbortHasReason` | deptran/coordinator.cc:444-462 | in every reachable state an aborted attempt, past or present, had a participant whose prepare was refused or whose call failed |
| `CommitProgress.CommittedIffAllPrepared` | deptran/coordinator.cc:444-547 | an ended attempt without failed calls was committed if and only if the prepare of every participant returned success |
| `CommitProgress.AloneCommits` | deptran/coordinator.cc:184-549 | from every reachable state a new transaction, whatever its pieces, whose servers nobody uses can be committed on all of them at its first attempt |
| `CommitProgress.AlonePrepares` | memdb/txn.cc:1195-1253 | a transaction alone on a server prepares there |
| `CommitProgress.OwnTold` | deptran/rcc_service.cc:158-189 | every step keeps: a reply is what the prepare returned, a prepare returns once, a no is a refusal or an error |
| `TwoPhaseCommit.NextKeepsInv` | deptran/coordinator.cc:171-549 | every step keeps the invariant of every session |
| `TwoPhaseCommit.SendStartOk` | deptran/coordinator.cc:184-259 | sending a piece keeps it |
| `TwoPhaseCommit.ExecStartOk` | deptran/rcc_service.cc:89-130 | executing a piece keeps it |
| `TwoPhaseCommit.RecvStartOk` | deptran/coordinator.cc:203-231 | a piece reply keeps it |
| `TwoPhaseCommit.SendPrepareOk` | deptran/coordinator.cc:438-475 | when no piece is outstanding every participant has executed one, so prepare finds its transaction |
| `TwoPhaseCommit.ExecPrepareOk` | deptran/rcc_service.cc:158-189 | a vote of yes is backed by a prepared transaction |
| `TwoPhaseCommit.CountedOk` | deptran/coordinator.cc:444-462 | counting replies up to the number of participants is counting each participant once; commit is decided exactly when all said yes |
| `TwoPhaseCommit.FinishedOk` | deptran/rcc_service.cc:191-232 | a finish request is executed once per participant, with the coordinator's decision |
| `TwoPhaseCommit.RecvFinishOk` | deptran/coordinator.cc:484-499 | finish replies are counted once each |
| `TwoPhaseCommit.RestartOk` | deptran/coordinator.cc:171-182 | a retry, which reuses the transaction id, starts only when no server holds the transaction and no message of it is left |
| `Tarjan.FindScc` | deptran/graph.h:466-479 | terminates and returns, without duplicates, exactly the vertices that reach the start and are reached from it |
| `Tarjan.Search.StrongConnect` | deptran/graph.h:291-327 | the recursive step: numbers everything it reaches, keeps the stack invariant, returns the component if the vertex is its root |
| `Tarjan.Search.LowerLink` | deptran/graph.h:301-314 | low-links only go down to the index of a vertex on the stack that is reached |
| `Tarjan.Search.PopUntil` | deptran/graph.h:317-325 | pops the stack down to the root |
| `Tarjan.PopScc` | deptran/graph.h:316-326 | what is popped at a root is exactly its component |
| `Tarjan.ChildHangs` | deptran/graph.h:303-308 | a child that stays on the stack reaches an older open vertex |
| `Tarjan.ChildPopped` | deptran/graph.h:303-308 | a discarded inner component reaches nothing on the stack |
| `SortVv.Sort` | deptran/graph.h:331-352 | the in-place loops compute the sweep specification |
| `SortVv.SortVvPermutes` | deptran/graph.h:331-352 | the result is a permutation |
| `SortVv.SortsIffNearlySorted` | deptran/graph.h:331-352 | the result is sorted if and only if at every position `p` at most `(p + 1) / 2` earlier elements belong behind the one at `p`: the inner loop starts at `i`, so each sweep can bring it forward only so far |
| `SortVv.SortVvFails` | deptran/graph.h:331-352 | 3, 2, 1 becomes 2, 1, 3 |
| `SortedScc.SortedScc` | deptran/graph.h:354-464 | writes the depth-first order of `Output`, whose start vertices and children come in the order of addresses and are sorted by id; no duplicates, nothing outside the component, immediate sources before targets; it finishes (all members written) if and only if the component is orderable |
| `SortedScc.HasType2Parent` | deptran/graph.h:382-397 | whether an immediate parent lies inside the component |
| `SortedScc.AllParentsVisited` | deptran/graph.h:446-456 | whether every immediate parent, inside or not, has been written |
| `SortedScc.StartVertices` | deptran/graph.h:378-397 | exactly the members without an immediate parent inside, in the order of their addresses |
| `SortedScc.InnerChildren` | deptran/graph.h:427-442 | exactly the immediate children inside the component, listed by address and sorted by id |
| `SortedScc.EmitTop` | deptran/graph.h:420-461 | one round of the loop keeps the progress invariant, writes the top of the stack and pushes the children that became ready |
| `SortedScc.EmitsAll` | deptran/graph.h:420-463 | if immediate inner edges are acyclic and no member with an inner immediate parent has an outer one, everything is written |
| `SortedScc.EmittedIsOrderable` | deptran/graph.h:420-463 | and only then |
| `SortedScc.OutsideParentStops` | deptran/graph.h:444-462 | a graph of three vertices on which the source stops at its check |
| `SccIds.StartsAscendIff` | deptran/graph.h:399-401 | start vertices are written in ascending order of ids if and only if their list, in the order of addresses, is nearly sorted downwards |
| `SccIds.LargerSiblingFirst` | deptran/graph.h:438-461 | of two children that become ready together the larger id is written first, if the children of that parent are listed nearly sorted upwards |
| `SccIds.DfsLifo` | deptran/graph.h:420-461 | last pushed, first written |
| `SccIds.OneOutput` | deptran/graph.h:369-374 | if all these lists are nearly sorted the addresses do not matter |
| `SccIds.SmallHasOneOutput` | deptran/graph.h:369-374 | so they do not for a component with at most two start vertices and at most two inner immediate children a member |
| `SccIds.AddressesDecide` | deptran/graph.h:369-401 | a circle of three deferred edges is written in two orders, depending on the addresses |
| `Ancestors.FindTxnAncOpt` | deptran/dep_graph.cc:153-193 | exactly the vertices other than the source that reach it through uncommitted vertices |
| `Ancestors.SubTxnGraph` | deptran/dep_graph.cc:138-151 | those and the source |
| `Ancestors.FindAncestor` | deptran/graph.h:259-284 | everything that reaches the vertex, except itself |
| `Ancestors.FindSccAncestor` | deptran/graph.h:495-504 | what reaches the component from outside |
| `Ancestors.FindTxnSccAncOpt` | deptran/dep_graph.cc:202-220 | the open ancestors of the first member found; with no member committed, those of any member |
| `Ancestors.SameOpenAncestors` | deptran/dep_graph.cc:202-220 | uncommitted members of a component have the same open ancestors |
| `Ancestors.FindTxnSccNearestAnc` | deptran/dep_graph.hpp:75-96 | exactly the parents of the component that lie outside it |
| `CommitBarrier.StepKeepsInv` | deptran/rcc_service.cc:482-590 | every small step keeps the count of each ball equal to the triggers still to come, one barrier per transaction, and commits without repetition |
| `CommitBarrier.BallStep` | deptran/txn_info.h:72-102 | registering, triggering at once or later, and the own trigger are each counted exactly once |
| `CommitBarrier.FiredMeansDone` | deptran/rcc_service.cc:546-590 | a ball that has fired has been triggered by all it waits for: all ancestors finished, all parents of the component committed |
| `CommitBarrier.CommitWaitsForParents` | deptran/rcc_service.cc:497-566 | over any run the commit callback runs only when every vertex is committed that `find_txn_scc_nearest_anc` returned when the callback was set up, at an earlier step of that run |
| `CommitBarrier.CommitsOnce` | deptran/rcc_service.cc:506-531 | over any run each transaction commits and runs its deferred pieces at most once |
| `CommitBarrier.CallbackOnce` | deptran/rcc_service.cc:486-492 | over any run the commit callback of a transaction runs at most once |
| `CommitBarrier.FireComStep` | deptran/rcc_service.cc:497-544 | the callback commits every member of the component, or nothing if its transaction is committed already, and keeps the invariant |
| `CommitBarrier.CommitOrderIsLinearExtension` | deptran/rcc_service.cc:482-590 | the graph may grow and commits may be learned from other servers; as long as no new edge leads into the past of a transaction that waits for its ancestors, whatever reaches a vertex committed here from another component, past the vertices whose commit was learned, was committed here before it, and components commit whole |
| `CommitBarrier.GrowSettled` | deptran/graph.h:513-557 | such growth changes no component, no nearest ancestor and no path into what is committed or waits |
| `CommitBarrier.FireComSettled` | deptran/rcc_service.cc:497-544 | committing the uncommitted part of a component keeps the order a linear extension |
| `CommitBarrier.NothingLearned` | deptran/rcc_service.cc:482-590 | if no commit was learned this orders the whole past |
| `CommitOrder.CommittedAsSorted` | deptran/rcc_service.cc:512-530 | over any run the members one callback commits are committed, and run, in the order in which `sorted_scc` wrote them |
| `CommitOrder.ImmediateFirst` | deptran/rcc_service.cc:506-530 | so the source of an immediate edge is committed, and runs, before its target |
| `CommitOrder.RanInCommitOrder` | deptran/rcc_service.cc:515-528 | over any run deferred pieces run in the order of the commits |
| `BarrierOpens.LearnAdds` | deptran/txn_info.h:83-92 | a learned status is added bit by bit, unless the transaction has pieces here |
| `BarrierOpens.BallEmpties` | deptran/txn_info.h:72-102 | no trigger is lost: a ball all of whose vertices have the awaited status can be brought to zero |
| `BarrierOpens.FirstStageOpens` | deptran/rcc_service.cc:551-590 | once the open ancestors have finished the wait for the parents of the component can begin |
| `BarrierOpens.SecondStageOpens` | deptran/rcc_service.cc:497-544 | once those have committed the transaction can commit |
| `DeferredRuns.DeferredRunsIff` | deptran/rcc_service.cc:506-531 | over any run: every transaction with pieces here that was committed here has run them, if and only if at each commit of a component all its open members with pieces here had finished |
| `DeferredRuns.StepRunsIff` | deptran/rcc_service.cc:512-530 | the condition is exact for each single step |
| `DeferredRuns.StepInvolved` | deptran/txn_info.h:83-92 | only a finish request finishes a transaction with pieces here; its status is not learned |
| `DeferredRuns.WaitedFinished` | deptran/rcc_service.cc:580-590 | at a commit the transaction itself and all its first barrier waits for have finished |
| `DeferredRuns.BarrierCoversComponent` | deptran/rcc_service.cc:482-590 | so have all members, if the component has not grown since the barrier was set up and no member was committed then |
| `DeferredRuns.LearnedMemberFails` | deptran/dep_graph.cc:153-193 | a run that fails: on a circle of three with one member learned to be committed, another is committed unfinished and never runs |
| `DeferredRuns.LateMemberFails` | deptran/rcc_service.cc:580-590 | a run that fails: a member that joins the component after the barrier was set up is not waited for |
| `GraphUnion.GraphStore.UnionGraph` | deptran/graph.h:513-557 | in coordinator mode, whatever the iteration order, the graph becomes the join: each vertex, server, edge, status bit and label bit is there afterwards if and only if it was in one of the two graphs, `from_` still mirroring `to_` |
| `GraphUnion.JoinLaws` | deptran/graph.h:513-557 | the join is commutative, associative and idempotent |
| `GraphUnion.JoinInfoLaws` | deptran/txn_info.h:67-93 | so is the join of transaction information |
| `GraphUnion.JoinValid` | deptran/graph.h:549-551 | the join of mirrored graphs is mirrored |
| `GraphUnion.PlainValid` | deptran/graph.h:513-557 | the graph kept by the union is, seen by the search algorithms, a mirrored graph with the same vertices and edges |
| `GraphUnion.ReplyOrderIrrelevant` | deptran/coordinator.cc:664-667 | the graph sent at finish does not depend on the order of the replies |
| `GraphUnion.DuplicateReply` | deptran/coordinator.cc:664-667 | a reply joined twice changes nothing |
| `GraphUnion.RepliesVertex` | deptran/txn_info.h:67-93 | after any number of replies a vertex, a server or a status bit is there if and only if the old graph or some reply had it |
| `GraphUnion.RepliesEdge` | deptran/graph.h:548-549 | so is an edge and each bit of its label |
| `GraphWire.WriteToMarshal` | deptran/graph.cc:49-66 | decoding what is written for a vertex set gives exactly the subgraph it induces, with the ids unchanged |
| `GraphWire.Targets` | deptran/graph.cc:13-23 | exactly the targets inside the set, each once |
| `GraphWire.WriteEdges` | deptran/graph.cc:24-30 | the edge section of a vertex |
| `GraphWire.ReadFromMarshal` | deptran/graph.h:594-641 | the reading loops compute the decoder, including where it stops |
| `GraphWire.VertexRead` | deptran/txn_info.h:112-122 | reading back one written vertex gives its id, information and labelled edges |
| `GraphWire.RoundTrip` | deptran/graph.h:594-641 | the decoder rebuilds `from_` as the mirror of `to_` |
| `Snapshots.StepSimulates` | memdb/snapshot.h:262-363 | every insert, erase, snapshot, destroy and collection shows each member what a private plain ordered multimap would hold, and keeps the ring version-sorted with the writer last |
| `Snapshots.RunRefinesPlainMaps` | memdb/snapshot.h:262-571 | so does every run |
| `Snapshots.SnapshotIsStable` | memdb/snapshot.h:21-28 | a read-only member shows the same pairs in the same order as long as it lives |
| `Snapshots.SnapshotShowsItsSource` | memdb/snapshot.h:517-539 | a snapshot shows, from then on, what its source showed when it was taken |
| `Snapshots.InsertRefines` | memdb/snapshot.h:262-268 | inserting into the shared data is a multimap insert for the writer |
| `Snapshots.InsertUnseen` | memdb/snapshot.h:262-268 | and invisible to older versions |
| `Snapshots.TombstoneRefines` | memdb/snapshot.h:306-318 | the tombstone branch erases from the writer's view |
| `Snapshots.TombstoneUnseen` | memdb/snapshot.h:306-318 | and from nobody else's |
| `Snapshots.DropRefines` | memdb/snapshot.h:319-326 | the direct branch gives the same view |
| `Snapshots.SweepKeepsViews` | memdb/snapshot.h:467-495 | collection drops nothing visible between the oldest and the newest version |
| `Snapshots.CollectSimulates` | memdb/snapshot.h:467-495 | collection changes no view |
| `Snapshots.DestroySimulates` | memdb/snapshot.h:541-571 | destroying a member, with or without automatic collection, changes no other view |
| `Snapshots.InsertAllSimulates` | memdb/snapshot.h:279-300 | a bulk insert is as many multimap inserts at one version |
| `Snapshots.CopyIsExact` | memdb/snapshot.h:168-175 | copying a sorted view into an empty map reproduces it |
| `SnapshotEffects.EraseShows` | memdb/snapshot.h:300-363 | an erase takes every pair it names from the writer, no other pair, and nothing from other members |
| `SnapshotEffects.InsertShows` | memdb/snapshot.h:262-282 | an insert adds the pair once for the writer and for nobody else |
| `SnapshotEffects.InsertPlace` | memdb/snapshot.h:262-282 | behind all pairs with keys up to its own |
| `SnapshotEffects.EraseKeepsOrder` | memdb/snapshot.h:300-363 | what an erase leaves stays in its order |
| `SnapshotEffects.CollectKeeps` | memdb/snapshot.h:467-495 | collection keeps exactly the entries for which some member is new enough and some member no later than the removal |
| `SnapshotEffects.UnseenLeftIff` | memdb/snapshot.h:484-491 | it leaves no entry that no member can see if and only if no entry was removed at exactly the oldest member's version |
| `SnapshotEffects.TombstoneStays` | memdb/snapshot.h:484-491 | a run that leaves one |
| `SnapshotMap.Member.constructor` | memdb/snapshot.h:141-144 | a new map is alone in its group, writable and empty |
| `SnapshotMap.Member.SnapshotOf` | memdb/snapshot.h:517-539 | the new member joins the pointer ring to the left of its source and shows the same; the group takes the snapshot step |
| `SnapshotMap.Member.Destroy` | memdb/snapshot.h:541-571 | the member leaves the ring; the group takes the destroy step, including automatic collection |
| `SnapshotMap.Member.Insert` | memdb/snapshot.h:262-268 | the group takes the insert step |
| `SnapshotMap.Member.InsertAll` | memdb/snapshot.h:279-300 | the group takes the bulk insert step |
| `SnapshotMap.Member.Erase` | memdb/snapshot.h:302-327 | the group takes the erase step, in both branches |
| `SnapshotMap.Member.ErasePair` | memdb/snapshot.h:329-363 | likewise for a key and value |
| `SnapshotMap.Member.GcRun` | memdb/snapshot.h:467-495 | the walk round the ring and the sweep are the collection step |
| `SnapshotMap.Member.Span` | memdb/snapshot.h:467-480 | the walk finds the oldest and the newest version |
| `SnapshotMap.Member.SanityCheck` | memdb/snapshot.h:573-601 | the checks of the ring's order and of the writer never fail |
| `SnapshotMap.CopyOf` | memdb/snapshot.h:168-175 | a copy has a group of its own and shows what its source shows |
| `SnapshotMap.Shared.Bury` | memdb/snapshot.h:306-318 | the loop over the key's stretch tombstones exactly the visible selected entries and counts them |
| `SnapshotMap.Shared.DropPairs` | memdb/snapshot.h:348-361 | the erasing loop drops exactly the selected entries |
| `SnapshotMap.Shared.Sweep` | memdb/snapshot.h:483-492 | the sweeping loop drops exactly the garbage |
| `SnapshotMap.Shared.Link` | memdb/snapshot.h:522-532 | the four pointer assignments keep the ring linked |
| `SnapshotMap.Shared.Unlink` | memdb/snapshot.h:554-558 | so do the two of leaving it |
| `SnapshotMap.Range.PrefetchNext` | memdb/snapshot.h:39-50 | finds the next visible pair without losing one |
| `SnapshotMap.Range.Next` | memdb/snapshot.h:74-80 | hands out the remaining visible pairs in order |
| `SnapshotMap.Range.Count` | memdb/snapshot.h:82-93 | the number of visible pairs of the range |
| `Multimap.Compare` | memdb/table.cc:8-77 | the loop computes the lexicographic order: -1, 0 or 1 exactly when less, equal or greater |
| `Multimap.LessTotal` | memdb/table.cc:8-77 | the order is total |
| `Multimap.LessTrans` | memdb/table.cc:8-77 | and transitive |
| `Multimap.LessIff` | memdb/table.cc:8-77 | less means equal up to some column and smaller there |
| `Multimap.QueryIsExact` | memdb/table.h:195-249 | the bounds of equal, less, greater and between queries enclose exactly the matching entries |
| `Multimap.Find` | memdb/table.cc:101-114 | searching the equal range finds the row exactly when it is there |
| `Indices.IndexedTable.Insert` | memdb/table.cc:278-296 | a row without a master joins the table and every index; a row that has one is only put back into the base table; the indices stay in step if and only if the row had no master or there is no index |
| `Indices.IndexedTable.AddIndexRow` | memdb/table.cc:224-246 | a new index row under the projected columns, registered in the master and inserted |
| `Indices.IndexedTable.Remove` | memdb/table.cc:101-114 | the row leaves the table and all indices, which stay in step |
| `Indices.IndexedTable.RemoveKey` | memdb/table.cc:93-99 | exactly the rows with that key leave |
| `Indices.IndexedTable.RemoveAt` | memdb/table.cc:309-322 | removing at a position destroys the row's index rows |
| `Indices.IndexedTable.RemoveQuery` | memdb/table.cc:298-307 | exactly the rows an index query returns leave |
| `Indices.IndexedTable.DestroyIndexRows` | memdb/table.cc:209-221 | every index row of the master leaves its index |
| `Indices.IndexedTable.NotifyBeforeUpdate` | memdb/table.cc:324-353 | the row leaves exactly the indices that use the column |
| `Indices.IndexedTable.NotifyAfterUpdate` | memdb/table.cc:355-383 | and returns to them under its new projection |
| `Indices.IndexedTable.Update` | memdb/row.cc:167-193 | after the update the indices are in step again, the same rows are in the table, and one column changed |
| `Indices.IndexedTable.Reinsert` | memdb/row.cc:211-238 | the notify, remove, mutate, insert, notify protocol restores the invariant |
| `Indices.IndexedTable.QueryIndex` | memdb/table.cc:189-207 | an index query returns exactly the base rows whose current projection matches, each once |
| `Indices.EntriesAreDistinct` | memdb/table.h:583-593 | two entries of an index lead to different rows |
| `Indices.RowHasEntry` | memdb/table.h:583-593 | every base row has an entry leading to it |
| `Indices.EntryLeads` | memdb/table.h:583-593 | an entry leads to a base row and is keyed by that row's current columns |
| `Indices.ReinsertedRowIsLost` | memdb/table.cc:278-295 | a removed row keeps its stale master pointer: inserting it again leaves the indices out of step whenever there is an index |
| `Indices.ReinsertIff` | memdb/table.cc:278-296 | and only then |
| `Indices.InsertRemoveInsert` | memdb/table.cc:278-322 | a run that gets there |
| `Indices.DetachedRowStaysIndexed` | memdb/txn.cc:575-582 | removing without freeing, as the commit of a staged removal does, leaves the index entries of the row behind: the indices stay in step if and only if there are none |
| `Indices.InsertDetach` | memdb/txn.cc:575-582 | a run that gets there |
| `NestedTxn.StagingIsDirectIff` | memdb/txn.cc:1473-1489 | over any run the code's checks allow: at every point commit would stage in the base what issuing the operations there stages, if and only if no row this transaction removed is inserted again |
| `NestedTxn.CommitIsDirect` | memdb/txn.cc:1473-1489 | then committing leaves the base's inserts, updates and removes as issuing the operations there does |
| `NestedTxn.ReadsAreDirectIff` | memdb/txn.cc:1491-1514 | with that, every read at every point returns what direct execution would, if and only if no row becomes or stops being the transaction's own while an update staged for it differs from its memory |
| `NestedTxn.ReadsAreDirect` | memdb/txn.cc:1491-1514 | then a read inside returns what direct execution would |
| `NestedTxn.MemoryIsDirectIff` | memdb/txn.cc:1516-1541 | with that, commit would leave the memory of staged rows as direct execution does, if and only if no update staged before a row became own is overtaken by a write in place or dropped by a removal |
| `NestedTxn.AbortLeavesNothingIff` | memdb/txn.cc:1468-1471 | over any run the code's checks allow: the base has staged nothing more, and an abort at any point leaves every row the base has in a table or staged reading as before, if and only if each write in place to a row the base has staged writes what was there |
| `NestedTxn.AbortLeavesNothing` | memdb/txn.cc:1468-1471 | then the base is as before after the abort |
| `NestedTxn.StepUntouchedIff` | memdb/txn.cc:1516-1541 | the condition is exact for each single operation |
| `NestedTxn.AbortKeepsWrite` | memdb/txn.cc:1524-1528 | a run that fails: a row staged by the base, inserted and written inside, keeps the written value after an abort |
| `NestedTxn.StepAgreesIff` | memdb/txn.cc:1516-1576 | the three conditions are exact for each single operation |
| `NestedTxn.InsertStagesIff` | memdb/txn.cc:1543-1550 | an insert stages the same as a direct one if and only if the row was not removed before |
| `NestedTxn.ReinsertFails` | memdb/txn.cc:1543-1550 | a run that fails: a row staged by the base, removed and inserted again, is staged twice after commit |
| `NestedTxn.StaleReadFails` | memdb/txn.cc:1498-1502 | a run that fails: a row staged by the base, written and inserted inside, reads as before the write |
| `NestedTxn.StaleMemoryFails` | memdb/txn.cc:1473-1489 | a run that fails: written before and after the insert, commit replays the first value over the second |
| `NestedTxn.DroppedUpdateFails` | memdb/txn.cc:1552-1576 | a run that fails: inserted twice and removed once, the row is no longer own, and the next removal drops an update staged meanwhile |
| `NestedTxn.TxnNested.Commit` | memdb/txn.cc:1473-1489 | the three replay loops, in any order within each, leave the base as `Flush` says |
| `NestedTxn.TxnNested.ReadColumn` | memdb/txn.cc:1491-1514 | own rows, then own updates, then the base |
| `NestedTxn.TxnNested.WriteColumn` | memdb/txn.cc:1516-1541 | in place for own rows, staged otherwise |
| `NestedTxn.TxnNested.InsertRow` | memdb/txn.cc:1543-1550 | of a row in no table: it becomes the transaction's own, and no removal of it stays staged |
| `NestedTxn.TxnNested.RemoveRow` | memdb/txn.cc:1552-1576 | undoes an own insert or stages a removal; the row's staged updates go |
| `NestedTxn.Txn2PL.ReadColumn` | memdb/txn.cc:640-679 | the staged value of a table row if there is one, otherwise row memory |
| `NestedTxn.Txn2PL.WriteColumn` | memdb/txn.cc:697-736 | staged for a row of a table, written in place for any other row |
| `NestedTxn.Txn2PL.InsertRow` | memdb/txn.cc:738-745 | of a row in no table: one more staged copy of it, and no staged removal of it |
| `NestedTxn.Txn2PL.RemoveRow` | memdb/txn.cc:747-790 | undoes one staged insert of exactly that row or stages a removal; its staged updates go |
| `NestedQuery.QueriesAreDirectIff` | memdb/txn.cc:1580-1681 | over any run the code's checks allow: every query by key inside returns at every point the bag of rows direct execution would, if and only if no row removed inside is inserted again or was staged more than once by the base, and the key last written to a staged row is in its memory |
| `NestedQuery.AnswersIff` | memdb/txn.cc:1580-1681 | where the same is staged, all queries agree exactly under that condition |
| `NestedQuery.QueryInside` | memdb/txn.cc:1580-1590 | the merged cursor over the base's merged cursor: what the base returns less what was removed, and the own copies |
| `NestedQuery.QueryBase` | memdb/txn.cc:936-959 | table rows not removed, and every staged copy |
| `NestedQuery.HiddenCopyFails` | memdb/txn.cc:849-860 | a run that fails: a row staged twice by the base and removed once inside is not shown at all |
| `NestedQuery.OldKeyFails` | memdb/txn.cc:1516-1550 | a run that fails: a row whose key was written before it was inserted is found under the old key |
| `MergedCursor.Drain` | memdb/txn.cc:807-933 | the output is an interleaving of the table rows not removed and the staged inserts, each exactly once |
| `MergedCursor.MergeAscends` | memdb/txn.cc:871-884 | inputs in the order of their addresses are merged in that order |
| `MergedCursor.Cursor.PrefetchNext` | memdb/txn.cc:849-888 | looks one row ahead without losing or repeating one |
| `MergedCursor.Cursor.FetchCandidate` | memdb/txn.cc:852-860 | skips exactly the removed rows |
| `MergedCursor.Cursor.Next` | memdb/txn.cc:926-932 | hands out the rows in merge order |
| `StagedQuery.BeforeAndAfter` | memdb/txn.cc:539-589 | a query through the transaction, the commit and the query again give the same bag of rows exactly when the query selects the same survivors under old and new columns; always when no staged update changes a key column |
| `StagedQuery.QueriesAgreeIff` | memdb/txn.cc:545-573 | every query agrees before and after if and only if no staged update changes a key column of a surviving row |
| `StagedQuery.KeyUpdateFails` | memdb/txn.cc:568-572 | a run that fails: after a staged key update the transaction still finds the row under its old key, the table after commit does not |
| `StagedQuery.StagedTxn.Query` | memdb/txn.cc:936-959 | the merged cursor returns each row that will survive and whose current key matches exactly once |
| `StagedQuery.StagedTxn.Commit` | memdb/txn.cc:539-589 | the insert, update and remove loops leave exactly the survivors, in order, with the staged values in place |
| `StagedQuery.StagedTxn.RemoveRow` | memdb/txn.cc:747-790 | the sweep of staged rows with the same key finds exactly that row, or a removal is staged; the row will not survive |
| `StagedQuery.StagedTxn.InsertRow` | memdb/txn.cc:738-745 | a staged row takes its place in key order; the transaction can still be committed if and only if it was not staged before |
| `StagedQuery.SortedTable.Update` | memdb/row.cc:167-193 | the row leaves and re-enters the table around a change of a key column; order and members are kept |
| `StagedQuery.SortedTable.Insert` | memdb/table.h:182-187 | the table stays in key order with the row added |
| `StagedQuery.SortedTable.Remove` | memdb/table.cc:101-114 | the row is found under its current key and leaves |
| `StagedQuery.SortedTable.Query` | memdb/table.h:189-258 | exactly the members whose key matches, each once |
| `XxHash.BothWays` | memdb/xxhash.cc:265-401 | for every string of one-shot length and every split of it, streaming and one-shot values are equal |
| `XxHash.OneShot` | memdb/xxhash.cc:206-262 | the one-shot loops compute the hash as described |
| `XxHash.Streamed` | memdb/xxhash.cc:317-454 | reset, updates and digest compute the hash of the concatenation |
| `XxHash.State.constructor` | memdb/xxhash.cc:317-328 | the state after reset |
| `XxHash.State.Update` | memdb/xxhash.cc:339-401 | lanes and carry buffer stand for everything fed so far, across the 16-byte buffer |
| `XxHash.State.Digest` | memdb/xxhash.cc:415-454 | the digest is the hash of everything fed so far, on the short-input path too |
| `XxHash.StripesGrow` | memdb/xxhash.cc:350-398 | stripes of the whole are stripes of the carried bytes followed by the new ones |
| `HashSpread.OneByteMatters` | memdb/xxhash.cc:206-262 | two strings that differ in exactly one byte have different hashes |
| `HashSpread.MixedApart` | memdb/xxhash.cc:225-252 | each mixing step is injective in the state and in the word |
| `HashSpread.AvalancheApart` | memdb/xxhash.cc:255-259 | so is the final mixing |
| `HashSpread.SampleValue` | memdb/xxhash.cc:206-262 | the hash of the bytes 0 to 20, which pins the constants, rotations and shifts |
| `ItemChoice.Adjust` | deptran/txn_req_factory.cc:195-208 | terminates and turns draw `t` into the t-th value not chosen yet, in range |
| `ItemChoice.ChooseItems` | deptran/txn_req_factory.cc:192-210 | all chosen items are in range and pairwise distinct, each the draw's rank among the unused |
| `ItemChoice.ChoiceIsUnique` | deptran/txn_req_factory.cc:192-210 | different choices come from different draws |
| `ItemChoice.EveryChoiceHasDraws` | deptran/txn_req_factory.cc:192-210 | every sequence of distinct items comes from some draws |
| `ItemChoice.RankIsInRange` | deptran/txn_req_factory.cc:195-195 | every unused item is the image of a draw in range |
| `ItemChoice.Landed` | deptran/txn_req_factory.cc:198-208 | where the loop stops is the least solution and unused |
| `Odometer.Counter.Init` | deptran/sharding.cc:1458-1468 | all digits zero, shape kept, -1 exactly on an empty counter |
| `Odometer.Counter.Increase` | deptran/sharding.cc:1518-1535 | the carry loop is one mixed-radix step |
| `Odometer.Counter.ReverseIncrease` | deptran/sharding.cc:1499-1516 | the carry loop from the last digit is one mixed-radix step of the reversed digits |
| `Odometer.Counter.IncreaseBound` | deptran/sharding.cc:1484-1497 | one step of the independent digits; the counter stays valid and in order, so it can be stepped again |
| `Odometer.Counter.ReverseIncreaseBound` | deptran/sharding.cc:1470-1482 | the same from the last digit |
| `Odometer.BoundStepKeeps` | deptran/sharding.cc:1470-1497 | a bound step is a step of the independent digits, and ties the bound columns together |
| `Odometer.BoundVisitsEachOnce` | deptran/sharding.cc:1458-1535 | from all zeros, repeated bound increases in either direction visit each combination of the independent digits exactly once |
| `Odometer.BoundStaysTied` | deptran/sharding.cc:1470-1497 | with the bound columns equal throughout and success reported before the last combination only |
| `Odometer.BoundEndsAtZero` | deptran/sharding.cc:1458-1535 | when the end is reported with every column back at zero |
| `Odometer.NextCounts` | deptran/sharding.cc:1518-1535 | a step adds one; past the end it reports so with all digits zero |
| `Odometer.VisitsEachOnce` | deptran/sharding.cc:1458-1535 | from all zeros every combination is visited exactly once |
| `Odometer.EndsAtZero` | deptran/sharding.cc:1458-1535 | after as many steps as there are combinations the counter is back at zero and reports the end |

## Left out

- Inserts, removes and range queries in the serializability theorems: the code has no phantom protection.
- OCC_EAGER, the read-only snapshot constructor of `TxnOCC`, and updates of snapshot tables inside a transaction.
- Serializability of RCC mode: `entry_t::touch` (`deptran/dtxn.cc:7-12`) and `sort_vv` (`AddressesDecide`) do not support it.
- The lock classes of two-phase locking, whose source is not part of this model; 2PL reads and writes are modelled without locks, as the code takes none there.
- `union_graph` in server mode, which may refuse a status depending on the servers merged so far, and the `Graph` copy constructor, whose back edges point into the old graph.
- Erasing a range of a snapshot map, `first_match_only`, and collection while a range is open.
- The dead branch of the snapshot map's copy constructor (a writable source always has a writer).
- Memory matters: reference counts, keys aliasing row memory, the dense and sparse row layouts. Keys and values are values; a freed object keeps its contents and its address is not used again.
- `TxnInfo`, its event lists and the coordinator's counters as objects: they are values of a state machine, so the order in which one event list is emptied is not captured (any order is allowed).
- `Graph::operator=`, and the `Piece` part of the dependency graph.
- Descending enumeration of tables and indices, unsorted tables, `SortedTable::clear` on an indexed table, `MergedCursor::reset`.
- Several tables in nested transactions, and the order in which a query inside lists its rows: rows are named by their addresses, and answers are bags.
- Which transactions have pieces on a server is fixed from the start in `DeferredRuns`.
- Width of version counters and ids: unbounded in the model. XXH32 is modelled with 32-bit words, on a little-endian machine, for strings up to the one-shot length.
- RPC plumbing, logging, timers, statistics, benchmark procedures, population, configuration and sharding functions other than the counter.
- CommitBarrier.StepKeepsInv: nested calls are successive small steps, a superset of what the mutex allows; a run in which `sorted_scc` stops at its check ends there.
- NestedTxn.Txn2PL.RemoveRow: finds the staged row by its address alone; the sweep of equal keys is in `StagedQuery.StagedTxn.RemoveRow`.
- Indices.IndexedTable.Update: an indexed column of a row that names the table must be changed while the row is in it; otherwise the source reads a deleted master or stops at the check of `Row::set_table` (`memdb/row.h:97-102`).
