# pg_fusion, modelled and proved

pg_fusion runs PostgreSQL queries in a separate worker. A backend scans tables, packs rows into fixed-size Arrow page
blocks, and hands pages to the worker through shared memory. The worker plans joins and decodes the logical plan the
backend sent. This project models the parts on which that rests and proves what they promise, for every input, every
interleaving and every run.

| component | modules |
|---|---|
| shared | `Common` |
| the join order optimizer | `Bits`, `JoinProblem`, `JoinTrees`, `JoinSearch`, `JoinOptimizer`, `JoinLimits` |
| the lock-free index stack and the page pool on top of it | `TreiberStack`, `PagePool`, `PoolLoss`, `PoolCalls` |
| page transfer with issuance permits, and the scan flow roles | `PageHandoff`, `HandoffRuns`, `HandoffCalls`, `ScanFlow` |
| the page block: layout, row encoder, batch encoder, row estimator, and the loop that pages a scan | `Bytes`, `Bitmaps`, `ArrowLayout`, `ArrowBlock`, `RowCells`, `ColumnWrites`, `RowEncoder`, `RowEstimator`, `BatchEncoder`, `PageSource`, `BlockFormat` |
| the streaming plan codec | `MsgPack`, `PlanWire`, `PlanTree`, `PlanBuffers`, `PlanEncoder`, `PlanDecoder`, `PlanSession`, `PlanRoundTrip`, `PlanStreams`, `PlanAccepts`, `PlanFormat`, `PlanGrammar` |

How to read the models:

- Code that updates objects in place is a class (`RowEncoder.Encoder`, `BatchEncoder.Encoder`,
  `RowEstimator.Estimator`, `PageSource.Source`, `ScanFlow.Worker`,
  `PlanEncoder.EncodeSession`, `PlanSession.DecodeSession`, ...). Loops are methods with invariants, and blocks are byte
  arrays. `PageSource` runs the encoder and estimator classes themselves, so its theorem reaches from a row stream to the
  bytes of the pages: which rows each call puts on its page is a function of the rows, the filters and the estimator.
- The lock-free code is a state machine in which every atomic access is one step. A run is any schedule of such steps.
  `PagePool` embeds the whole `TreiberStack` machine. In `PageHandoff` each step of every call of every cloned handle is
  a step, and the two pools are sets of owned pages and permits.
- Costs, rows and selectivities are reals. Machine integers are bounded by explicit checks where the source checks, wraps
  or saturates.

Where the code does not do what one would want of it, the model follows the code and a lemma exhibits the case. Except
for the first item, the exact condition is proved as well:

- `optimize` finds the cheapest join tree if every edge has one relation on each side and commutes
  (`JoinOptimizer.RootIsOptimal`). Without that it may not: `JoinLimits.HyperedgeSuboptimal` and
  `JoinLimits.OneWayEdgeSuboptimal` show a worse plan, and a connected hypergraph may have no plan at all
  (`JoinLimits.ConnectedWithoutPlan`). That the condition is necessary is not claimed.
- `release` on the stack may refuse an index to its rightful owner, because `len` lags behind the head.
  `TreiberStack.RefusedExactly` says when and `TreiberStack.OwnerRefused` is such a run. In the pool this loses pages: a
  dropped lease ignores the refusal, so its page goes back to attached with nobody holding it. `PoolLoss.PageLost` is
  such a run, `PoolLoss.LostExactly` says exactly when it happens, and `PoolLoss.DoomedForever` and `PoolLoss.NeverBack`
  say that the page never comes back.
- In `IssuedRx::accept`, a page with a bad header is released before its permit is. If that page release is refused the
  permit is released all the same, and a second receiver of a copy of the frame then releases a permit that belongs to
  somebody else: `HandoffRuns.RefusedRejectStealsPermit` is a run from the initial state after which two activities hold
  the only permit. One step keeps the books of permits exactly when it is not such a refused release
  (`PageHandoff.KeepsExactly`). In every run two activities come to hold one permit only after such a refusal
  (`HandoffRuns.HeldTwice`), and after any such refusal they can (`HandoffRuns.RefusalDuplicates`). What is said of
  frames, ids, streams and pages holds in every run all the same.
- Pages in use may outnumber the permits: `HandoffRuns.LostPageOutnumbers` is a run in which a dropped writer's page is
  refused by its pool while its permit is taken back. Without a refused rejection this takes such a lost page
  (`HandoffRuns.PagesWithinPermits`).
- `compute_fixed_row_cap` refuses shapes of which rows do fit, because its first probe overflows 32 bits:
  `RowEstimator.ComputeFixedRowCap` has the exact condition, and `RowEstimator.FittingShapeRefused` is a 64 MiB block.
- A row that fails half way leaves the nulls it wrote counted. The importer then refuses the page exactly if there was
  such a null (`RowEncoder.FailedRowImports`); `RowEncoder.FinishAfterFailure` is such a page.
- A long value that is longer than all that lies below the tail is an overflow error, not a full page, so the scan fails
  although the row would fit the next page. `PageSource.ScanTwoRows` is a scan of 64 KiB pages that fails on its second
  row, after 40000 bytes and with 30000 to come. A call fails so exactly if, of the first row its page does not take, the
  first cell not written is longer than what the rows of the page and the row's earlier cells leave
  (`PageSource.Source.OverflowsExactly`).
- Worker and coordinator agree on a scan exactly until a bad frame of an active producer ends it for the worker alone
  (`ScanFlow.SidesAgree`, `ScanFlow.FrameFaultExactly`). In `ScanFlow.OneSidedFault` the coordinator completes a scan
  that the worker has failed.
- The plan encoder keeps one spec per scan id. A plan survives the trip exactly when equal ids carry equal specs
  (`PlanTree.RoundTripsExactly`, `PlanTree.ConflictLosesSpec`).
- An underflow inside a protobuf message of a scan spec is taken for missing input. The decoder then waits at that spec
  whatever follows, never refuses a chunk, and reports `UnexpectedEof` at the end (`PlanStreams.WaitsForever`,
  `PlanStreams.PushUnderflow`). A complete envelope gets that verdict exactly if a spec in it underflows
  (`PlanStreams.WaitsExactly`); `PlanStreams.WholeButWaiting` is one.

## Model

| member | source | states |
|---|---|---|
| `JoinProblem.Validate` | join_order/src/lib.rs:530-605 | a problem is let through exactly when counts, statistics and every edge are in order; otherwise the error says what is wrong with it: no or too many relations, the first negative statistics, or the first bad edge, its number and its fault |
| `JoinProblem.EdgeErrorIffBad` | join_order/src/lib.rs:562-603 | an edge is reported exactly when one of its sides, selectivity, predicates or kind is out of order |
| `JoinProblem.EdgeErrorBlames` | join_order/src/lib.rs:562-603 | the error of an edge names its fault, and the faults checked before it are absent |
| `JoinProblem.LowestBitIsLowest` | join_order/src/lib.rs:37-39 | `set & set.wrapping_neg()` is the mask of the lowest relation alone |
| `JoinProblem.IsConnected` | join_order/src/lib.rs:615-639 | the fixpoint loop decides connectedness of the set: the smallest closed part containing the lowest relation is the whole |
| `JoinProblem.ConnectedIffReachable` | join_order/src/lib.rs:615-639 | connected means that a path of usable edges inside the set leads from the lowest relation to every other |
| `JoinProblem.ConnectedNoCut` | join_order/src/lib.rs:620-636 | no proper nonempty part of a connected set is closed under its edges |
| `JoinProblem.ConnectedUnion` | join_order/src/lib.rs:620-636 | two connected sets joined by an edge inside their union are connected together |
| `JoinProblem.ConnectedSets` | join_order/src/lib.rs:607-613 | the table holds the connectedness of every nonempty subset |
| `JoinProblem.ComputeLink` | join_order/src/lib.rs:641-667 | the link of two sides exists exactly when a usable edge crosses them; its selectivity is the product over all crossing edges and it commutes when all of them do |
| `JoinTrees.TreeConnected` | join_order/src/lib.rs:436-455 | every tree built without cross joins covers a connected set |
| `JoinTrees.ReanchorAdmissible` | join_order/src/lib.rs:485-528 | any bushy tree can be turned so that the lowest relation is on the left everywhere, and with commutative edges at the same cost |
| `JoinTrees.TreeStatsOfSet` | join_order/src/lib.rs:485-510 | with one relation per edge side, rows and bytes of a tree depend on its relation set alone |
| `JoinTrees.UnitEdgesIndependent` | join_order/src/lib.rs:485-510 | so any two admissible trees over one set have the same rows and bytes, which dynamic programming over sets needs |
| `JoinTrees.JoinCost` | join_order/src/lib.rs:496-501 | whatever the edges, a join costs what its sides cost, plus the work of building a side and probing with the other, plus its rows and bytes; the right side is built exactly if the link commutes and that is strictly less work |
| `JoinTrees.CostOfTree` | join_order/src/lib.rs:485-510 | with one relation per edge side the cost of any tree is the sum over its joins of build work, rows and bytes, each told from the relations the join covers |
| `JoinTrees.GrowTree` | join_order/src/lib.rs:419-468 | a connected set of such edges has a left-deep tree without cross joins |
| `JoinSearch.ForEachSplit` | join_order/src/lib.rs:512-528 | the submask loop visits every split of the set with its lowest relation on the left, each once, in falling order |
| `JoinSearch.EveryPartitionOnce` | join_order/src/lib.rs:512-528 | of the two orders of any two-way partition exactly one is a split |
| `JoinSearch.SearchCtx.ObservePair` | join_order/src/lib.rs:303-320 | each new pair is counted once and the budget error comes with the first pair beyond it |
| `JoinSearch.PairsOfSet` | join_order/src/lib.rs:349-366 | visiting one set adds exactly its observed splits to the pairs counted before |
| `JoinOptimizer.CountSet` | join_order/src/lib.rs:340-370 | the prepass on one set counts exactly its observed pairs or runs over a budget that the whole problem exceeds |
| `JoinOptimizer.CountPartitions` | join_order/src/lib.rs:323-373 | the prepass reports the number of pairs of the whole search, and succeeds exactly when the problem is valid and that number is within the budget; for an invalid problem the error says what is wrong with it |
| `JoinOptimizer.BestSplit` | join_order/src/lib.rs:419-468 | the entry of a set is the cheapest over all its splits whose sides have entries and a link, and of equally cheap ones the first in the order in which they are tried |
| `JoinOptimizer.Optimize` | join_order/src/lib.rs:376-475 | succeeds exactly when the problem is valid, the budget suffices and some admissible tree covers all relations; the search itself never exceeds the budget the prepass accepted; every failure has its exact error, and that of an invalid problem says what is wrong with it |
| `JoinOptimizer.BuildSideExactly` | join_order/src/lib.rs:485-510 | an entry of one relation is its statistics at no cost; any other builds its right side exactly if its link commutes and the bytes on the right plus the rows on the left are strictly less than the reverse, and costs its sides, that work, its rows and its bytes |
| `JoinOptimizer.RootEntry` | join_order/src/lib.rs:419-475 | the root has an entry exactly when an admissible tree over all relations exists |
| `JoinOptimizer.TreeAttains` | join_order/src/lib.rs:244-275 | the tree read off the `left` and `right` fields is admissible, covers the set and has the cost of its entry |
| `JoinOptimizer.TreeHasEntry` | join_order/src/lib.rs:419-468 | every anchored admissible tree has an entry for its relation set |
| `JoinOptimizer.EntryIsOptimal` | join_order/src/lib.rs:419-510 | no anchored admissible tree is cheaper than the entry of its set, by induction over all bushy trees |
| `JoinOptimizer.RootIsOptimal` | join_order/src/lib.rs:376-510 | with commutative edges between single relations the root cost is the minimum over all bushy trees of the mode, attained by the tree in the table, where the cost of a tree is the sum of build work, rows and bytes over its joins |
| `JoinOptimizer.PlanConnected` | join_order/src/lib.rs:399-401 | a plan without cross joins implies a connected graph, so `DisconnectedGraph` hides no plan |
| `JoinOptimizer.CrossJoinsHavePlan` | join_order/src/lib.rs:419-475 | `NoPlan` is unreachable with cross joins allowed |
| `JoinOptimizer.UnitEdgesHavePlan` | join_order/src/lib.rs:399-475 | with one relation per edge side there is a plan exactly when the graph is connected, so `NoPlan` is unreachable |
| `JoinLimits.SplitPairCount` | join_order/src/lib.rs:512-528 | n relations have (3^n - 2^(n+1) + 1)/2 splits in all |
| `JoinLimits.CrossJoinPairCount` | join_order/src/lib.rs:323-373 | cross-join mode observes exactly that many pairs |
| `JoinLimits.ConnectedWithoutPlan` | join_order/src/lib.rs:419-475 | one three-way hyperedge is a connected problem without a plan |
| `JoinLimits.OneWayEdgeSuboptimal` | join_order/src/lib.rs:485-510 | an edge that does not commute makes the root dearer than the tree with its sides swapped |
| `JoinLimits.HyperedgeSuboptimal` | join_order/src/lib.rs:419-510 | with a hyperedge the root costs 10032 where an admissible tree costs 120 |
| `TreiberStack.UnpackHead` | lockfree/src/lib.rs:74-84 | index and tag come back out of a packed head |
| `TreiberStack.PackHeadIsBitwise` | lockfree/src/lib.rs:74-84 | the arithmetic packing is the shift and or of the code and fits a word |
| `TreiberStack.StepRefines` | lockfree/src/lib.rs:182-234 | each atomic step of any thread is a legal push, pop, look at an empty stack or nothing, and keeps the chain acyclic and `len` equal to size plus popped-not-yet-decremented minus pushed-not-yet-incremented modulo the word |
| `TreiberStack.TagTells` | lockfree/src/lib.rs:188-203 | a head word that still matches after fewer than 2^32 changes has not changed at all, so the exchange is safe from reuse |
| `TreiberStack.Linearizes` | lockfree/src/lib.rs:182-234 | every interleaved run replays as a legal history of one sequential stack |
| `TreiberStack.CallLinearizes` | lockfree/src/lib.rs:182-234 | between its call and its return a thread carries out exactly the one operation its return value reports, and none if it is refused |
| `TreiberStack.OneOwner` | lockfree/src/lib.rs:182-234 | an index in the hands of one thread is in no other thread's hands and not on the stack |
| `TreiberStack.AccessInBounds` | lockfree/src/lib.rs:188-233 | every access to the link array is within the capacity |
| `TreiberStack.InitInPlace` | lockfree/src/lib.rs:98-130 | the freshly linked array holds every index once, highest first |
| `TreiberStack.InitEmptyInPlace` | lockfree/src/lib.rs:140-164 | the empty stack starts with every index at the caller |
| `TreiberStack.OwnerLeavesRoom` | lockfree/src/lib.rs:207-216 | while an index is out, stack and pending pops stay below capacity |
| `TreiberStack.RefusedExactly` | lockfree/src/lib.rs:207-216 | an owner's push is refused exactly when pushes that have not counted yet outnumber stack and uncounted pops, so that `len` has wrapped |
| `TreiberStack.OwnerRefused` | lockfree/src/lib.rs:207-216 | a run of two threads in which the owner of an index is told the stack is full |
| `PagePool.UnpackState` | page/pool/src/shm.rs:82-93 | state and generation come back out of a word exactly when the generation fits its 62 bits |
| `PagePool.PackStateIsBitwise` | page/pool/src/shm.rs:82-93 | the arithmetic packing is the shift, mask and or of the code |
| `PagePool.WordTellsStage` | page/pool/src/shm.rs:13-30 | the state bits of a page agree with the one stage the page is in |
| `PagePool.LeasesPage` | page/pool/src/pool.rs:209-264 | the exchange of `try_acquire` never fails and leases a generation the page never had, within range |
| `PagePool.HandsOff` | page/pool/src/pool.rs:371-413 | detaching moves a leased page to the descriptor's holder and keeps the invariant |
| `PagePool.Retires` | page/pool/src/pool.rs:539-556 | the last generation of a page is released at most once and exhausts the page |
| `PagePool.Frees` | page/pool/src/pool.rs:539-559 | releasing moves the page to the releasing thread until it is pushed or reverted |
| `PagePool.Reverts` | page/pool/src/pool.rs:559-588 | a refused push restores the word the release replaced |
| `PagePool.LinksPage` | page/pool/src/pool.rs:558-589 | the push that links a page releases its generation for the first time |
| `PagePool.ReportsOk` | page/pool/src/pool.rs:558-610 | Ok is reported for a generation never reported before |
| `PagePool.FreelistOk` | page/pool/src/pool.rs:195-205 | whatever the pool does on the stack meets the stack's ownership condition |
| `PagePool.OwnsOne` | page/pool/src/pool.rs:195-611 | a thread is in charge of at most one page |
| `PagePool.StepKeeps` | page/pool/src/pool.rs:195-611 | every step of every call keeps each page in exactly one stage: free, popped, leased, handed off, released but not pushed, or exhausted; which calls pass and how they end is in `PoolCalls` |
| `PagePool.Reaches` | page/pool/src/pool.rs:195-611 | so does every run of any number of threads |
| `PagePool.LeaseIsNew` | page/pool/src/pool.rs:209-264 | in any run, a lease is of a page and generation not leased before |
| `PagePool.LeasedOnce` | page/pool/src/pool.rs:195-270 | over any run each page and generation is leased at most once |
| `PagePool.OkIsNew` | page/pool/src/pool.rs:457-611 | in any run, a release reported Ok was not reported before |
| `PagePool.ReleasedOnce` | page/pool/src/pool.rs:430-611 | over any run each page and generation is released with Ok at most once |
| `PagePool.OverIsRefused` | page/pool/src/pool.rs:457-537 | the word of a released generation refuses both kinds of release and all access |
| `PagePool.RefusedForever` | page/pool/src/pool.rs:430-611 | a descriptor once released is refused at every later point of the run |
| `PagePool.AccessExactlyDetached` | page/pool/src/pool.rs:613-659 | access through a descriptor is granted exactly while that generation is handed off |
| `PagePool.NeverTruncated` | page/pool/src/pool.rs:225-263 | a free page is below the last generation, so packing the next one loses nothing |
| `PagePool.NeverCorrupt` | page/pool/src/pool.rs:195-270 | no reachable state of any run reports `CorruptState` |
| `PagePool.InitInPlace` | page/pool/src/pool.rs:58-122 | a fresh pool starts with every page free and nothing leased |
| `PoolLoss.DoomedExactly` | page/pool/src/pool.rs:558-588 | a step puts a page on its way to being lost exactly when it is the room check of a dropped lease's push, made while uncounted pushes outnumber the free list and the uncounted pops |
| `PoolLoss.DoomedStays` | page/pool/src/pool.rs:558-588 | such a page stays so under every step of every thread, in the same generation, and only its own thread's steps bring it to the end |
| `PoolLoss.DoomedForever` | page/pool/src/lease.rs:68-72 | over any run, after at most three more steps of that thread the page is attached with no lease object, for good |
| `PoolLoss.NeverBack` | page/pool/src/lease.rs:68-72 | such a page is never leased again, never on the free list again, and its lease is never reported released |
| `PoolLoss.LostIsRefused` | page/pool/src/pool.rs:500-509 | a later release of the lost lease is refused as still attached |
| `PoolLoss.LostExactly` | page/pool/src/pool.rs:539-588 | over any run of at most 2^64 - 2^32 threads a page is lost exactly if one of its dropped leases met the room check while the count lagged |
| `PoolLoss.PageLost` | page/pool/src/lease.rs:68-72 | a run of a fresh pool of one page and two threads that ends with the page attached and no lease |
| `PoolCalls.ChecksExactly` | page/pool/src/pool.rs:430-537 | a release of a descriptor passes its check exactly if that generation of that page of this pool is handed off; otherwise it is refused for another pool, an unknown page, a page still attached, not leased, or another generation; a dropped lease always passes |
| `PoolCalls.ExchangesExactly` | page/pool/src/pool.rs:539-610 | the exchange of a release fails only if somebody else moved the page on, and never under a lease; else the page is in the releasing thread's hands, or exhausted if this was its last generation |
| `PoolCalls.AcquireGoesOn` | page/pool/src/pool.rs:195-270 | an acquire that popped a page leases it in the next generation, and one that found none says so; nothing it finds is corrupt |
| `PoolCalls.DetachGoesOn` | page/pool/src/pool.rs:371-413 | a detach finds its lease, and its exchange hands off that page and generation |
| `PoolCalls.CallRuns` | page/pool/src/pool.rs:195-611 | in every run each call stays on its way and ends only as it may: an acquire with a lease or empty, a detach with a handoff, a release or drop with Ok or an error of its own descriptor |
| `PoolCalls.DetachSucceeds` | page/pool/src/pool.rs:371-413 | in every run the detach of a live lease ends in the handoff of that page and generation, never in an error |
| `PoolCalls.ReleaseEnds` | page/pool/src/pool.rs:430-611 | in every run a release ends refused exactly as the stage of the page at its last check says, with `CorruptFreeList` exactly if the free list refused the page, and otherwise with Ok |
| `PoolCalls.DropEnds` | page/pool/src/lease.rs:68-72 | in every run a dropped lease is released, unless the free list refuses its page |
| `PageHandoff.StepIsSound` | page/transfer/src/tx.rs:65-141 | one step of any sender, outbound page, receiver or release, refused releases included, keeps phases, ids, frames and pages consistent; how each call ends is in `HandoffCalls` |
| `PageHandoff.BeginIsSound` | page/issuance/src/tx.rs:57-75 | so does starting any call on any cloned handle |
| `PageHandoff.StepKeeps` | page/issuance/src/rx.rs:39-81 | a step in which no rejected page is refused by its pool also keeps the permits consistent |
| `PageHandoff.BeginKeeps` | page/issuance/src/tx.rs:57-75 | so does starting any call |
| `PageHandoff.KeepsExactly` | page/issuance/src/rx.rs:56-78 | a step keeps pages and permits consistent exactly if it is not the refused release of a rejected page and takes no id beyond the last |
| `PageHandoff.ExpectedIsNext` | page/transfer/src/rx.rs:73-83 | a frame whose id is the expected one is the first not yet accepted |
| `HandoffRuns.Sounds` | page/transfer/src/rx.rs:122-229 | every run from the initial state keeps phases, ids, frames and pages consistent |
| `HandoffRuns.Reaches` | page/issuance/src/rx.rs:39-81 | a run in which no rejected page is refused keeps the permits consistent too |
| `HandoffRuns.AcceptedPrefix` | page/transfer/src/rx.rs:122-151 | in every run what a receiver has accepted is ids 1 to k, a prefix of the frames written, marked sent or not |
| `HandoffRuns.TakesOnlyNext` | page/transfer/src/rx.rs:122-151 | in every run each accept takes exactly the next frame, on a receiver that is still open; that the next frame is taken is in `HandoffCalls` |
| `HandoffRuns.OneSender` | page/transfer/src/tx.rs:70-117 | in every run at most one writer, outbound page or close is under way on a stream |
| `HandoffRuns.OnePageOwner` | page/issuance/src/tx.rs:57-75 | in every run no two activities hold the same page, and the pool agrees on who does |
| `HandoffRuns.OnePermitOwner` | page/issuance/src/tx.rs:57-75 | the same for permits, if no rejected page was refused |
| `HandoffRuns.HeldTwice` | page/issuance/src/rx.rs:56-78 | in every run, two activities that hold the same permit come after a rejected page that its pool refused |
| `HandoffRuns.RefusalDuplicates` | page/issuance/src/rx.rs:56-78 | in every run, a rejected page that its pool refuses can be followed by turns after which two activities hold its permit |
| `HandoffRuns.PagesWithinPermits` | page/issuance/src/tx.rs:57-75 | if no rejected page was refused, the pages held by activities and frames never outnumber the permits held by them, and all pages in use outnumber all permits only if a page has been lost to a refused release |
| `HandoffRuns.LostPageOutnumbers` | page/transfer/src/tx.rs:348-356 | a run from the initial state in which a dropped writer's page is refused and the next writer brings two pages out on the only permit |
| `HandoffRuns.RefusalMovesNothing` | page/issuance/src/rx.rs:141-150 | in every run an activity that ends busy, closed, out of order or inaccessible has in none of its steps moved a page, a permit or a frame |
| `HandoffRuns.RejectReturnsBoth` | page/issuance/src/rx.rs:56-78 | an activity that ends with a bad header has, under any interleaving, returned its page and then its permit in one step each and moved nothing else, and the page is never leased again |
| `HandoffRuns.GoneForever` | page/transfer/src/rx.rs:160-229 | a page that left the pool's books in a run never comes back |
| `HandoffRuns.EmptyForever` | page/transfer/src/rx.rs:160-229 | if no rejected page was refused, a frame whose page is gone stays empty for the rest of the run |
| `HandoffRuns.EmptyFrameRefused` | page/transfer/src/rx.rs:160-203 | and a later delivery of it is refused without effect |
| `HandoffRuns.ClosedForever` | page/transfer/src/rx.rs:45-99 | in every run nothing is accepted on a closed receiver |
| `HandoffRuns.CloseIsLast` | page/transfer/src/tx.rs:119-141 | in every run nothing is written on a stream after its close frame |
| `HandoffRuns.RefusedRejectStealsPermit` | page/issuance/src/rx.rs:56-78 | a run from the initial state, sender included, in which two deliveries of one bad frame end with two activities holding the only permit |
| `HandoffCalls.StepHeads` | page/transfer/src/rx.rs:122-229 | a step of any call decides on the end of that call exactly by the phase, the id, the frame, the page and the header it finds, and a decision once made is carried to the end |
| `HandoffCalls.EndsAsDecided` | page/transfer/src/tx.rs:65-141 | in every run every call on every handle ends exactly with what was first decided about it |
| `HandoffCalls.AcceptEndsExactly` | page/transfer/src/rx.rs:122-151 | in every run an accept that got to its frame ends with `UnexpectedTransferId` exactly if the frame was not the one expected next, and as closed exactly if it was and is a close frame |
| `HandoffCalls.ClosesReceiver` | page/transfer/src/rx.rs:133-137 | in every run a close frame in order advances the receiver by one id and closes it |
| `HandoffCalls.TakesPage` | page/transfer/src/rx.rs:138-149 | in every run an accept that finds the page of its frame there and its header good advances the receiver past that frame and holds exactly its page and its permit until they are given back |
| `HandoffCalls.CarrierHoldsSent` | page/transfer/src/tx.rs:383-406 | in every run the carrier of a stream holds exactly the frames that were sent, in the order of sending, and its next id is one more than the number of ids reserved on it |
| `HandoffCalls.IdsInOrder` | page/transfer/src/tx.rs:93-107 | in every run the id under which a call writes is the number of its own reservation on the stream, 1, 2, 3 and so on; an id whose page is dropped is not given out again |
| `HandoffCalls.NothingLost` | page/issuance/src/rx.rs:39-81 | in every run whose pools take back what they are given, every page and permit that is out is held by a call or travels in a frame |
| `HandoffCalls.AllReturned` | page/issuance/src/rx.rs:39-81 | once every call is over, the pools have back everything but what travels in frames and what they refused |
| `ScanFlow.Validate` | page/scan_flow/src/types.rs:69-94 | a scan opens exactly when its producers are nonempty, distinct and have one leader at most, and the first offender decides the error |
| `ScanFlow.FindProducer` | page/scan_flow/src/worker.rs:272-283 | the lookup finds a producer exactly when it is declared, with its progress |
| `ScanFlow.AllEof` | page/scan_flow/src/backend.rs:321-372 | the scan of the table finds out whether every producer has ended |
| `ScanFlow.StartProducers` | page/scan_flow/src/backend.rs:294-319 | a validated declaration starts with every producer active |
| `ScanFlow.EndOne` | page/scan_flow/src/backend.rs:346-371 | ending one producer ends it alone, and all have ended exactly when the ended ids are the declared ids |
| `ScanFlow.ProducerRole.Step` | page/scan_flow/src/backend.rs:131-236 | a step follows the producer table, and every transition taken is one the table has |
| `ScanFlow.Coordinator.AcceptProducerEof` | page/scan_flow/src/backend.rs:321-372 | the reply and the new state are those of the event on the abstract scan |
| `ScanFlow.Coordinator.AcceptProducerError` | page/scan_flow/src/backend.rs:374-415 | likewise for an error |
| `ScanFlow.Worker.AcceptProducerEof` | page/scan_flow/src/worker.rs:169-216 | the worker's reply and state are those of the same event on the same abstract scan |
| `ScanFlow.Worker.AcceptProducerError` | page/scan_flow/src/worker.rs:218-241 | likewise for an error |
| `ScanFlow.Worker.AcceptPageFrame` | page/scan_flow/src/worker.rs:90-167 | a page is accepted, refused, or fails the scan, and only the last changes the abstract scan; the kind and flags the scan was opened with stay the ones expected |
| `ScanFlow.Worker.Open` | page/scan_flow/src/worker.rs:64-88 | an opened worker is the abstract scan just opened and expects the declared kind and flags |
| `ScanFlow.ScanMeans` | page/scan_flow/src/backend.rs:294-430 | after any events the scan is finished exactly when one was faulty or the producers with an EOF are all the declared ones |
| `ScanFlow.LogicalEofExactly` | page/scan_flow/src/backend.rs:321-372 | logical EOF is the reply to exactly the event that ends the last declared producer of a faultless run |
| `ScanFlow.ReplyExactly` | page/scan_flow/src/backend.rs:321-430 | the reply to every event is decided by the events before it: refused for a finished scan, another flow, an undeclared or ended producer, in this order; else an error ends the scan, the last EOF is the logical one and any other goes on |
| `ScanFlow.OneTerminal` | page/scan_flow/src/backend.rs:321-430 | after a terminal reply every later event is refused |
| `ScanFlow.StaysFinished` | page/scan_flow/src/backend.rs:321-430 | a finished scan stays finished |
| `ScanFlow.FrameFaultExactly` | page/scan_flow/src/worker.rs:90-167 | a frame ends the scan for the worker exactly if it closes the stream, is fatal or has another kind or flags, and by the events before it its producer is declared, has not ended and nobody failed |
| `ScanFlow.FrameReplyExactly` | page/scan_flow/src/worker.rs:90-167 | the reply to every frame is decided by what came before it: a refused frame is rejected or an ingress error, a page of the expected kind and flags is routed, a retryable ingress error leaves the scan alone, and anything else fails it |
| `ScanFlow.SidesAgree` | page/scan_flow/src/worker.rs:90-311 | worker and coordinator, opened alike and given the same producer events, are in the same state and reply alike, however pages are interleaved, exactly until such a frame |
| `ScanFlow.RunScan` | page/scan_flow/src/worker.rs:90-311 | the worker and coordinator objects themselves, driven through any such inputs, end alike unless a frame ended the scan for the worker; to each event the worker replies as the coordinator does, or refuses it if such a frame came before; to each frame it replies as the inputs before it decide |
| `ScanFlow.OneSidedFault` | page/scan_flow/src/worker.rs:90-216 | a scan of one producer that sends a page of another kind and then ends: the coordinator replies logical EOF and the worker refuses |
| `Bytes.LeRoundTrip` | page/arrow_layout/src/internals.rs:59-91 | little-endian fields read back |
| `Bytes.LeDigit` | page/arrow_layout/src/internals.rs:59-91 | byte i of a little-endian field is the digit of that weight |
| `Bytes.UnpackPack` | page/arrow_layout/src/internals.rs:59-91 | packed structs read back field by field |
| `Bytes.Store` | page/arrow_layout/src/internals.rs:73-91 | a store changes exactly its range |
| `Bitmaps.WithBitReads` | page/arrow_layout/src/bitmap.rs:9-29 | after setting a bit it reads as set and every other bit as before |
| `Bitmaps.SetRaw` | page/row_encoder/src/bitmap.rs:7-15 | the in-place write is that update |
| `ArrowLayout.AlignUpIsMask` | page/arrow_layout/src/internals.rs:93-102 | the mask trick gives the least multiple at or above the value |
| `ArrowLayout.AlignUpBiased` | page/arrow_layout/src/internals.rs:104-117 | the biased form gives the least value at or above that is 12 modulo 16 |
| `ArrowLayout.NewPlan` | page/arrow_layout/src/plan.rs:33-93 | a plan exists exactly when the columns fit the block, it is the planned one, and each failure has its error; how large the buffers of a plan are is in `BlockFormat.BufferSizes` |
| `ArrowLayout.PlanTiles` | page/arrow_layout/src/plan.rs:50-93 | the regions tile front base to pool base without overlap, each buffer at 12 modulo 16 |
| `ArrowBlock.HeaderRoundTrip` | page/arrow_layout/src/raw.rs:19-46 | headers read back |
| `ArrowBlock.DescRoundTrip` | page/arrow_layout/src/raw.rs:71-96 | column descriptors read back |
| `ArrowBlock.Open` | page/arrow_layout/src/validate.rs:23-172 | a block is accepted exactly when it is laid out as planning some column list would lay it out; otherwise the error is that of its length, its header or its first descriptor at fault |
| `ArrowBlock.CheckDescs` | page/arrow_layout/src/validate.rs:141-172 | the one-pass descriptor check decides exactly that, and its error names a descriptor whose predecessors are in order |
| `ArrowBlock.SpecsRecovered` | page/arrow_layout/src/internals.rs:11-35 | the descriptors of an accepted block give back that column list |
| `ArrowBlock.InitBlock` | page/arrow_layout/src/access.rs:647-661 | an initialised block is laid out for its plan, empty, and opens |
| `ArrowBlock.ViewRoundTrip` | page/arrow_layout/src/raw.rs:108-149 | byte views read back |
| `ArrowBlock.InlineReads` | page/arrow_layout/src/raw.rs:115-128 | an inline view carries its bytes and is always valid |
| `ArrowBlock.OutlineReads` | page/arrow_layout/src/raw.rs:130-244 | an out-of-line view tells its offset and is valid exactly when its bytes lie in the pool |
| `BlockFormat.PackAt` | page/arrow_layout/src/internals.rs:59-91 | each field of a packed struct stands at the sum of the widths before it |
| `BlockFormat.HeaderBytes` | page/arrow_layout/src/raw.rs:19-46 | every field of the block header at its offset in the forty bytes |
| `BlockFormat.DescBytes` | page/arrow_layout/src/raw.rs:71-85 | every field of a column descriptor at its offset in the twenty bytes |
| `BlockFormat.FirstBytes` | page/arrow_layout/src/constants.rs:3-7 | a block begins with the letters PAB2, version 1 and no flags, and its descriptors follow the header |
| `BlockFormat.TagNumbers` | page/arrow_layout/src/types.rs:91-145 | the fourteen types have the numbers 1 to 14, in this order, both ways |
| `BlockFormat.SlotWidth` | page/arrow_layout/src/types.rs:157-173 | the bytes of a row of each type are the bits Arrow gives the type; a view takes sixteen bytes |
| `BlockFormat.BufferSizes` | page/arrow_layout/src/types.rs:175-192 | in every plan a column has one validity bit and the bits of its Arrow type a row, each buffer padded to the least multiple of 16, one behind the other |
| `BlockFormat.FrontBegins` | page/arrow_layout/src/constants.rs:9-14 | the front begins at the first offset behind header and descriptors that is 12 modulo 16 |
| `BlockFormat.FlagBits` | page/arrow_layout/src/types.rs:40-66 | a column flags nullable in bit 0 and views in bit 1 |
| `BlockFormat.RowBit` | page/arrow_layout/src/bitmap.rs:8-29 | the bit of row r in a bitmap is bit r modulo 8 of byte r / 8, least significant first |
| `BlockFormat.SlotAt` | page/arrow_layout/src/types.rs:157-173 | the slot of a row is at the row times the bytes of the Arrow type behind the start of the values |
| `BlockFormat.CellStands` | page/arrow_layout/src/access.rs:97-140 | a cell that reads back stands where Arrow has it: validity bit set exactly if it is not null, a boolean as its bit, a number or id as its bytes in the slot of its row, a short value in its slot behind its length, a long one in the tail with length, prefix, buffer 0 and offset in its slot |
| `BlockFormat.InlineBytes` | page/arrow_layout/src/raw.rs:115-128 | a short value stands in its slot behind its length |
| `BlockFormat.OutlineBytes` | page/arrow_layout/src/raw.rs:130-149 | a long value has in its slot its length, its first four bytes, buffer 0 and its offset |
| `RowCells.OthersRead` | page/row_encoder/src/encoder.rs:677-766 | writing one cell leaves every other cell reading as it did |
| `RowCells.CellPlaces` | page/row_encoder/src/encoder.rs:677-766 | every bit and slot of a cell lies inside its own column's buffers |
| `RowEncoder.Encoder.constructor` | page/row_encoder/src/encoder.rs:152-165 | an encoder on a block that opens starts with nothing committed |
| `RowEncoder.Encoder.WriteCell` | page/row_encoder/src/encoder.rs:368-445 | a cell is written so that it reads back and nothing else changes, or does not fit and nothing changes, or fails as its type and null rules say and touches at most itself and the free tail |
| `RowEncoder.Encoder.WriteNull` | page/row_encoder/src/encoder.rs:577-615 | a null reads back as null and is counted, or its bit and slot are written and the count overflows |
| `RowEncoder.Encoder.WriteLong` | page/row_encoder/src/encoder.rs:527-559 | a long value lands in the tail and its view leads to it, or its offset is beyond 31 bits and only tail and bit are written |
| `RowEncoder.Encoder.RollbackRow` | page/row_encoder/src/encoder.rs:561-575 | the cells already written of a row that does not fit are undone, null counts included |
| `RowEncoder.Encoder.AppendRow` | page/row_encoder/src/encoder.rs:191-225 | the outcome is decided by the cells and the room left; an appended row is committed and takes exactly its long cells from the tail, a row that does not fit changes nothing committed, and a failed row leaves the committed rows readable with exactly the nulls before the failing column counted too many; which cells have the right type, and where they stand, is in `BlockFormat` |
| `BlockFormat.CellTypes` | page/row_encoder/src/encoder.rs:368-445 | a cell passes the type check exactly if it is of the kind of the column and, for numbers and ids, has the bytes of the Arrow type; otherwise it is a type mismatch, or an invalid id width |
| `BlockFormat.NumberWritten` | page/row_encoder/src/encoder.rs:368-445 | a number is written exactly if it has as many bits as Arrow gives its type, and is a type mismatch otherwise |
| `BlockFormat.NumberRow` | page/row_encoder/src/encoder.rs:191-225 | so is a row of one number appended or refused |
| `RowEncoder.StopsWith` | page/row_encoder/src/encoder.rs:191-225 | the first cell that is not written decides the outcome of its row, with the tail where the long cells before it leave it |
| `RowEncoder.TailOverflowsExactly` | page/row_encoder/src/encoder.rs:655-669 | a row overflows the tail exactly if its first cell not written is longer than what the cells before it leave below the cursor |
| `RowEncoder.CommitOk` | page/row_encoder/src/encoder.rs:212-225 | committing a fully written row keeps every committed cell reading back, long payloads pairwise apart inside the tail, and null counts exact |
| `RowEncoder.RolledBack` | page/row_encoder/src/encoder.rs:203-211 | an undone row leaves the block as committed as before |
| `RowEncoder.Encoder.Finish` | page/row_encoder/src/encoder.rs:357-366 | the finished block reopens with every committed row in it |
| `RowEncoder.FinishOk` | page/row_encoder/src/encoder.rs:357-366 | writing the header back makes the block one that `open` accepts |
| `RowEncoder.ValidateViewTail` | page/import/src/lib.rs:454-482 | the importer's view check passes exactly when every view of the column lies in the allocated tail |
| `RowEncoder.ImporterAcceptsNulls` | page/import/src/lib.rs:267-323 | the importer accepts the null count of a column of a block written from the start exactly if the block began with none and no failed row left one |
| `RowEncoder.ImporterAcceptsViews` | page/import/src/lib.rs:454-482 | every view of a finished block passes the importer's check |
| `RowEncoder.ImportableExactly` | page/import/src/lib.rs:267-323 | a block written from the start passes both checks in every column exactly if no failed row left a null counted |
| `RowEncoder.FailedRowImports` | page/import/src/lib.rs:267-323 | a block finished after a failed row passes exactly if no null came before the failing column |
| `RowEncoder.FinishAfterFailure` | page/row_encoder/src/encoder.rs:191-225 | a row of two nulls, the second in a column that has none, fails, and the finished page, empty as it is, does not pass the importer |
| `RowEstimator.StartMonotone` | page/row_estimator/src/lib.rs:360-378 | more rows never need less front room, which the binary search needs |
| `RowEstimator.ComputeFixedRowCap` | page/row_estimator/src/lib.rs:360-378 | succeeds exactly when an empty plan fits, eight rows a byte fit 32 bits and the plan for four rows a byte is computable; then the cap is the greatest row count whose plan fits, and each failure has its error |
| `RowEstimator.FittingShapeRefused` | page/row_estimator/src/lib.rs:360-378 | a 64 MiB block of one string column has room for a row and is refused |
| `RowEstimator.CeilDivAtMost` | page/row_estimator/src/lib.rs:380-388 | rounding up stays within a bound exactly when the product does |
| `RowEstimator.Estimator.EstimateRows` | page/row_estimator/src/lib.rs:180-230 | the estimate is the greatest row count within the current cap whose expected tail fits, or one, where the tail expected is the initial one a row or, once pages were seen, their tail over their rows; it reports the cap and that tail; it fails exactly when the search for that count visits a product beyond 64 bits, and never before the first observation |
| `RowEstimator.OverflowBounds` | page/row_estimator/src/lib.rs:180-230 | nothing overflows if the product for the cap does not, and it fails if that for half the cap does |
| `RowEstimator.BestIsUnique` | page/row_estimator/src/lib.rs:180-230 | the greatest row count that fits is determined by the ratio and the cap |
| `RowEstimator.Estimator.ObserveEmptyFullPage` | page/row_estimator/src/lib.rs:278-300 | the cap becomes half the attempted rows, rounded up, which is strictly less, or stays where an earlier retry left it if that is less still; a single row, an attempt out of range and a layout without variable width are refused with their own errors |
| `RowEstimator.Estimator.ObservePage` | page/row_estimator/src/lib.rs:237-268 | totals grow by the page, and it is refused exactly for too many rows, too large a tail, or overflow, with totals as they were but for the rows added before the tail overflowed |
| `RowEstimator.Estimator.ObserveEncodedBlock` | page/row_estimator/src/lib.rs:303-337 | a block is taken exactly when it is valid, of this shape and the counters do not overflow; another block size, column count or column is refused as such; none is refused for its row count or its tail |
| `RowEstimator.BlockWithinCap` | page/row_estimator/src/lib.rs:303-337 | a block laid out in the block size never has more rows than the cap, nor a larger tail than its rows leave |
| `ColumnWrites.ReadsKept` | page/batch_encoder/src/encoder.rs:395-611 | writing a run of rows of one column leaves every other cell reading as it did |
| `ColumnWrites.SlotsWritten` | page/batch_encoder/src/encoder.rs:425-507 | one copy of a run of values puts each value in its row's slot |
| `BatchEncoder.FillBitsTrue` | page/batch_encoder/src/encoder.rs:715-742 | exactly the requested bits are set and no other byte changes |
| `BatchEncoder.RowsAreColumns` | page/batch_encoder/src/encoder.rs:355-393 | tail bytes added up row by row equal those added up column by column |
| `BatchEncoder.Encoder.RowTailNeed` | page/batch_encoder/src/encoder.rs:380-393 | the tail bytes of a row over all columns, which fails exactly when they exceed 32 bits |
| `BatchEncoder.Encoder.RowsThatFit` | page/batch_encoder/src/encoder.rs:355-378 | the longest prefix of rows whose tail bytes fit; it fails exactly when the first row that does not fit exceeds 32 bits |
| `BatchEncoder.Encoder.WriteViewValue` | page/batch_encoder/src/encoder.rs:613-654 | a value reads back through its slot, or fails with each error exactly in its case, full included, with nothing but the reserved tail changed |
| `BatchEncoder.Encoder.CopyValidity` | page/batch_encoder/src/encoder.rs:578-611 | the validity bits of the run are those of the column, and the nulls are counted |
| `BatchEncoder.Encoder.WriteColumns` | page/batch_encoder/src/encoder.rs:162-333 | the columns written one after the other take the tail planned for the rows, and stop only for a view beyond 31 bits or a null count beyond 32 |
| `BatchEncoder.Commits` | page/batch_encoder/src/encoder.rs:335-342 | with every column in place and counted, raising the row count commits the rows: all cells read back, long payloads apart, null counts exact |
| `BatchEncoder.GivesUp` | page/batch_encoder/src/encoder.rs:162-333 | a batch given up leaves the committed rows readable, with the nulls of the columns already counted |
| `BatchEncoder.Encoder.AppendBatch` | page/batch_encoder/src/encoder.rs:107-342 | the longest prefix that fits is committed and every cell of it reads back; when it succeeds, and each error, is stated exactly, and `UnexpectedFull` is never reached though planning goes by rows and writing by columns |
| `BatchEncoder.Encoder.Finish` | page/batch_encoder/src/encoder.rs:344-353 | the finished block opens with every committed row in it |
| `PageSource.Source.constructor` | pg/backend_service/src/source.rs:58-95 | a new source has emitted nothing and owes nothing |
| `PageSource.Source.Offer` | pg/backend_service/src/source.rs:227-235 | what becomes of a row on a page is a function of the rows on it, its size and the row; an appended row is on the page, and a page that is full has not changed |
| `PageSource.Source.Take` | pg/backend_service/src/source.rs:365-394 | a row is filtered out, or goes to the page, waits or fails exactly as the page's own rows and size decide; a failure leaves what was emitted as it was and is that of the first row due which the page does not take; the over-budget error cannot arise |
| `PageSource.Source.Drain` | pg/slot_scan/src/run.rs:439-519 | a drain consumes rows in order up to its budget and reports the end only when no row is left |
| `PageSource.Source.Begin` | pg/backend_service/src/source.rs:135-172 | a fresh page of the attempted size, which fails only if the payload is too small, or there are no columns and the block is smaller than its front |
| `PageSource.Source.OfferPending` | pg/backend_service/src/source.rs:599-623 | the waiting row goes on the new page first, or the page is retried with fewer rows |
| `PageSource.Source.Finish` | pg/backend_service/src/source.rs:187-206 | a finished page reads back exactly the rows put on it, with no null counted beyond theirs; the only failure is that this page overflows the estimator's counters |
| `PageSource.Source.Retry` | pg/backend_service/src/source.rs:333-344 | a retry lowers the cap below the attempt, and only an attempt of one row gives up |
| `PageSource.FixedNeverFull` | pg/backend_service/src/source.rs:378-384 | without variable-width columns no row is turned away for room |
| `PageSource.BlankRefuses` | pg/backend_service/src/source.rs:264-272 | a row that a blank page of one slot turns away is turned away by a blank page of any size |
| `PageSource.FullGrows` | page/row_encoder/src/encoder.rs:655-669 | less room below the tail never lets a row through that was turned away |
| `PageSource.TurnedAwayExactly` | page/row_encoder/src/encoder.rs:655-669 | a row is turned away by a page exactly if its slots are used up or the first cell not written would reach below the pool base, and is taken exactly if every cell is written |
| `PageSource.TakesReach` | pg/backend_service/src/source.rs:188-222 | the rows a page has taken one by one are the first of those due, as many as the page's reach |
| `PageSource.Source.FillPage` | pg/backend_service/src/source.rs:135-303 | one round at a given size: the page holds exactly as many of the rows due as it takes one by one, and closes only because no row is left or the next one is turned away; or the first row is turned away and the cap is halved; or the scan is over; or the call fails with nothing emitted, for a row exactly the first one not taken |
| `PageSource.Source.FillNextPage` | pg/backend_service/src/source.rs:130-306 | the size settled on, the rows of the page and the outcome are functions of the rows due, the expected tail and the cap; pages returned so far plus the waiting row are the filtered consumed rows in order, none lost or repeated; a call that gets to its rows fails for a row exactly if the first row its page does not take fails there, and gives up exactly if the first row due fits no page; a failed call emits nothing; every page passes the importer's checks; at EOF every filtered row has been emitted; the retries end |
| `PageSource.Source.FailsExactly` | pg/backend_service/src/source.rs:227-235 | a call that gets to its rows fails with a row error exactly if the first row due that the page does not take has that error on it |
| `PageSource.Source.OverflowsExactly` | page/row_encoder/src/encoder.rs:655-669 | it fails with the tail overflowed exactly if, of that row, the first cell not written is longer than what the rows of the page and the row's earlier cells leave below the tail |
| `PageSource.Source.GivesUpExactly` | page/row_estimator/src/lib.rs:278-300 | it gives up with a single row exactly if the first row due does not fit a page of its own |
| `PageSource.ScanTwoRows` | pg/backend_service/src/source.rs:130-306 | a scan of two rows, each of which fits a page of its own, whose first call fails with the tail overflowed |
| `PageSource.TwoRowScan` | page/row_encoder/src/encoder.rs:655-669 | on any page of two slots or more with room for the first of them, the first is taken and the second fails |
| `PageSource.PageImports` | page/import/src/lib.rs:267-482 | every emitted page passes the importer's null and view checks in every column |
| `PageSource.FailsForACell` | page/row_encoder/src/encoder.rs:368-445 | a row fails on a page exactly if the page has a slot left and the first cell not written is at fault: a null that is not allowed, a wrong type or width, a length beyond 31 bits, a length beyond what the page's rows and the row's earlier cells leave below the tail, or an offset beyond 31 bits; the null count never overflows |
| `PageSource.Source.ScanComplete` | pg/backend_service/src/source.rs:281-299 | at the end of the scan the pages hold every row that passes the filters, in order |
| `MsgPack.ReadWritten` | page/plan_codec/src/lib.rs:2014-2157 | lengths, integers and flags read back and leave what follows alone |
| `MsgPack.ReadStable` | page/plan_codec/src/lib.rs:2176-2187 | a read that succeeded or failed does so however many bytes follow |
| `PlanFormat.AtomBytes` | page/plan_codec/src/lib.rs:2014-2157 | lengths are written in their shortest MessagePack form and integers in their full one, marker by marker |
| `PlanFormat.BeDigit` | page/plan_codec/src/lib.rs:2014-2157 | the bytes behind a marker have the most significant digit first |
| `PlanFormat.EnvelopeHead` | page/plan_codec/src/lib.rs:312-386 | every envelope begins with the bytes of an array of four, PFPL and version 1, and the count of its specs |
| `PlanFormat.BarePlan` | page/plan_codec/src/lib.rs:312-386 | an envelope without specs, byte by byte |
| `PlanGrammar.AtomExactly` | page/plan_codec/src/lib.rs:2014-2157 | a number is read exactly from its MessagePack forms, shortest or wider; a first byte of no form is a type mismatch, and anything shorter is waited for |
| `PlanWire.SpecWritten` | page/plan_codec/src/lib.rs:1584-1627 | every scan spec that is written is read back field by field, unless a text is not UTF-8, an embedded message is malformed or too short, or the rebuilt spec is rejected, each with its outcome |
| `PlanWire.ReadableExactly` | page/plan_codec/src/lib.rs:1584-1627 | a written spec is read back exactly if its texts, messages and the rebuilt spec are accepted |
| `PlanGrammar.SpecExactly` | page/plan_codec/src/lib.rs:1599-1627 | a spec is read from a buffer exactly if its items stand there one after the other, an array of six, version 1, the ids, and relation, scan, hints and schema in order with their array lengths, its texts and messages decode and it is accepted |
| `PlanGrammar.CompiledReads` | page/plan_codec/src/lib.rs:1668-1701 | the same for the compiled scan: an array of eleven, its text, limits, four column lists, filters, expressions and flags in order |
| `PlanGrammar.SpecSpelt` | page/plan_codec/src/lib.rs:1584-1597 | a spec is written as the same items in order, each in its shortest form |
| `PlanGrammar.SpecErrors` | page/plan_codec/src/lib.rs:1599-1627 | another array length, another version, and contents that are all there and not accepted have each their own error |
| `PlanWire.SpecStable` | page/plan_codec/src/lib.rs:2176-2187 | more bytes never change the verdict on a spec |
| `PlanWire.UnderflowWaits` | page/plan_codec/src/lib.rs:2189-2207 | a complete message whose decoding underflows is waited on whatever follows |
| `PlanTree.CollectOk` | page/plan_codec/src/lib.rs:937-953 | the table keeps the first spec of every id of the plan and nothing else |
| `PlanTree.RoundTripsExactly` | page/plan_codec/src/lib.rs:937-953 | stripping a plan to ids and rebuilding it gives the same plan exactly when equal ids carry equal specs |
| `PlanTree.CollectsFirst` | page/plan_codec/src/lib.rs:937-953 | the table has for every id the first spec with it on a walk through the plan |
| `PlanTree.ComesBackFirst` | page/plan_codec/src/lib.rs:1347-1384 | so whatever the plan, it comes back with its shape and with that spec in each of its scans |
| `PlanTree.ConflictLosesSpec` | page/plan_codec/src/lib.rs:937-953 | two scans of one id with different specs come back as two scans of the first |
| `PlanTree.NoOrphans` | page/plan_codec/src/lib.rs:955-989 | the table of a plan has exactly the ids the plan uses |
| `PlanBuffers.CountPieces` | page/plan_codec/src/lib.rs:2215-2259 | the counting sink measures the item, however it is cut up |
| `PlanBuffers.OverlapSink.Observe` | page/plan_codec/src/lib.rs:2284-2306 | of everything put in, exactly the bytes from `skip` on that fit the window land in the output |
| `PlanBuffers.EncodeRange` | page/plan_codec/src/lib.rs:356-386 | re-encoding an item gives its bytes from the offset on, as many as fit |
| `PlanBuffers.SegmentedSource.Chunk` | page/plan_codec/src/lib.rs:2383-2390 | the bytes at hand are a prefix of what is left, and none only at the end |
| `PlanBuffers.SegmentedSource.Advance` | page/plan_codec/src/lib.rs:2392-2408 | advancing drops exactly that many bytes across segments |
| `PlanBuffers.SegmentedSource.ReadAll` | page/plan_codec/src/lib.rs:2360-2409 | the segments read as their concatenation |
| `PlanEncoder.EncodeSession.EnsureReady` | page/plan_codec/src/lib.rs:282-354 | the next item is at hand, or its length cannot be written because the envelope is too large |
| `PlanEncoder.EncodeSession.FinishItem` | page/plan_codec/src/lib.rs:388-421 | every transition taken is in the flow table and leads to the next item |
| `PlanEncoder.EncodeSession.WriteChunk` | page/plan_codec/src/lib.rs:220-280 | a chunk gets the next bytes of the envelope and is full unless it is the last; a failed session stays failed |
| `PlanEncoder.EncodeChunks` | page/plan_codec/src/lib.rs:220-310 | over output chunks of any sizes the chunks concatenate to the one-shot bytes and every chunk but the last is full; only an oversized envelope fails |
| `PlanDecoder.StepStable` | page/plan_codec/src/lib.rs:562-752 | what a stage decided on the bytes at hand it decides the same with more bytes |
| `PlanDecoder.FeedSplit` | page/plan_codec/src/lib.rs:520-752 | bytes in two chunks lead where the same bytes in one chunk lead |
| `PlanDecoder.BrokenStays` | page/plan_codec/src/lib.rs:520-542 | nothing that follows refused bytes is accepted |
| `PlanSession.DecodeSession.BufferChunk` | page/plan_codec/src/lib.rs:761-808 | a chunk goes behind everything buffered, in order, across the control buffer and the payload segments |
| `PlanSession.DecodeSession.DriveDecode` | page/plan_codec/src/lib.rs:562-752 | the loop comes to where the bytes lead, and every transition it takes is in the flow table; where they lead is in `PlanAccepts` |
| `PlanSession.DecodeSession.PushChunk` | page/plan_codec/src/lib.rs:520-538 | the answer is the verdict on all bytes so far and never a plan; failed and finished sessions stay so |
| `PlanSession.DecodeSession.FinishInput` | page/plan_codec/src/lib.rs:544-560 | the plan if the input is a whole envelope and the reason otherwise, as `PlanAccepts.VerdictIsParse` tells them; afterwards the session is finished or failed |
| `PlanSession.DecodeChunks` | page/plan_codec/src/lib.rs:520-560 | the verdict on a stream does not depend on how it is cut into chunks |
| `PlanAccepts.VerdictIsParse` | page/plan_codec/src/lib.rs:562-752 | the verdict on a stream is that of reading it front to back as an array of four, PFPL, version 1, the specs and the plan; each thing that can be wrong has its own error, and the first one counts |
| `PlanAccepts.AcceptsExactly` | page/plan_codec/src/lib.rs:562-752 | a stream is accepted as a plan exactly if it is an array of four, PFPL, version 1, a count, that many specs with distinct ids, and a payload that ends it and rebuilds the plan from exactly those specs |
| `PlanAccepts.UsedWithin` | page/plan_codec/src/lib.rs:955-992 | a rebuilt plan names no id outside its table, so accepted means that the ids are the same on both sides |
| `PlanAccepts.Decode` | page/plan_codec/src/lib.rs:520-560 | a decoding session given any chunks ends with exactly that |
| `PlanRoundTrip.EnvelopeDecodes` | page/plan_codec/src/lib.rs:562-752 | from every encoded envelope the decoder recovers the same spec table and payload |
| `PlanRoundTrip.PlanRoundTrips` | page/plan_codec/src/lib.rs:176-862 | every encoded plan is accepted, and comes back the same exactly when equal scan ids carry equal specs |
| `PlanStreams.SpecWaits` | page/plan_codec/src/lib.rs:2189-2207 | a spec is waited for, whatever bytes follow, exactly if its first undecodable message underflows |
| `PlanStreams.WaitsForever` | page/plan_codec/src/lib.rs:562-752 | a stream with such a spec leaves the decoder at that spec whatever follows, and its verdict is `UnexpectedEof` |
| `PlanStreams.SpecsDecide` | page/plan_codec/src/lib.rs:562-752 | from any spec on, one of the rest underflows or the stream ends accepted or refused for another reason |
| `PlanStreams.WaitsExactly` | page/plan_codec/src/lib.rs:520-752 | a complete envelope, whatever follows it, has the verdict `UnexpectedEof` exactly if the first spec in it that is not accepted underflows |
| `PlanStreams.WholeButWaiting` | page/plan_codec/src/lib.rs:2189-2207 | an envelope of one spec whose schema message is too short is complete and has the verdict `UnexpectedEof` |
| `PlanStreams.PrefixWaits` | page/plan_codec/src/lib.rs:520-538 | no prefix of such a stream is refused |
| `PlanStreams.PushUnderflow` | page/plan_codec/src/lib.rs:520-560 | a session given such a stream in any chunks asks for more after each and reports `UnexpectedEof` at the end |
| `PlanStreams.Trip` | page/plan_codec/src/lib.rs:176-862 | a plan written into chunks of any sizes, cut anew in any way and read back is accepted, and is the same plan exactly when equal scan ids carried equal specs |

## Left out

- PageHandoff.StepIsSound: the page and permit pools are sets whose acquire and release are one step each. The page pool is proved step by step in `PagePool`; the permit pool (page/issuance/src/pool.rs) has no generations and releases by bare id, and is modelled only by this set. Transfer ids at the end of 64 bits are excluded.
- HandoffRuns.Reaches: holds of runs in which the pool takes back every rejected page, for the reason given above.
- PageHandoff.OutboundStep: a frame is on the carrier and marked sent, or neither; an outbound page that is dropped after its frame was delivered, against what `mark_sent` asks of its caller, is not a step.
- TreiberStack.StepRefines: assumes fewer than 2^32 head changes between a load and its exchange, because the tag has 32 bits.
- JoinOptimizer.Optimize: costs are reals, so rounding, NaN and the wall-clock timeout are not modelled.
- PlanEncoder.EncodeSession.WriteChunk: the session starts from specs whose lists and texts have at most 2^32 - 1 elements, as `PlanEncodeSession::new` otherwise refuses them before a session exists.
- PlanRoundTrip.PlanRoundTrips: protobuf payloads are opaque byte strings with an abstract decoder; that decoding an encoded skeleton gives the skeleton back is its hypothesis.
- BatchEncoder.Encoder.AppendBatch: a record batch is its columns of values and validity bits with what Arrow guarantees of them; `set_bits` of the Arrow crate is taken to set the destination bits to the source's, as documented. The comparison of schema, plan and block in `new` is left out.
- JoinOptimizer.RootIsOptimal: the condition is sufficient; which other problems are solved optimally is not characterised.
- RowEstimator.ComputeFixedRowCap: the empty column list, which `new` refuses before, is excluded.
- PageSource.Source.FillNextPage: the scan session is the sequence of rows it will deliver, the runtime filters are a predicate on position and row, and slots and heap tuples are rows of cells.
- `append_fixed_width_row`, and the single-column fast path of `append_row`: the same writes for fixed-width columns.
- Weak memory orderings, raw pointers, region layout, attach and magic checks: accesses are sequentially consistent.
- `TreiberStack::reset_empty`: a plain load and store that is meaningful only when nothing else runs.
- Metrics counters, pool id generation, logging and EXPLAIN output.
- The importer beyond its null count and view tail checks, and schema comparison.
- The fixed-size frame codecs, the plan flow and the backend service state machine: they would add easy members only.
- DataFusion, Arrow and PostgreSQL themselves.
