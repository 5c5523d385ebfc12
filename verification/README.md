# The meerdag consensus engine, modelled and proved in Dafny

`meerdag` keeps a DAG of blocks and turns it into one order. Every block has one or more
parents. The *bluest* parent (most blue blocks behind it, then priority, then hash) is its main parent;
what the other parents bring in is its *diff-anticone*, which the block colours blue or red and puts in
order. The bluest tip is the main tip, and the order of the whole DAG is

    Order(b) = Order(main parent of b) + ordered diff-anticone of b + [b]

The program never computes this recursion. It updates order numbers, a main chain, a set of unordered
blocks, tips and database buckets in place, block by block, with reorganisations, snapshots, rollback,
commit, pruning of old tips and reloading. This project models those steps, branch by branch, and proves
that what they leave behind is exactly what the recursion says, over every run.

`dafny verify dfyconfig.toml` checks everything.

## How the model is built

* `Dag`, `Blue`, `DiffOrder`, `Spec` define the DAG as a value (`Graph`: a map from id to record), pasts
  (`Cone`), main-parent chains, the comparison of blocks, the order inside a diff-anticone as a
  depth-first post-order, colours, and `Order`. `Wf(g, k)` says that every record is what its parents
  determine.
* `Precedence` and `Meaning` say what these definitions amount to: who stands before whom in a diff-anticone,
  layers and heights as lengths of paths, main parents and main tips by the fields that are compared.
* `DiffAnticone`, `Anticone`, `Colour`, `Checks` hold the graph algorithms of the program as methods with
  loops, proved against those definitions.
* `State` says what memory (`Mem`) and buckets (`Db`) have to be: `MemOk`, `DbOk`.
* `Transitions`, `Reorg`, `EditScript`, `Phantom`, `Persist`, `MeerDag` are adding, reorganising,
  committing, taking back, pruning and loading. The class `MeerDag.MeerDag` owns the fields that the
  program changes; its methods assign to them what methods on records of values compute. Its invariants
  (`Stored`, `Pending`) are kept closed by a small device explained in `MeerDag.dfy`, so that methods which
  only pass a state on do not unfold it; the lemmas `SoundIs`, `AheadIs`, `GrownIs`, `TrimmedIs`, `LeanIs` and
  `BlockChain.RunningIs` say that each closed predicate is equivalent to what is inside.
* `BlockChain` is the way of a block through a node, and whole runs of arrivals, additions that are taken
  back, and restarts.
* `StaleTip` and `Unclear` hold the states that show where the program falls short (see below).
* `Convergence` compares two nodes; `Relay` and `RelayNodes` are about blocks passed from one node to another;
  `CacheOfRuns` ties the cache to the states of runs; `Queries`, `Sync`, `Cache`, `Codec` are blue and mature checks,
  synchronisation, the block cache and the bytes of a block record, whose positions are in `Layout`; `Payout` is the independent generator
  of genesis payouts.

Ids grow with arrival and stay below the 32-bit "no block" mark. A hash is a number that identifies a
block; a block's priority is given with it. Where the program enumerates a Go map, the model picks an
arbitrary element, so that every result holds for every enumeration.

## What is proved

1. **Runs.** For every sequence of events after the first block, `BlockChain.Run` yields a trace in which every
   event does what it should: an arriving block is taken up iff it meets the rules, and then the block is added
   and exactly the hopeless blocks are pruned; an addition that is taken back and a restart leave the state as it
   was. At every point memory is consistent, the buckets hold it, no tip is discardable, replaying the reported
   old and new lists from the empty order gives the order, and the blocks are those taken up but for those
   pruned. `BlockChain.RunReadsOrder` and `BlockChain.RunReadsAll` say what that means for a reader of the order
   index: numbers `0..order of the main tip` are a bijection with the closed past of the main tip, agree with the
   number stored in each block, and put parents first. `State.StateIsDetermined` adds that nothing else is left
   to chance: the blocks determine the state. Runs construct these states, so the invariants are not empty.
2. **Convergence.** Two nodes with the same blocks agree on main tip, main parents, layers, heights, blue
   numbers, colours, order numbers and the order, told by hashes (`Convergence`); so do two runs that took up
   the same blocks and pruned none (`BlockChain.RunsAgree`, `BlockChain.RunsAgreeOnBlock`). What one node takes
   up, every node that has the block's past and not the block takes up too (`RelayNodes.TakenEverywhere`), and
   so the blocks of a synchronisation batch are taken up one after the other (`RelayNodes.BatchIsTaken`).
3. **Searches are exact.** The layer-bounded searches for diff-anticones and anticones, the bounded walk of
   the parent test, the colouring rule, the blue query from any fork and the maturity query with its
   shortcuts return exactly the plain reachability notions.
4. **Undo and persistence.** Adding and rolling back restores the whole state; a commit makes the buckets
   equal to memory; pruning removes exactly the blocks that have fallen behind together with everything built on
   them, in whatever order it goes about it, and never one near the main tip in id or height; loading gives the
   state back.
5. **What the fields mean.** Main parents and main tips are maximal by blue number, priority and hash; a block
   is blue iff its chain meets the shortest admissible beginning of the main parent's chain; layers and heights
   are lengths of paths; and the numbers in a diff-anticone put main parents first, blue before red and the bluer
   before the less blue, wherever the parents do not reach each other (`Meaning`, `Colour.BlueIff`).

### Where the program does less than it seems to promise

* `getDiffAnticone` is exact if and only if no other parent lies in the past of the main parent
  (`DiffAnticone.SearchIsExactIff`), and adding keeps the graph well formed exactly then (`Colour.MakeNode`). The
  four tests of `isDAG` do not ensure this, because the last one looks at the first listed parent only:
  `Checks.TestsAloneDoNotSuffice` gives, for every two blocks of a chain that are neither adjacent nor too far
  apart, a list that passes. When such a block becomes the main tip on top of the old one, the parent in question
  gets a second number and its old index entry stays, so that the index lists it twice (`Unclear.NumberedTwice`).
  Blocks that come through `maybeAcceptBlock` must name the main parent first (core/blockchain/validate.go:582-584),
  and then the condition holds (`Checks.BluestFirstSuffices`, `BlockChain.CheckedIsProper`). So `AddBlock` has the
  condition as a precondition and a run has none. The path with `BFFastAdd` skips that check
  (core/blockchain/process.go:180-193).
* `Phantom.Load` reads the unordered blocks before it prunes tips, and then looks all of them up. It
  therefore succeeds if and only if nothing is left to prune (`Persist.Load`). Every commit ends in such a
  state, but with a smaller pruning limit at the next start loading can fail: `StaleTip.LoadCanFail` gives a
  consistent state and its buckets for every limit. The failure has pruned the buckets, and they then hold a
  state from which the next attempt succeeds.
* Genesis payouts of a kind other than the three known ones are kept by the import and by the slicing and then
  never paid, and neither are negative amounts that are to be spread over days. An address is paid all it was
  given if and only if such payouts of its add up to nothing (`Payout.GeneratePayouts`,
  `Payout.UnknownKindIsLost`).
* The slicing of an amount above the unit ends if and only if the unit is positive, and the spreading of a
  positive amount over days if and only if the daily quota is (`Payout.SlicingEndsIff`,
  `Payout.SpreadingEndsIff`). `Payout.GeneratePayouts` asks for no more than that.
* The order index keeps entries above the order of a tip that became shorter, so that agreement is stated up to that order.

## Model

| member | source | states |
|---|---|---|
| Blue.LessIsBluerReversed | meerdag/phantomblockslice.go:15-28 | the comparison used for sorting and the one used for choosing the main chain are the same order, reversed |
| Blue.GetBluest | meerdag/phantom.go:99-122 | whatever the enumeration, the block found has the largest blue number of the set, among those the highest priority, among those the smallest hash |
| Blue.SortedByFields | meerdag/phantomblockslice.go:15-28 | along a sorted list blue numbers never rise, among equal ones priorities never rise, among equal ones hashes rise |
| Blue.SortPriorityList | meerdag/idset.go:178-195 | the sorted list is the one list with these members in which every block is bluer than the later ones |
| Blue.SortedUnique | meerdag/phantomblockslice.go:15-28 | there is only one sorted list, so neither the sorting algorithm nor the enumeration shows |
| DiffOrder.SortBlocks | meerdag/phantom.go:237-263 | everything asked for that is in the diff-anticone is listed once: main parent first, no red block before a blue one, within a colour the bluer first |
| Precedence.ParentsInOrder | meerdag/phantom.go:204-263 | two other parents, the later of which no other parent reaches, stand in the order: blue before red, then the bluer first |
| Precedence.InnerParentsInOrder | meerdag/phantom.go:221-231 | so do the parents of a block inside the diff-anticone, its main parent before all others |
| DiffOrder.GetDiffAnticoneOrder | meerdag/phantom.go:204-235 | the work list with re-pushed blocks terminates and yields the depth-first post-order |
| DiffOrder.DiffSeqIsTopologicalPermutation | meerdag/phantom.go:204-235 | that order lists all that the search found, each block once and after its parents |
| DiffOrder.UpdateBlockOrder | meerdag/phantom.go:183-202 | every blue or red block gets its position, counted from 1 |
| Spec.OrderIsCone | meerdag/phantom.go:376-410 | the recursive order of a block lists its closed past without repetition and ends with the block |
| Spec.OrderIsTopological | meerdag/phantom.go:204-235 | in the order of a block every parent stands before its child |
| Spec.OrderPrefix | meerdag/phantom.go:376-381 | the order of a block begins with the order of every block of its main-parent chain |
| Spec.ConeSplit | meerdag/meerdag.go:699-780 | a closed past is the main parent's closed past, the diff-anticone and the block, without overlap |
| Meaning.ConeIsReach | meerdag/bluematurity.go:191-216 | a closed past is what paths from block to parent lead to |
| Meaning.LayerIsLongestPath | meerdag/meerdag.go:377-393 | the layer is the length of the longest path down to block 0 |
| Meaning.HeightIsChainLength | meerdag/phantom.go:73-93 | the height is the number of steps along main parents down to block 0 |
| Meaning.MainParentIsTop | meerdag/phantom.go:99-122 | no parent has a larger blue number than the main parent, none with the same one a higher priority, none with both equal a smaller hash |
| Meaning.MainTipIsTop | meerdag/phantom.go:331-339 | in every consistent state the same holds of the main tip among all blocks |
| Meaning.OtherParentsAreNumbered | meerdag/phantom.go:204-263 | of two parents that no other parent reaches the blue one is numbered before the red one, and of one colour the bluer one first |
| Meaning.InnerParentsAreNumbered | meerdag/phantom.go:221-231 | of two parents of a block inside the diff-anticone its main parent is numbered first, then the blue one, then the bluer one |
| Meaning.OrdersFollowNumbers | meerdag/phantom.go:387-405 | for every main-chain block the order number of a block of its diff-anticone is that of its main parent plus the number given to the block |
| DiffAnticone.GetTreeTips | meerdag/meerdag.go:626-697 | one sweep over the shadow tree finds its bare ends and marks only blocks of the main parent's closed past as known |
| DiffAnticone.GetDiffAnticone | meerdag/meerdag.go:699-780 | the search terminates and returns the past minus the closed past of the main parent, plus the other parents |
| DiffAnticone.SearchIsExactIff | meerdag/meerdag.go:699-780 | the result is exactly the past minus the closed past of the main parent iff no other parent is in the main parent's past |
| Anticone.FutureSet | meerdag/meerdag.go:453-465 | the recursion over children finds exactly the blocks that reach the given one |
| Anticone.GetAnticone | meerdag/meerdag.go:559-613 | exactly the blocks that are neither the block nor in its past nor in its future, for every order of visiting; block 0 is never expanded |
| Colour.KSegmentIsShortest | meerdag/phantom.go:139-156 | the K-chain is the shortest beginning of the main-parent chain that may end |
| Colour.KChainIs | meerdag/phantom.go:139-156 | the K-chain of a block is the shortest beginning of its main parent's chain that ends with block 0 or has, with the block itself, more than 20 blocks and more than K blue ones |
| Colour.BlueIff | meerdag/phantom.go:124-181 | a block of the diff-anticone is blue iff its main-parent chain meets that beginning |
| Colour.GetKChain | meerdag/phantom.go:139-156 | the loop collects the block and the beginning of that length, and its lowest layer |
| Colour.ColoringRule | meerdag/phantom.go:166-181 | true exactly when the main-parent chain meets the given blocks at or above the layer |
| Colour.MeetsIsBlueFor | meerdag/phantom.go:166-181 | stopping at the lowest layer of the K-chain loses no blue block, also when the asking block has id 0 |
| Colour.CalculateBlueSet | meerdag/phantom.go:124-137 | a block is blue iff its main-parent chain meets the K-chain, otherwise red |
| Colour.BlueNumCounts | meerdag/phantom.go:73-93 | the blue number is the size of the cumulative blue past, which lies in the closed past |
| Colour.MakeNode | meerdag/phantom.go:56-93 | for every parent list: main parent by blue number, priority and hash, layer, height, colours, blue number and numbering of what the search finds; the graph stays well formed iff no other parent is in the main parent's past |
| Colour.GetBlues | meerdag/phantom.go:655-682 | the blue number an added block with these parents gets; 0 for no or unknown parents |
| Checks.CheckPriority | meerdag/meerdag.go:924-935 | priority positive and at least the number of parents with a priority of at most 1 |
| Checks.CheckLayerGap | meerdag/meerdag.go:826-860 | no two parents are further apart than the gap |
| Checks.CheckLegality | meerdag/meerdag.go:887-921 | no parent is parent or child of another one |
| Checks.IsDag | meerdag/phantom.go:725-769 | the bounded walk accepts iff no other parent is in the past of the first one |
| Checks.BluestFirstSuffices | meerdag/meerdag.go:503-518 | with the bluest parent first, passing the test means that no parent is in the main parent's past |
| Checks.TestsAloneDoNotSuffice | meerdag/meerdag.go:426-434 | a family of parent lists that pass all tests although a parent lies in the main parent's past |
| State.MainTipFacts | meerdag/phantom.go:278-329 | the main tip is a tip, its anticone is the set of unordered blocks, and its number is the last one |
| State.UnorderedIffOutside | meerdag/phantom.go:466-478 | a block is unordered iff it is in the diff-anticone of the main tip; otherwise its number is its position |
| State.IndexReadsOrder | meerdag/blocktransf.go:143-164 | reading the index up to the tip's number yields the recursive order, agreeing with block numbers, parents first |
| State.EveryBlockIsRead | meerdag/blocktransf.go:143-164 | every block of the main tip's closed past is read exactly once, at its own number |
| State.StateIsDetermined | meerdag/meerdag.go:316-412 | the blocks determine children, tips, main tip, numbers and unordered blocks |
| Transitions.UpdateTips | meerdag/tips.go:113-130 | tips that became parents go, a childless block comes |
| Transitions.Insert | meerdag/meerdag.go:354-400 | after linking the block, tips are again exactly the childless blocks and children match parents |
| Transitions.BluestTip | meerdag/phantom.go:331-339 | the bluest tip is the old main tip or the new block, and it is the bluest of all blocks |
| Reorg.GetIntersectionPath | meerdag/phantom.go:341-358 | the walk meets the main chain (never "can't find intersection") and returns the new branch above it |
| Reorg.RollBackMainChain | meerdag/phantom.go:360-374 | exactly the old branch above the intersection is marked for removal |
| Reorg.ChainSwap | meerdag/phantom.go:341-374 | taking out the old branch and putting in the new one gives the main-parent chain of the new tip |
| Reorg.UpdateMainOrder | meerdag/phantom.go:376-410 | every block between intersection and new tip gets its position in the recursive order; index, former numbers and pending blocks follow; nothing else changes |
| Reorg.OldOrders | meerdag/phantom.go:304-312 | the reported old entries are the end of the previous order; no number is missing in the index |
| Reorg.Reorganise | meerdag/phantom.go:298-329 | one reorganisation: numbers, main-chain marks, old entries and first changed block |
| EditScript.OptimizeReorganizeResult | meerdag/meerdag.go:1351-1380 | exactly the longest common beginning of both lists is dropped |
| EditScript.TrimKeepsScript | meerdag/meerdag.go:1351-1380 | the trimmed lists still lead from the old order to the new one |
| EditScript.ReplaySnoc | meerdag/phantom.go:56-66 | following all lists of a run rebuilds the order |
| Phantom.GetOrderChangeList | meerdag/phantom.go:514-542 | the new list is the order from the first changed block on |
| Phantom.PreUpdateVirtualBlock | meerdag/phantom.go:466-478 | everything outside the main tip's past becomes unordered; former numbers are saved |
| Phantom.Settle | meerdag/phantom.go:278-329 | after the main chain is updated the state is consistent, pending marks and index entries make up the difference, and the lists are a correct edit script |
| MeerDag.UndoIsExact | meerdag/meerdag.go:1272-1318 | removing the block, its links and the saved numbers gives back blocks, children and order numbers |
| MeerDag.Examine | meerdag/meerdag.go:325-351 | a block is taken up iff it is new, its parents are known and the four tests pass |
| MeerDag.Append | meerdag/meerdag.go:352-412 | adding a block with parents: consistent state, correct pending writes, exact way back, correct edit script |
| MeerDag.AppendGenesis | meerdag/phantom.go:288-296 | the first block starts main chain, order and index |
| MeerDag.WritePending | meerdag/meerdag.go:1153-1269 | writing only what is pending makes all buckets equal to memory |
| MeerDag.TakeBack | meerdag/meerdag.go:1272-1318 | rollback computes the state before the last block |
| MeerDag.MeerDag.constructor | meerdag/meerdag.go:231-291 | an empty DAG with empty buckets is consistent |
| MeerDag.MeerDag.AddBlock | meerdag/meerdag.go:316-412 | refused blocks change nothing; accepted ones leave a consistent state one block ahead of the buckets, an edit script and the way back |
| MeerDag.MeerDag.Commit | meerdag/meerdag.go:1153-1270 | afterwards the buckets hold memory, exactly the hopeless blocks are gone and the order is unchanged; every block near the main tip in id or height is kept, and every unordered childless block left is near; a second commit does nothing |
| MeerDag.MeerDag.Rollback | meerdag/meerdag.go:1272-1318 | fails for the first block and when nothing is pending; otherwise the previous state is back and the buckets hold it |
| MeerDag.MeerDag.Reload | meerdag/blockpersist.go:16-33 | loading gives the same memory except for the time, exactly when nothing is discardable; otherwise the buckets hold the pruned state and memory has part of its unordered blocks |
| Persist.CommitTips | meerdag/meerdag.go:1170-1194 | the tips bucket becomes the tip set, with the main flag at the main tip only |
| Persist.CommitSet | meerdag/meerdag.go:1196-1220 | the diff-anticone bucket becomes the set in memory |
| Persist.CommitIndex | meerdag/meerdag.go:1224-1240 | the index becomes the old one overridden by the pending entries |
| Persist.CommitBlocks | meerdag/meerdag.go:1242-1260 | if all changed blocks are pending, the block index holds all blocks as they are |
| Persist.CommitChain | meerdag/phantom.go:922-937 | the main-chain bucket follows the pending marks |
| Persist.GetDiscardedTips | meerdag/tips.go:200-223 | exactly the unordered tips whose id plus the limit is below that of the main tip and whose height is more than the limit below |
| Persist.RemoveTip | meerdag/tips.go:154-198 | removing an unordered tip keeps memory and buckets consistent and equal and the order unchanged |
| Persist.OptimizeTips | meerdag/tips.go:132-152 | pruning terminates; exactly the blocks that are discardable together with their whole future are gone, whatever the order of removal; blocks whose id or height is within the limit of the main tip stay, and so do ordered ones; order and main tip stay |
| Persist.LeanIsNear | meerdag/tips.go:132-152 | where nothing is left to prune, every unordered childless block is within the limit of the main tip in id or in height |
| Persist.LeanIffNothingGone | meerdag/tips.go:132-152 | pruning removes something iff some tip is discardable |
| Persist.DbGetDagTips | meerdag/dbhelper.go:192-219 | succeeds iff exactly one tip has the main flag, and puts it first |
| Persist.CheckMainChainDb | meerdag/phantom.go:806-825 | passes iff the main chain is marked down to the depth |
| Persist.CheckBlockOrderDb | meerdag/phantom.go:827-860 | passes iff all numbers below the tip's lead to blocks, down to the depth |
| Persist.Load | meerdag/phantom.go:603-653 | loading from the buckets of a consistent state gives that state back, exactly when nothing is discardable; after a failure the buckets hold the pruned state, which can be loaded |
| StaleTip.LoadCanFail | meerdag/phantom.go:641-653 | for every limit a consistent state with its buckets that loads under the next larger limit and not under this one |
| Unclear.NumberedTwice | meerdag/phantom.go:376-410 | a parent from below the main parent gets a second number and keeps its old index entry |
| BlockChain.MainParentIsFirst | core/blockchain/process.go:182-193 | passes iff all parents are known and the first one is the bluest |
| BlockChain.CheckedIsProper | core/blockchain/validate.go:577-584 | the check of the main parent is what adding relies on |
| BlockChain.MaybeAcceptBlock | core/blockchain/process.go:167-253 | accepted iff main parent first, outside rules passed and DAG tests passed (with the fast flag iff the DAG tests are passed, the caller vouching for the list); then the block has been added, the edit script is reported and hopeless blocks are pruned, else nothing changes |
| BlockChain.NewBlockStays | meerdag/tips.go:200-223 | the block just taken up is never pruned with the same commit |
| BlockChain.AddAndTakeBack | meerdag/meerdag.go:1272-1318 | an addition followed by a rollback leaves memory and buckets as they were |
| BlockChain.Step | core/blockchain/process.go:167-253 | one event does what it should (block taken up or refused, addition taken back, restart) and keeps the invariant of runs |
| BlockChain.Run | core/blockchain/process.go:167-253 | every run is a trace of such steps; at every point of it the state is consistent, stored and pruned, the reports rebuild the order, and the blocks are the accepted ones but for the pruned ones |
| BlockChain.RunningIs | core/blockchain/process.go:167-253 | what the invariant of runs says, written out |
| BlockChain.RunReadsOrder | meerdag/blocktransf.go:143-164 | at every point of a run the index yields the recursive order, which is what the reports add up to |
| BlockChain.RunReadsAll | meerdag/blocktransf.go:143-164 | at every point of a run every block of the main tip's past is read once |
| BlockChain.LostAreHopeless | meerdag/tips.go:132-152 | what a step loses are the hopeless blocks |
| BlockChain.RunSparesNear | meerdag/tips.go:200-223 | no step of a run loses a block near the main tip in id or height, and after it every unordered childless block is near |
| BlockChain.RunsAgree | meerdag/phantom.go:56-137 | two runs that took up the same blocks and pruned none agree on main tip and order by hash |
| BlockChain.RunsAgreeOnBlock | meerdag/phantom.go:56-137 | and on main parent, layer, height, blue number, diff-anticone, colours and order number of every block |
| Convergence.NodesAgree | meerdag/phantom.go:56-137 | two states with the same blocks have the same main tip and order by hash |
| Convergence.DerivedAgrees | meerdag/phantom.go:73-137 | they agree on main parent, layer, height, blue number, diff-anticone and colours of every block |
| Convergence.NumbersAgree | meerdag/phantom.go:376-410 | they agree on every order number and on which blocks are unordered |
| Convergence.OrderCorr | meerdag/phantom.go:204-263 | renaming ids commutes with the order of every block |
| Queries.GetMainFork | meerdag/meerdag.go:1071-1112 | the search without visited marks terminates; it finds a main-chain block above or below iff there is one |
| Queries.DoIsBlue | meerdag/phantom.go:694-722 | true iff the block is in the cumulative blue past of the main tip, from any fork; the missing fork is never hit |
| Queries.BlueAtFork | meerdag/phantom.go:694-722 | from any main-chain block above the asked one the answer is the same |
| Queries.Connected | meerdag/bluematurity.go:191-216 | the layer-bounded search succeeds iff the target is in the past of a view |
| Queries.ProcessMaturity | meerdag/bluematurity.go:144-217 | succeeds iff the layer distance is reached, the target is below the main chain and some view reaches it, whatever fork is reused |
| Queries.MatureFromTip | meerdag/bluematurity.go:220-281 | seen from the main tip alone, mature means the layer distance and being in its past |
| Queries.CheckBlueAndMature | meerdag/bluematurity.go:29-141 | the batch passes iff all blocks are known, views are above all targets, and every target is blue and mature |
| Queries.CheckMainBlueAndMature | meerdag/bluematurity.go:220-281 | passes iff the layer distance to the main tip is reached and the target is blue |
| Queries.StoredIsCommitted | meerdag/phantom.go:507-512 | a node between two blocks satisfies what the queries assume |
| Sync.WalkToMain | meerdag/dagsync.go:99-109 | finds the first block of the main-parent chain that is on the main chain |
| Sync.GetMainLocator | meerdag/dagsync.go:91-167 | terminates with at most 32 main-chain blocks of strictly growing id: the common block first, the newest ten (or all above it) last, and in between the blocks found by halving |
| Sync.Halves | meerdag/dagsync.go:128-158 | each block found is the first main-chain block in the upper half of the ids left above the one before, until the list is full or that half has none |
| Sync.FindPoint | meerdag/dagsync.go:42-73 | the last listed main-chain block; if none, where the first one meets the main chain; if unknown, block 0 |
| Sync.CalcSyncBlocks | meerdag/dagsync.go:42-87 | for a peer none of whose tips is known and ordered: the answer is the order after the point of the locator |
| Sync.GetBlockChainFromMain | meerdag/dagsync.go:169-183 | a batch is the order after the point: entry j has the number of the point plus j + 1, and it is as long as the limit and the rest of the order allow |
| Sync.BatchIsNext | meerdag/dagsync.go:169-183 | the same of the batch as a function of state, point and limit |
| Sync.BatchIsParentClosed | meerdag/dagsync.go:169-183 | whoever has the closed past of the point can add a batch one by one without a missing parent |
| Sync.BatchIsNew | meerdag/dagsync.go:169-183 | a batch repeats nothing, sends nothing below the point and is empty only at the main tip |
| Relay.PassesThere | meerdag/meerdag.go:426-434 | a parent list that passes all tests at one node passes at every node that has the parents and their pasts, whatever the ids |
| RelayNodes.TakesIsPasses | core/blockchain/process.go:180-205 | a block meets the rules iff it is new, its parents are known and its list passes |
| RelayNodes.TakenEverywhere | core/blockchain/process.go:180-205 | what one node takes up, every node with the block's past and without the block takes up |
| RelayNodes.TakenStillPasses | meerdag/meerdag.go:426-434 | the list of a block taken up passes in every later graph |
| RelayNodes.PastOfBatch | meerdag/dagsync.go:169-183 | the whole past of a block of a batch lies below the point or earlier in the batch |
| RelayNodes.BatchIsTaken | meerdag/dagsync.go:169-183 | a receiver with the closed past of the point and the earlier blocks of the batch takes up the next one |
| Cache.BlockCache.GetBlockById | meerdag/blocktransf.go:95-108 | looking up an id gives the logical block, whatever is loaded |
| Cache.BlockCache.LoadBlock | meerdag/blockpersist.go:144-182 | loading changes no logical block and connects exactly the loaded neighbours |
| Cache.BlockCache.UnloadBlock | meerdag/blockpersist.go:271-299 | evicting a written block changes no logical block and leaves no link to it |
| Cache.BlockCache.GetParents | meerdag/blockpersist.go:191-203 | all parents are loaded and attached afterwards |
| Cache.BlockCache.GetChildren | meerdag/blockpersist.go:212-224 | all children are loaded and attached afterwards |
| Cache.BlockCache.TakeUp | meerdag/meerdag.go:358-391 | a new block is a child of its parents; it and they are pending, and the cache shows the blocks with it |
| Cache.BlockCache.TakeBack | meerdag/meerdag.go:1276-1316 | rollback shows the blocks before the addition, with nothing pending |
| Cache.TakingBackUndoes | meerdag/meerdag.go:1276-1316 | taking back undoes taking up, whatever has been re-numbered in between |
| Cache.BlockCache.RemoveTip | meerdag/tips.go:154-198 | a removed tip is gone from memory and database, and its parents have lost it in both |
| Cache.BlockCache.TakeUpAndBack | meerdag/meerdag.go:1276-1316 | taking a block up, re-numbering any blocks and taking it back shows the blocks as before, with nothing pending |
| CacheOfRuns.RunIsShown | meerdag/blockpersist.go:144-182 | at every point of a run the block bucket holds the blocks of the state, whatever is loaded |
| CacheOfRuns.AheadIsHeld | meerdag/meerdag.go:358-391 | between adding and committing the blocks to be written are exactly the pending ones of the cache |
| CacheOfRuns.AddingIsTakingUp | meerdag/meerdag.go:358-391 | adding a block acts on the blocks as taking it up in the cache |
| CacheOfRuns.UndoneIsTakenBack | meerdag/meerdag.go:1276-1316 | rolling back acts on the blocks as taking back in the cache |
| CacheOfRuns.PrunedIsReduced | meerdag/tips.go:154-198 | pruning a tip acts on the blocks as removing it in the cache |
| Cache.BlockCache.UpdateBlockCache | meerdag/blockpersist.go:238-269 | eviction keeps tips, block 0, the main tip and all pending blocks, and changes no logical block; if the others are no more than are too many, exactly the old ones go, otherwise as many as are too many but for young ones |
| Cache.ChooseOld | meerdag/blockpersist.go:243-262 | as many candidates as blocks are too many are looked at, in any order, and the old ones among them chosen |
| Cache.BlockCache.SetOrder | meerdag/phantom.go:381-385 | a changed block is pending, so that it stays in memory until it is written |
| Cache.BlockCache.Write | meerdag/meerdag.go:1242-1260 | after writing, the stored blocks are the logical ones |
| Cache.LinksAreMutual | meerdag/block.go:447-497 | attached parents and children are symmetric and loaded |
| Cache.CommittedIsLogical | meerdag/meerdag.go:1242-1260 | the block index of a consistent state is what the cache assumes |
| Codec.Encode | meerdag/block.go:248-316 | writes a record, the sets in any order of enumeration |
| Codec.Decode | meerdag/pantomblock.go:88-149 | reads back every storable record, for every enumeration of its sets and whatever follows; the hash of what is read stands in bytes 4 to 36 |
| Codec.WriteAndRead | meerdag/dbhelper.go:35-61 | putting a record and getting it gives the record and leaves no byte |
| Codec.RoundTrip | meerdag/pantomblock.go:32-149 | reading gives back every record whose numbers fit their fields, for every enumeration, and leaves the rest of the data |
| Codec.HashIsSliced | meerdag/dbhelper.go:70-83 | in everything that can be read as a record, bytes 4 to 36 are its hash |
| Layout.NumberStands | core/serialization/elements.go:200-201 | a 32-bit number is stored in four bytes, the lowest first |
| Layout.HeadLayout | meerdag/block.go:248-288 | id at 0, hash at 4, number of parents at 36, then the parents, number of children and children |
| Layout.FixedLayout | meerdag/block.go:289-316 | behind them main parent, weight in eight bytes, order, layer, height and one byte of status |
| Layout.BlueLayout | meerdag/pantomblock.go:32-61 | behind them blue number, number of blue blocks, and each of them with its number |
| Layout.RedLayout | meerdag/pantomblock.go:62-84 | and in the end the red blocks likewise |
| Payout.SliceAll | ledger/ledgerpayout.go:70-98 | the loop terminates and yields the slices, numbered from 0 |
| Payout.SlicesAre | ledger/ledgerpayout.go:74-95 | free, height-locked and small payouts stay whole; of others all slices but the last are one unit and the last is the positive rest |
| Payout.SlicingConserves | ledger/ledgerpayout.go:70-98 | slicing keeps what every address is given, for payouts of every kind |
| Payout.RandShuffle | ledger/ledgerpayout.go:217-227 | the picked position is below the given one |
| Payout.RandShuffleReads | ledger/ledgerpayout.go:217-227 | it is the number in eight seed bytes, lowest first, from the given position (modulo 24 above 24, 1 instead of 0) on, modulo the position |
| Payout.GenesisShuffle | ledger/ledgerpayout.go:207-215 | the array is shuffled in place by swaps from the end |
| Payout.PickedAt | ledger/ledgerpayout.go:207-215 | the swap at a position puts the picked entry there for good |
| Payout.FromIsCycle | ledger/ledgerpayout.go:207-215 | the shuffle is a single cycle of all positions |
| Payout.ShuffleDisplacesAll | ledger/ledgerpayout.go:207-227 | it is a permutation, and of two or more entries none stays in place |
| Payout.Spread | ledger/ledgerpayout.go:297-320 | one amount is spread over days in positive lines of its holder: the loop terminates after the rounds of `SpreadOff`, nothing is lost, each day is filled to the quota before the next |
| Payout.Schedule | ledger/ledgerpayout.go:269-326 | every address is paid what paying payouts give: free payouts in lines at height 0, payouts with a height of their own in lines with that height, the others in lines spread over days; every lock height but the last holds exactly the quota |
| Payout.SlicingEndsIff | ledger/ledgerpayout.go:75-95 | slicing an amount above the unit ends iff the unit is positive |
| Payout.SpreadingEndsIff | ledger/ledgerpayout.go:297-317 | spreading a positive amount ends iff the quota is positive |
| Payout.GivenInAnyOrder | ledger/ledgerpayout.go:269-275 | the order of the keys does not change what is given |
| Payout.GeneratePayouts | ledger/ledgerpayout.go:53-68 | every address is paid what paying payouts give it, kind by kind and height by height, which is all it was given iff its other payouts add up to nothing; the sum check passes iff the expected sum is that of the paying ones |
| Payout.UnknownKindIsLost | ledger/ledgerpayout.go:269-319 | a payout of another kind, or a negative one to be spread, survives the slicing and is never paid |

## Left out

- UpdateVirtualBlockOrder and the virtual block: re-number unordered blocks for display only and are not part of a run of additions and commits.
- Blocks as shared mutable objects: records of values and maps from id to value stand for them; the links between loaded parents and children are modelled in `Cache` only, and `CacheOfRuns` relates its steps to those of runs.
- Cache eviction inside runs: `Cache` shows that lookups do not depend on it, and runs look blocks up in full maps.
- Queries.View: main-chain membership is read at committed points; a pending removal that falls through to the bucket is not visible there.
- MeerDag.Append: assumes that no other parent lies in the past of the bluest one; what the state becomes otherwise is stated for the record (`Colour.MakeNode`) and for the numbering (`Unclear.NumberedTwice`) only.
- MeerDag.MeerDag.AddBlock: assumes that no other parent lies in the past of the bluest one, as the check of the main parent in `BlockChain.MaybeAcceptBlock` guarantees, and that the number of blocks stays below the 32-bit mark.
- BlockChain.MaybeAcceptBlock: on the path that skips the context check (`BFFastAdd`) the caller has to vouch that no other parent lies in the past of the bluest one, and runs do not take that path; connecting transactions is not modelled, and all other rules are the parameter `valid`.
- Persist.Load: block total, time and consensus parameters are parameters; the genesis hash comparison is not modelled.
- Database errors, locks, goroutines, logging, weights and block status.
- Block data: a block's priority is part of its record, while the program reads it from the block data each time; timestamps are integers.
- Pruning limits below zero: `SetTipsDisLimit` accepts them, the model takes a natural number.
- Queries.CheckBlueAndMature: the multithreaded branch is never enabled by its callers and is not modelled.
- Sync.CalcSyncBlocks: the answer for a peer one of whose tips is known and ordered (`locateBlocksFuzzy`) is not modelled, and neither are direct mode, `locateBlocks` and graph states.
- RelayNodes.BatchIsTaken: speaks of one block at a time; a receiver that prunes blocks of the batch in between no longer has what it needs.
- Codec.RoundTrip: fields wider than 32 bits (64 for the weight, 8 for the status) are cut off when written, and are excluded.
- Payout.GeneratePayouts: addresses and scripts, import with floating-point shares, the seed hash and 64-bit overflow are not modelled; the step between lock heights is positive.
- `conflux`, `spectre` and `ghostdag`, which are other consensus engines.
