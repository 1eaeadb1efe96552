# A verified model of the node's core algorithms

Dafny models of ten self-contained algorithms of a Bitcoin-style node, with proofs of what their
source promises. `dafny verify dfyconfig.toml` checks the whole project.

- **Cluster linearization** (`src/cluster_linearize.h`, `src/util/feefrac.*`). The spanning-forest state
  as a class whose methods update chunks, top sets and reachable sets in place; the invariant it keeps; the
  effect of every step on the feerate diagram; optimality and minimality at the end; the emitted order;
  chunking and diagram comparison; the linked-list post-linearization and all four of its guarantees.
  "At least as good" is stated as a surplus, the sum over chunks of the positive part of fee − λ·size, that
  is nowhere smaller, and proved to be the same as a piecewise linear diagram that is nowhere lower.
- **UTXO cache stack** (`src/coins.*`, `src/txdb.cpp`). Caches with DIRTY and FRESH flags over a database
  behave, over whole runs, like one map from outpoints to coins.
- **Address manager** (`src/addrman.cpp`). Five cross-linked structures stay consistent over whole runs;
  the invariant is proved to be what the built-in check tests, together with what that check takes for granted.
- **Limb arithmetic and targets** (`src/arith_uint256.*`). Multiplication, division and shifts for every
  width, the compact format, and the proof of work of a target.
- **Block index and active chain** (`src/chain.*`). Skip pointers and the number of steps they save, last common
  ancestors, tips, forks, locators.
- **Partial Merkle trees** (`src/merkleblock.*`). Building and extracting are inverse exactly when they can
  be; whatever is extracted under the right root is real, or the data itself exhibits a hash collision.
- **Check queue** (`src/checkqueue.h`). All interleavings of a master and any number of workers: exact
  results, no deadlock, and a bound on the steps to completion.
- **Headers sync** (`src/headerssync.*`). The two-phase download as a class with the histories of both phases.
- **Cuckoo cache** (`src/cuckoocache.h`) and **Base58** (`src/base58.cpp`).

Fees, sizes, counters and work are unbounded integers unless a module says otherwise. Random choices are
left open: a statement about a method holds whatever is drawn. Hashes are arbitrary functions. Clocks are
parameters.

## Model

| member | source | states |
|---|---|---|
| `FeeFracs.CompareExact` | src/util/feefrac.h:158-162 | Cross-multiplication orders the feerates of all admitted pairs, and finds the empty pair equal to everything. |
| `DepGraphs.GetReducedParents` | src/cluster_linearize.h:210-230 | Whatever the order of iteration, exactly the maximal proper ancestors remain. |
| `DepGraphs.ReducedSuffices` | src/cluster_linearize.h:202-230 | A set of transactions is closed under the reduced parents if and only if it is closed under all ancestors. |
| `Linearizing.TopologicalIsLinearization` | src/cluster_linearize.h:202-230 | An order respects the reduced parents if and only if it respects all ancestors. |
| `Activation.ActivatedValid` | src/cluster_linearize.h:817-886 | Activating a dependency between two chunks keeps the whole forest invariant: partition, trees, top sets, sums, reachable sets, indices. |
| `Activation.ActivatedChunks` | src/cluster_linearize.h:817-886 | It merges exactly those two chunks. |
| `Deactivation.DeactivatedValid` | src/cluster_linearize.h:890-945 | Deactivating a dependency keeps the whole invariant. |
| `Deactivation.DeactivatedChunks` | src/cluster_linearize.h:890-945 | It splits exactly one chunk, into the top set and the rest. |
| `ForestFacts.ChunkDependencyCount` | src/cluster_linearize.h:1633-1755 | A chunk of n transactions has exactly n − 1 active dependencies. |
| `ForestFacts.TopSetExact` | src/cluster_linearize.h:1633-1755 | A top set is exactly the component of the parent once its dependency is removed, and the rest that of the child. |
| `SpanningForest.SpanningForestState.constructor` | src/cluster_linearize.h:1176-1211 | Builds a valid state of singleton chunks for the reduced dependencies of the graph. |
| `SpanningForest.SpanningForestState.Activate` | src/cluster_linearize.h:817-886 | The incremental update of chunk indices, top sets, feerates and reachable sets in place is the activation of the forest. |
| `SpanningForest.SpanningForestState.Deactivate` | src/cluster_linearize.h:890-945 | The incremental update in place is the deactivation of the forest, reusing the set index of the top. |
| `SpanningForest.SpanningForestState.MergeChunks` | src/cluster_linearize.h:949-988 | Whichever dependency is drawn, exactly the two chunks are merged and the state stays valid. |
| `SpanningForest.SpanningForestState.PickMergeCandidate` | src/cluster_linearize.h:1002-1049 | Finds a lowest-feerate parent not above the chunk (upward), a highest-feerate child not below it (downward), or none exists. |
| `SpanningForest.SpanningForestState.MergeStep` | src/cluster_linearize.h:1052-1060 | Merges with such a chunk, or leaves the state alone because there is none. |
| `SpanningForest.SpanningForestState.MergeSequence` | src/cluster_linearize.h:1063-1078 | Ends with nothing left to merge in its direction, touching only chunks it absorbs, and queues the result. |
| `Improving.ImprovedTopological` | src/cluster_linearize.h:1081-1113 | After a split, one upward and one downward merge sequence leave the chunks topological. |
| `Improving.ImprovedStrictly` | src/cluster_linearize.h:648-650 | A step without self-merge strictly improves the diagram. |
| `SpanningForest.SpanningForestState.Improve` | src/cluster_linearize.h:1081-1113 | Splitting any dependency with a higher-feerate top keeps the state valid and topological, and the diagram gets no worse; strictly better unless the chunks are the same. |
| `SpanningForest.SpanningForestState.PickChunkToOptimize` | src/cluster_linearize.h:1116-1136 | Whatever swap is drawn, drops only stale indices, and returns none only when every chunk is known to be optimal. |
| `SpanningForest.SpanningForestState.PickDependencyToSplit` | src/cluster_linearize.h:1140-1171 | Finds a dependency whose top set has a higher feerate than the chunk, or none exists. |
| `SpanningForest.SpanningForestState.StartOptimizing` | src/cluster_linearize.h:1298-1313 | Queues every chunk, in any order. |
| `SpanningForest.SpanningForestState.OptimizeStep` | src/cluster_linearize.h:1316-1332 | The diagram gets no worse; once it returns false no active dependency anywhere has a top set of higher feerate. |
| `Optimality.TreeLocallyOptimal` | src/cluster_linearize.h:596-605 | A chunk whose tree has no higher-feerate top set has no closed part of higher feerate. |
| `Optimality.ClosedSetUnderDiagram` | src/cluster_linearize.h:596-605 | At every reference feerate no ancestor-closed set weighs more than the surplus of such chunks. |
| `SpanningForest.SpanningForestState.MakeTopological` | src/cluster_linearize.h:1228-1295 | For every drawn order and direction it terminates in a topological state, and leaves a topological one as it is. |
| `Loading.LoadStep` | src/cluster_linearize.h:1214-1225 | Adding the next transaction of a valid order by upward merges keeps the loaded part topological and its diagram no worse. |
| `SpanningForest.SpanningForestState.LoadLinearization` | src/cluster_linearize.h:1214-1225 | A valid order, loaded by upward merges alone, gives a topological state whose diagram is at least as good as the order. |
| `SpanningForest.SpanningForestState.StartMinimizing` | src/cluster_linearize.h:1336-1353 | Sets every chunk up with a pivot and a direction, in any order. |
| `SpanningForest.SpanningForestState.MinimizeStep` | src/cluster_linearize.h:1356-1446 | Keeps the diagram exactly and all chunks optimal; once it returns false no chunk can be split into parts of its own feerate. |
| `SpanningForest.SpanningForestState.GetLinearization` | src/cluster_linearize.h:1464-1604 | From any state with an acyclic chunk graph: every transaction once, parents first, each chunk contiguous, best-ready first; and if no dependency leads to a lower feerate, at least as good as the diagram of the chunks. |
| `ForestOutput.ListingUnique` | src/cluster_linearize.h:1448-1463 | The output is determined by the chunks and the fallback order, whatever led to them. |
| `SpanningForest.SpanningForestState.GetDiagram` | src/cluster_linearize.h:1606-1627 | Lists the feerates of the chunks by non-increasing feerate. |
| `Linearizing.DiagramOfState` | src/cluster_linearize.h:1606-1616 | The emitted order is at least as good as GetDiagram; once all chunks are optimal, GetDiagram is at least as good as every topological order. |
| `Linearizing.DiagramOfStep` | src/cluster_linearize.h:564-626 | Between two states, surplus order is diagram order, both ways. |
| `Linearizing.Linearize` | src/cluster_linearize.h:1782-1840 | The result is topological; at least as good as a topological old order; when flagged optimal, as good as every topological order, in chunks that cannot be split, which are the chunks of its diagram. |
| `Linearizing.PriorTooGood` | src/cluster_linearize.h:1782-1803 | An old order that is not topological can be better than every topological one: there the documented guarantee fails. |
| `Chunkings.ChunkLinearization` | src/cluster_linearize.h:445-463 | Computes the chunking of the fees of an order. |
| `Chunkings.ChunkLinearizationInfo` | src/cluster_linearize.h:426-444 | The same chunks with their transactions: consecutive pieces of the order. |
| `Chunkings.ChunkingExact` | src/cluster_linearize.h:426-463 | The chunking has the same total, non-increasing feerates, and at every reference feerate the same best prefix weight as the transactions. |
| `Chunkings.ChunkingLeast` | src/cluster_linearize.h:426-463 | It is the lowest concave diagram above the transactions. |
| `Chunkings.ChunkingOrder` | src/cluster_linearize.h:426-463 | Comparing diagrams of chunkings is comparing the transactions at every reference feerate, both ways. |
| `Chunkings.ChunkingOfGroups` | src/cluster_linearize.h:426-463 | Groups none of whose beginnings beat them, by non-increasing feerate, are the chunks. |
| `ChunkDiagrams.GoodIsDominates` | src/cluster_linearize.h:564-626 | Surplus nowhere smaller if and only if diagram nowhere lower. |
| `ChunkDiagrams.LinearizationDiagram` | src/cluster_linearize.h:1606-1616 | An order that reaches the surplus of the chunks dominates their diagram, and is dominated by it if it lies under it. |
| `Diagrams.DominatesIffNoWorse` | src/util/feefrac.h:227-234 | Domination of a concave diagram is domination of corners at every reference feerate, both ways. |
| `Diagrams.CompareChunks` | src/util/feefrac.cpp:12-73 | For any sized chunks, concave or not and with any totals: greater or unordered if and only if the first diagram is above the second somewhere, less or unordered if and only if the second is above the first. |
| `Diagrams.ComparedDominates` | src/util/feefrac.cpp:12-73 | The result decides domination, both ways. |
| `PostPass.PassImproves` | src/cluster_linearize.h:1952-2018 | A pass rearranges into connected groups of non-increasing feerate, without loss, and is no worse at every reference feerate. |
| `PostTheorems.PostImproves` | src/cluster_linearize.h:1842-1850 | Both passes: the result is topological and at least as good as the input. |
| `PostTheorems.PostConnected` | src/cluster_linearize.h:1842-1857 | The chunks of the result are connected. |
| `PostTheorems.PostOptimal` | src/cluster_linearize.h:1842-1857 | Where every transaction has at most one child, or every one at most one parent, the result is as good as every topological order. |
| `PostMoved.MovedLeaf` | src/cluster_linearize.h:1842-1857 | Replacing a leaf by one of the same size and no lower fee, moved to the end and post-linearized, gives a diagram nowhere lower. |
| `PostLinearizing.CycleStep` | src/cluster_linearize.h:1979-2016 | One merge or swap on the linked entries is one step of the insertion on the list of groups. |
| `PostLinearizing.InsertTransaction` | src/cluster_linearize.h:1959-2018 | Appending an entry and running the cycle represents the insertion of the transaction. |
| `PostLinearizing.RunPass` | src/cluster_linearize.h:1952-2040 | A pass over the array, forward or fee-negated backward, terminates and writes the result of the pass in place. |
| `PostLinearizing.PostLinearize` | src/cluster_linearize.h:1859-2040 | The array ends as a topological permutation, at least as good; optimal on tree-shaped clusters. |
| `Coins.AddedOk` | src/coins.cpp:68-98 | The entry AddCoin leaves keeps the promises of its flags if and only if an overwrite was announced or the view has no such coin. |
| `Coins.BatchOneView` | src/coins.cpp:178-238 | Writing one dirty entry through changes the parent view by exactly that coin, never raises the logic error, and keeps flags, counts and usage exact. |
| `Coins.StoredView` | src/coins.cpp:68-98 | Storing an entry changes one key of the view and keeps list, dirty count and usage exact. |
| `Coins.ErasedView` | src/coins.cpp:121-143 | Erasing an entry uncovers the base, which has nothing for a fresh one and the same for a clean one. |
| `Coins.NoUnderflow` | src/coins.cpp:68-143 | No counter is ever decremented below zero. |
| `CoinsStack.BatchWrite` | src/coins.cpp:178-238 | After all flagged entries of the child the parent shows what the child showed; the cursor unflags or erases them one by one, or leaves them to be wiped. |
| `CoinsStack.WriteDatabase` | src/txdb.cpp:107-159 | The database becomes the view of the cache. |
| `CoinsStack.CoinsViewStack.Push` | src/coins.cpp:31-36 | A new cache on top changes no view. |
| `CoinsStack.CoinsViewStack.PeekCoin` | src/coins.cpp:23-29 | Finds the coin of the view without filling any cache. |
| `CoinsStack.CoinsViewStack.FetchCoin` | src/coins.cpp:42-60 | Fills caches on the way down and changes no view. |
| `CoinsStack.CoinsViewStack.GetCoin` | src/coins.cpp:62-66 | Returns the coin of the view, if any. |
| `CoinsStack.CoinsViewStack.HaveCoin` | src/coins.cpp:156-160 | Whether the view has the coin. |
| `CoinsStack.CoinsViewStack.AddCoin` | src/coins.cpp:68-98 | Refuses exactly an unannounced overwrite of a cached unspent coin; otherwise the new coin shows, and the stack stays consistent if and only if an overwrite was announced or the view has no such coin; at worst this one entry is wrong. |
| `CoinsStack.CoinsViewStack.SpendCoin` | src/coins.cpp:121-143 | Moves the coin out and removes one key of the top view, unless its entry was wrongly marked as fresh, when the coin below shows; either way that entry is right afterwards, and no view below changes. |
| `CoinsStack.CoinsViewStack.Uncache` | src/coins.cpp:271-284 | Drops the entry exactly if it is not dirty, and changes no view. |
| `CoinsStack.CoinsViewStack.SetBestBlock` | src/coins.cpp:173-176 | The best block seen at the top becomes the given one, or for a null hash the one seen below; no coin changes. |
| `CoinsStack.CoinsViewStack.GetBestBlock` | src/coins.cpp:167-171 | Returns the best block seen at the level and stores it in every cache asked on the way; no best block seen anywhere changes, and no coin. |
| `CoinsStack.CoinsViewStack.FlushOrSync` | src/coins.cpp:240-261 | The view below becomes the view of the cache, every other view stays, nothing is flagged any more. |
| `CoinsStack.CoinsViewStack.Run` | src/coins.cpp:23-284 | Any run of lookups, additions, spends, evictions, flushes, syncs and new layers: the top view is that of the same run on one plain map, and all flags, lists, counts and usages are exact. |
| `CoinsStack.SpentComesBack` | src/coins.h:115-118 | An unannounced overwrite of a coin only the base has, then a spend: the cache is exactly as before and the spent coin is back. |
| `CoinsStack.SpentComesBackRun` | src/coins.h:115-118 | Such a run on the stack, with what GetCoin returns after each operation: the old coin, the new one, after the spend the old one again, and so after the flush, in the database too. |
| `CoinsStack.FlushedBest` | src/coins.cpp:178-238 | A flush keeps the best block seen at its level if and only if the cache has one or the level below had none of its own. |
| `CoinsStack.NullBlockHides` | src/coins.cpp:167-238 | A cache without a best block, flushed into one with it, hides it. |
| `CoinsStack.AskedThenFlushed` | src/coins.cpp:167-238 | After GetBestBlock on the cache it cannot. |
| `FlaggedList.Links.constructor` | src/coins.h:156-164 | The sentinel alone is an empty list. |
| `FlaggedList.Links.Link` | src/coins.h:97-109 | Relinking four pointers appends the entry. |
| `FlaggedList.Links.Unlink` | src/coins.h:131-138 | Relinking two pointers removes exactly the entry. |
| `FlaggedList.Links.Walk` | src/coins.h:206-225 | Following the next pointers from the sentinel visits the list in order. |
| `AddrSteps.PutOk` | src/addrman.cpp:549-552 | Entering a new slot keeps the invariant: the reference count follows the number of slots. |
| `AddrSteps.ClearOk` | src/addrman.cpp:416-423 | So does leaving one. |
| `AddrSteps.TryOk` | src/addrman.cpp:481-487 | So does taking the tried slot. |
| `AddrSteps.UntryOk` | src/addrman.cpp:461-466 | So does giving it up. |
| `AddrSteps.CreateOk` | src/addrman.cpp:355-369 | So does a new entry, in all five structures and the counts. |
| `AddrSteps.RemoveOk` | src/addrman.cpp:404-410 | So does removing the entry that is last in the random order. |
| `AddrMan.AddrManImpl.constructor` | src/addrman.cpp:89-105 | The empty manager satisfies the invariant. |
| `AddrMan.AddrManImpl.SwapRandom` | src/addrman.cpp:371-393 | Two entries change places in the random order, and nothing else changes. |
| `AddrMan.AddrManImpl.Delete` | src/addrman.cpp:395-410 | Exactly the entry goes, from all structures; the others change at most their random position. |
| `AddrMan.AddrManImpl.ClearNew` | src/addrman.cpp:412-428 | Exactly the slot becomes empty; its entry goes if that was its last. |
| `AddrMan.AddrManImpl.MakeTried` | src/addrman.cpp:430-487 | The entry leaves every new slot and takes its tried slot; an entry evicted from there is in its own new slot afterwards; the asserted zero count holds. |
| `AddrMan.AddrManImpl.AddSingle` | src/addrman.cpp:489-563 | If it adds, the entry of the address is in the slot for this source; if not, the new table is unchanged and the address is known exactly if it was; an address that is not routable changes nothing. |
| `AddrMan.AddrManImpl.Add` | src/addrman.cpp:620-630 | Keeps everything over a list of addresses. |
| `AddrMan.AddrManImpl.Good` | src/addrman.cpp:565-618 | Moves to tried exactly a known entry that is not there yet, unless its slot is occupied and to be tested; then it is at most put on the waiting list. |
| `AddrMan.AddrManImpl.Attempt` | src/addrman.cpp:632-650 | Counts a failure at most once after the last success anywhere, and touches only this entry. |
| `AddrMan.AddrManImpl.Connected` | src/addrman.cpp:816-833 | Moves the time of this entry alone, if it is twenty minutes old. |
| `AddrMan.AddrManImpl.ResolveCollisions` | src/addrman.cpp:851-910 | In whatever order and at whatever times: keeps everything, waits for no new entry, and leaves no occupied tried slot empty. |
| `AddrMan.AddrManImpl.SelectTriedCollision` | src/addrman.cpp:912-938 | The slot it reads is occupied by a tried entry, so the entry it returns exists and nothing is added. |
| `AddrMan.AddrManImpl.GetAddr` | src/addrman.cpp:751-790 | Up to the limit, without repetition, only wanted entries; all wanted ones if it stays below the limit; entries change at most their random position. |
| `AddrMan.AddrManImpl.Size` | src/addrman.cpp:963-983 | The stored counters are the numbers of entries, by network and by table. |
| `AddrCheck.InvIffPasses` | src/addrman.cpp:1000-1103 | The invariant holds if and only if every test of CheckAddrman passes and what it takes for granted holds: no stale address, sound identifiers, no entry of a network without counts. |
| `AddrCheck.CountsEscape` | src/addrman.cpp:1091-1100 | With all entries in one network, zero counts for another network in place of its own: every test passes, and the invariant fails. |
| `AddrCheck.StaleAddressEscapes` | src/addrman.cpp:1000-1103 | The same with an address left over in the address map. |
| `AddrCheck.InvPasses` | src/addrman.cpp:1000-1103 | The invariant makes every test of CheckAddrman pass. |
| `AddrCheck.Apply` | src/addrman.cpp:355-938 | Every operation keeps the invariant, the addresses of identifiers, and occupied tried slots occupied. |
| `AddrCheck.Run` | src/addrman.cpp:355-938 | From an empty manager, after any sequence of operations with positive times, CheckAddrman passes. |
| `Limbs.AddAssign` | src/arith_uint256.h:117-127 | Addition modulo 2^BITS for every width, also onto itself. |
| `Limbs.Increment` | src/arith_uint256.h:155-162 | Adds one modulo 2^BITS. |
| `Limbs.Decrement` | src/arith_uint256.h:172-179 | Subtracts one modulo 2^BITS. |
| `Limbs.Negate` | src/arith_uint256.h:59-66 | The negative modulo 2^BITS. |
| `Limbs.SubAssign` | src/arith_uint256.h:129-133 | Subtraction modulo 2^BITS. |
| `Limbs.CompareTo` | src/arith_uint256.cpp:102-112 | The sign of the difference of the numbers. |
| `Limbs.Bits` | src/arith_uint256.cpp:156-169 | The number of bits of the number. |
| `LimbShifts.ShlAssign` | src/arith_uint256.cpp:14-29 | Multiplication by 2^shift modulo 2^BITS, for every shift. |
| `LimbShifts.ShrAssign` | src/arith_uint256.cpp:31-46 | Division by 2^shift, for every shift. |
| `LimbProducts.MulAssignLimb` | src/arith_uint256.cpp:48-58 | Multiplication by one limb modulo 2^BITS; nothing leaves 64 bits. |
| `LimbProducts.MulAssign` | src/arith_uint256.cpp:60-74 | Multiplication modulo 2^BITS for every width; nothing leaves 64 bits. |
| `LimbDivision.DivAssign` | src/arith_uint256.cpp:76-100 | Exact floor division for every width; refuses exactly a zero divisor, with the number already cleared. |
| `CompactBits.OverflowIff` | src/arith_uint256.cpp:189-192 | The overflow flag is set if and only if the number does not fit 256 bits. |
| `CompactBits.KeptBest` | src/arith_uint256.cpp:196-217 | The compact form keeps the largest number with a compact form that does not exceed the number. |
| `CompactBits.KeptError` | src/arith_uint256.cpp:196-217 | It never exceeds the number and is off by at most one part in 2^15. |
| `CompactBits.KeptFixed` | src/arith_uint256.cpp:196-217 | Encoding again what it keeps changes nothing. |
| `Targets.SetCompact` | src/arith_uint256.cpp:176-194 | Sets the expanded number cut to 256 bits, and both flags mean what they say. |
| `Targets.GetCompact` | src/arith_uint256.cpp:196-217 | Size, mantissa and sign of the compact form; both asserts hold. |
| `Targets.CompactRoundTrip` | src/arith_uint256.cpp:176-217 | Encoding and expanding gives the best representable number from below, and the same compact form again. |
| `Targets.GetBitsProof` | src/chain.cpp:117-131 | Exactly 2^256 / (target + 1) rounded down for every valid target, zero for the others. |
| `SkipHeights.LowestOne` | src/chain.cpp:69 | InvertLowestOne takes off exactly the power of two of which the number is an odd multiple. |
| `SkipHeights.StepsBound` | src/chain.cpp:71-103 | The walk between any two heights takes at most as many steps as the square of the number of low bits in which they differ, and so of the length of the upper one. |
| `SkipHeights.StepsFromPower` | src/chain.cpp:71-103 | From height 2^k to height 2 it takes at least k^2 / 4 steps. |
| `SkipHeights.NoLinearBound` | src/chain.cpp:71-103 | So no multiple of the length of the height bounds the steps. |
| `BlockTree.BlockIndex.AddBlock` | src/chain.cpp:110-114 | A new block with its skip pointer keeps the tree sound and all walks as they were. |
| `BlockTree.BlockIndex.GetAncestor` | src/chain.cpp:79-103 | The walk over skip pointers gives what walking back one by one gives, in at most as many steps as the square of the length of the height. |
| `BlockTree.BlockIndex.LastCommonAncestor` | src/chain.cpp:152-175 | The highest common ancestor, or none if there is none. |
| `Chain.ActiveChain.SetTip` | src/chain.cpp:16-24 | After any series of calls the chain is exactly the path to the tip. |
| `Chain.ActiveChain.FindFork` | src/chain.cpp:50-58 | The last common ancestor with the tip. |
| `Chain.ActiveChain.LocatorEntries` | src/chain.cpp:26-43 | Ancestors at the prescribed, exponentially growing steps down to height zero. |
| `Chain.FindEarliestAtLeast` | src/chain.cpp:60-66 | The first block of the chain that is late and high enough. |
| `Merkle.ExtractBuilt` | src/merkleblock.cpp:79-135 | Extraction undoes building, node by node; it finds the data bad if and only if a compared pair is of equal hashes. |
| `Merkle.ExtractSound` | src/merkleblock.cpp:98-135 | If the hash of a node comes out right, everything extracted below it is real, or the extraction passes a node where hashes other than the tree's combine to the same hash. |
| `Merkle.BuildSizes` | src/merkleblock.cpp:79-96 | At most one hash per transaction, and the exact number of bits. |
| `Merkle.BitBound` | src/merkleblock.h:48-54 | The bound of 2N − 1 bits holds if and only if no node with a single child has a match below it. |
| `Merkle.BitBoundExceeded` | src/merkleblock.h:48-54 | Three transactions with the last one matched exceed it. |
| `MerkleSizes.HashBound` | src/merkleblock.h:42-46 | At most 1 + matches · height hashes. |
| `MerkleSizes.SizeBoundIff` | src/merkleblock.h:37-54 | For every block within the limit on transactions: the documented bound on the serialized size holds if and only if the bits take at most 252 bytes, or the nodes with a single child are at most one and twice what N lacks to a multiple of four. |
| `MerkleSizes.SizeBoundHolds` | src/merkleblock.h:37-54 | Below any node it holds for up to 65535 hashes with at most one such node. |
| `MerkleSizes.SizeBoundExceeded` | src/merkleblock.h:37-54 | 1025 transactions, all matched, take one byte more. |
| `MerkleBlock.BitsToBytes` | src/merkleblock.cpp:13-21 | Bit p of the bytes is bit p, the padding is clear. |
| `MerkleBlock.BytesToBits` | src/merkleblock.cpp:23-29 | The bits of the bytes. |
| `MerkleBlock.SerializeBits` | src/merkleblock.cpp:13-29 | Packing and unpacking only pads. |
| `MerkleBlock.PartialMerkleTree.constructor` | src/merkleblock.cpp:137-149 | Holds exactly the bits and hashes of the traversal from the root. |
| `MerkleBlock.PartialMerkleTree.TraverseAndBuild` | src/merkleblock.cpp:79-96 | Appends the bits and hashes of the node. |
| `MerkleBlock.PartialMerkleTree.TraverseAndExtract` | src/merkleblock.cpp:98-135 | Hash, counters, matches and badness of the traversal. |
| `MerkleBlock.PartialMerkleTree.ExtractMatches` | src/merkleblock.cpp:153-184 | Root or zero, matches and indexes for any data, also for a tree never filled or found bad before. |
| `MerkleBlock.RoundTrip` | src/merkleblock.cpp:137-184 | Build, pack, unpack and extract return exactly the matched transactions with ascending indexes, and the root if and only if no compared pair is of equal hashes. |
| `MerkleBlock.DuplicateRefused` | src/merkleblock.cpp:122-128 | A transaction listed twice side by side: the block's own tree is refused. |
| `MerkleBlock.Soundness` | src/merkleblock.cpp:153-184 | For any bits and hashes: under the true root every extracted transaction is in the block at its index, or the data exhibits a collision at a node of the extraction. |
| `CheckQueue.StepKeeps` | src/checkqueue.h:55-116 | Every step of every thread keeps the invariant. |
| `CheckQueue.TodoExact` | src/checkqueue.h:45-46 | In every run the counter is the number of checks queued and in the hands of threads. |
| `CheckQueue.CompleteExact` | src/checkqueue.h:143-148 | Over all interleavings Complete returns nothing if and only if every check added since the last completion passes, otherwise the error of one that fails; the next round starts clean. |
| `CheckQueue.AccountedMid` | src/checkqueue.h:66-79 | An error left over from an earlier batch never leaks into a later round. |
| `CheckQueueProgress.NoDeadlock` | src/checkqueue.h:72-93 | In every run, as long as Complete has not returned, some thread is awake. |
| `CheckQueueProgress.AwakeSteps` | src/checkqueue.h:63-115 | An awake thread has a step of its own to take that is not an idle wake-up. |
| `CheckQueueProgress.CompleteEnds` | src/checkqueue.h:63-115 | Complete returns after at most as many steps, idle wake-ups aside, as there is left to do when it is called. |
| `CheckQueueProgress.CompletionReached` | src/checkqueue.h:63-115 | From every state of every run with Complete under way there is a way to its return without idle wake-ups, in at most one step more than there is left to do. |
| `HeadersSync.HeadersSyncState.constructor` | src/headerssync.cpp:17-38 | Starts in PRESYNC at the block to build on. |
| `HeadersSync.HeadersSyncState.ValidateAndProcessSingleHeader` | src/headerssync.cpp:148-177 | Takes a header exactly if its difficulty is permitted and the commitments stay within their limit; the bits are those of the headers at the committed heights. |
| `HeadersSync.HeadersSyncState.ValidateAndStoreHeadersCommitments` | src/headerssync.cpp:113-146 | Takes exactly a connecting batch whose headers are all permitted and within the limit; turns to REDOWNLOAD exactly when the work suffices. |
| `HeadersSync.HeadersSyncState.ValidateAndStoreRedownloadedHeader` | src/headerssync.cpp:179-236 | Takes exactly a header that connects, is permitted and, while the work does not suffice, has the bit recorded for its height. |
| `HeadersSync.HeadersSyncState.PopHeadersReadyForAcceptance` | src/headerssync.cpp:238-252 | Releases the next accepted headers with their original previous hashes, exactly as many as the buffer exceeds its limit by, or all once the work suffices. |
| `HeadersSync.HeadersSyncState.ProcessNextHeaders` | src/headerssync.cpp:56-111 | What is released, kept, requested and finalized, in every state and for every batch; released headers followed by the buffer are the accepted ones in order. |
| `HeadersSync.HeadersSyncState.Run` | src/headerssync.cpp:56-111 | Over any number of calls, what is returned is in order what has been released. |
| `HeadersSync.HeadersSyncState.NextHeadersRequestLocator` | src/headerssync.cpp:254-275 | Asks for what follows the last header taken in the current phase. |
| `HeadersSync.ReleasedJustified` | src/headerssync.h:94-99 | Every released header lies on a chain with enough work, or has at least one verified commitment on top for each full period of the buffer. |
| `HeadersSync.AcceptedDifficulties` | src/headerssync.cpp:193-205 | With room in the buffer, every accepted difficulty is a permitted change of the one before. |
| `HeadersSync.BufferlessRun` | src/headerssync.cpp:193-205 | With a buffer size of zero, a run that accepts a change that is not permitted. |
| `CollectionFlags.PackedFlags.constructor` | src/cuckoocache.h:64-86 | Room for all flags, all of them set. |
| `CollectionFlags.PackedFlags.BitSet` | src/cuckoocache.h:94-97 | Sets one flag and no other. |
| `CollectionFlags.PackedFlags.BitIsSet` | src/cuckoocache.h:115-118 | Reads one flag. |
| `CollectionFlags.PackedFlags.BitUnset` | src/cuckoocache.h:105-108 | Clears one flag and no other. |
| `CuckooSlots.KeptOnce` | src/cuckoocache.h:398-446 | No element is kept twice, and its kept slot is one of its own eight positions. |
| `CuckooSlots.PutProper` | src/cuckoocache.h:412-440 | Writing an element not kept into a position of its own, all earlier ones being kept, keeps this, even if positions coincide. |
| `CuckooCache.Cache.constructor` | src/cuckoocache.h:337-350 | An empty cache with the epoch size in 32-bit arithmetic. |
| `CuckooCache.Cache.EpochCheck` | src/cuckoocache.h:287-319 | Counts the current epoch exactly, ages both epochs when it is full, and resets the heuristic so that neither epoch outgrows its size by more than a sixteenth. |
| `CuckooCache.Cache.Insert` | src/cuckoocache.h:398-446 | After the epoch check, the kept elements with their epochs are those there were and the inserted one in the current epoch, or all of these but one. |
| `CuckooCache.Cache.Contains` | src/cuckoocache.h:475-485 | Finds every kept element; erasing lets exactly that element go. |
| `CuckooCache.EpochSizeIff` | src/cuckoocache.h:188-196 | The epoch size is 45 percent of the slots, as documented, if and only if that product fits 32 bits. |
| `CuckooCache.EpochSizeWraps` | src/cuckoocache.h:346 | With 95443718 slots an epoch is a single element. |
| `CuckooCache.NeverFull` | src/cuckoocache.h:186-196 | With more than twenty slots there is always a free one. |
| `CuckooCache.NextIndex` | src/cuckoocache.h:422-436 | The position after the last one used, going round. |
| `CuckooCache.MovesOnIff` | src/cuckoocache.h:422-436 | The rotation never returns to the slot just written if and only if no position is followed by itself where it first occurs. |
| `CuckooCache.RotationStays` | src/cuckoocache.h:422-436 | Two equal positions in a row: it does return. |
| `CuckooCache.SwapBack` | src/cuckoocache.h:422-440 | Then the element just put in is taken out again and the table is as it was. |
| `Base58.MulAdd` | src/base58.cpp:102-115 | The carry loop multiplies and adds in place, touching no more digits than needed; what is left over is the carry. |
| `Base58.EncodeFits` | src/base58.cpp:98-99 | n bytes always fit n · 138 / 100 + 1 base-58 digits. |
| `Base58.DecodeFits` | src/base58.cpp:53-54 | n base-58 digits always fit n · 733 / 1000 + 1 bytes. |
| `Base58.RebaseInverse` | src/base58.cpp:40-127 | Changing the base while keeping leading zeros is undone by changing it back. |
| `Base58Coders.EncodeBase58` | src/base58.cpp:89-127 | Computes the change of base, spelled out; the assert holds. |
| `Base58Coders.DecodeBase58` | src/base58.cpp:40-87 | For any text and any limit: exactly the digits between surrounding white space, or refusal; the assert holds. |
| `Base58Coders.DecodeEncoded` | src/base58.cpp:40-127 | Decoding gives back every byte string if and only if the limit lets it through. |
| `Base58Coders.EncodeDecoded` | src/base58.cpp:40-127 | Whatever decodes, encodes back to the text without its surrounding white space. |
| `Base58Coders.DecodedInjective` | src/base58.cpp:40-87 | Texts that decode alike differ in surrounding white space alone. |
| `Base58Coders.EncodeBase58Check` | src/base58.cpp:137-144 | The encoding of the bytes with four checksum bytes. |
| `Base58Coders.DecodeBase58Check` | src/base58.cpp:146-161 | Decodes under the saturated limit and compares the checksum. |
| `Base58Coders.CheckedIff` | src/base58.cpp:137-161 | A text passes as given bytes if and only if it is their checked encoding up to white space and they are within the limit. |

## Left out

- Cost numbers of the linearization: any positive cost may be spent by any step, so the results hold wherever the limit stops it.
- Random draws and their distributions: tie-breaks, starting positions, swaps and directions are arbitrary; nothing is said about how likely or how fast.
- Heaps in GetLinearization: a heap is a set from which a best element is taken.
- Linearizing.Linearize: promises nothing about the quality of an old order that is not topological, because PriorTooGood shows that nothing can be promised.
- 64-bit and 32-bit overflow of fees, sizes, heights, identifiers and counters outside the limb arithmetic, the epoch size and the Base58 limit; 256-bit wrap-around of accumulated chain work.
- Pointers between cache layers: the layers are positions in a stack, so that a cache shared by two others is not expressible.
- Crash recovery and batching of the coins database, reallocation and memory pools, EmplaceCoinInternalDANGER, AccessCoin, HaveInputs, statistics; a script's length stands for its memory usage.
- Shutdown of the check queue, and notification of workers: workers may wake at any time; only the notification of the master matters for progress.
- Address manager: Select, GetEntries, FindAddressEntry and SetServices, which only read or set one field; serialization, the chance computation, null keys and asmap. Tables are sequences that are replaced, not arrays; the order in which collisions are resolved is arbitrary instead of ascending.
- Headers sync: PermittedDifficultyTransition, the work of a header and the limit on commitments are given; logging.
- Cuckoo cache: the depth limit is given instead of a rounded binary logarithm, and so is the element that fills an empty table; memory orders; setup by bytes.
- Partial Merkle trees: the block and filter that supply transactions and matches; network serialization apart from bit packing.
- Block index: chain work, status flags, median times, and the time-equivalent of proofs.
- arith_uint256: conversions to doubles, hex strings and byte arrays; bitwise operators that combine limbs one by one.
- The rest of the node: networking, storage, wallet, scripting, mempool policy, RPC, mining and build system.

## Findings

Properties that the source or its documentation states and that fail, each with the failing input and the
exact condition under which it holds:

- Merkle.BitBoundExceeded, Merkle.BitBound: the documented bound of 2N − 1 bits for N hashes (src/merkleblock.h:53) holds exactly when no node with a single child has a match below it.
- MerkleSizes.SizeBoundExceeded, MerkleSizes.SizeBoundIff: the size of a serialized tree is documented to be at most 10 + ceil(32.25 N) (src/merkleblock.h:37-54), which follows from that bound on the bits; 1025 transactions, all matched, take one byte more. Within the limit on transactions it holds exactly when the bits take at most 252 bytes, or the matched nodes with a single child are at most 1 + 2r, where r is what N lacks to a multiple of four.
- MerkleBlock.DuplicateRefused, MerkleBlock.RoundTrip: a block's own partial tree is accepted exactly when no pair of hashes compared on the way is equal.
- CoinsStack.SpentComesBackRun, CoinsStack.SpentComesBack, Coins.AddedOk: AddCoin without possible_overwrite keeps the stack consistent exactly when the view has no such coin; otherwise a later spend brings the base's coin back, which also makes the stack consistent again.
- CoinsStack.NullBlockHides, CoinsStack.FlushedBest: a flush passes a null best block on; the best block seen at that level survives exactly when the cache has one or the level below had none of its own.
- HeadersSync.BufferlessRun, HeadersSync.AcceptedDifficulties: in the second phase a header that meets an empty buffer is compared with the block to build on instead of its predecessor. With a positive buffer size that is the first header only, and all changes of difficulty are permitted; with a buffer size of zero it is the first header of every batch.
- CuckooCache.RotationStays, CuckooCache.MovesOnIff: the rotation is documented to prevent moving the element just put in; it does exactly when no position is followed by itself. The comment at src/cuckoocache.h:426 says the first swap uses position 0; the code uses position 1.
- Linearizing.PriorTooGood: the result of Linearize is documented to be at least as good as the old order; for an old order that is not topological no topological order need be.
- AddrCheck.CountsEscape, AddrCheck.StaleAddressEscapes, AddrCheck.InvIffPasses: CheckAddrman does not catch every inconsistency. It compares the counts of the networks it has counts for, so that an entry of a network without counts escapes it as long as there are as many networks on either side; it looks up the address of every entry, so that an address without an entry escapes it too. It decides the invariant exactly when neither is there and the identifiers are sound.
- CuckooCache.EpochSizeWraps, CuckooCache.EpochSizeIff: an epoch is documented to be 45 percent of the slots (src/cuckoocache.h:188-196); the product wraps around at 2^32, so that 95443718 slots give epochs of one element. It is 45 percent exactly when the product fits.
