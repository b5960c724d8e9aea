# Verification of the enclave's oblivious data structures

The enclave of FOSketch measures network flows without revealing, by the memory it touches,
which flows it measures. This project models the data structures it does that with and
proves what they compute:

- **Sorting networks** — the bitonic sorter for any length and the odd-even merge sorter for
  powers of two. Both are compare-exchange networks; the 0-1 principle carries a verdict
  about bits over to every strict weak order.
- **The Path-ORAM** — building the tree, accessing blocks with any random leaves, the growing
  and shrinking stash. Every run agrees with a flat array of blocks for as long as the stash
  has room, and every block is accounted for. An access has room when the stash and the path
  to be read hold at most `MAX_STASH_NUM - 8` blocks together.
- **Sort, scan, sort** — the update of the light part (per counter, and in blocks of 60
  counters), the distribution of flow sizes, and the heavy changes between two epochs, each
  against the direct computation.
- **Flow lookup** — the table of heavy flows with its overflow list, and the table of light
  counters, from building them to any run of lookups through the ORAM.
- **SpookyHash** — the mixing line by line as the header writes it, each stage a bijection of
  its state; hashes of particular messages word for word; hashing a message piece by piece
  against hashing it in one call.
- **The message queue** — a doubly linked list against a double-ended sequence, and the order
  in which messages come out of it.

Where the enclave works in place, so does the model: classes with the same fields, arrays
that are overwritten, loops with invariants. Each method is proved against a function or a
predicate on values, and the lemmas say what that means.

Three findings about the code itself:

- The direct, non-oblivious access (`access`) loses blocks although the stash could grow: its
  write of the path never goes back to an earlier slot. `DirectStash.DirectWriteExact` says
  exactly when it keeps them all, and `DirectRuns.DirectStepExact` that the access is a step of
  the ORAM exactly then. Over any run the blocks added are those dropped at the start plus
  those lost, less those missing at the end (`DirectRuns.DirectAccounts`), so more can be added
  than were dropped, as the comment above `access` observes (`FOSketch.h:1805-1807`).
  `DirectAccess.LossyRun` is such a run for any 6 to 97 blocks: with every leaf drawn 0 and
  buckets that take all blocks, none is dropped and all but five are added.
- The search for the greatest power of two below n doubles a 32-bit integer. It returns the
  promised value exactly for n up to 2^30; above, the comment "n<=Integer.MAX_VALUE" does not
  hold and it returns -2^30.
- The sorters take a sorting direction (`isASCE`) that nothing ever reads. Callers that ask
  for descending order get it from the comparison they pass, so it has no effect.

## Layout

| file | content |
|---|---|
| `BinaryArith.dfy` | powers of two, right shifts, logarithms |
| `Rearrangements.dfy` | permutations, and weighing a sequence |
| `Memory.dfy`, `Items.dfy` | copying; flows, sizes and reserved values |
| `SortingNetworks.dfy`, `BitonicSorting.dfy`, `OddEvenSorting.dfy`, `RangeSorting.dfy` | the two sorters, and the choice between them |
| `Blocks.dfy`, `StashModel.dfy`, `DirectStash.dfy`, `TreeGeometry.dfy` | blocks, stash, tree |
| `OramInvariant.dfy`, `InitPlacement.dfy`, `OramRuns.dfy`, `PathOram.dfy` | the ORAM: invariant, building, runs, the class |
| `DirectRuns.dfy`, `DirectAccess.dfy` | the direct access: its runs, and what they lose |
| `GroupScan.dfy`, `SketchUpdate.dfy`, `BlockUpdate.dfy` | the update of the light part |
| `CountDistribution.dfy` | the distribution of sizes |
| `FlowDelta.dfy`, `FlowBuckets.dfy`, `HeavyChange.dfy` | heavy changes |
| `HeavyLookup.dfy`, `CounterLookup.dfy` | looking flows and counters up through the ORAM |
| `SpookyCore.dfy`, `SpookyMixing.dfy`, `SpookyStreaming.dfy` | the hash: its rows, the mixing line by line, one call and piece by piece |
| `SpookyRotation.dfy`, `SpookyInverse.dfy`, `SpookyVectors.dfy` | the hash: rotating, inverses, particular messages |
| `MessageQueue.dfy` | the queue |

Names follow the program where they model it. Random numbers (leaves, indices, shuffles),
the contents of uninitialised memory and the flow hash are arguments, so every result holds
for all of them.

## Model

| member | source | states |
|---|---|---|
| SortingNetworks.ZeroOnePrinciple | FOSketch/Enclave/OPrimitive.h:583-590 | a compare-exchange network that sorts every string of bits sorts every list, for any strict weak order |
| SortingNetworks.RunMoves | FOSketch/Enclave/OPrimitive.h:592-611 | a network rearranges the stretch it compares and leaves everything else alone |
| BitonicSorting.BitonicSorter.Sort | FOSketch/Enclave/OPrimitive.h:645-683 | for every length, the num elements at an offset end up in order, a permutation of what they were, and nothing else changes |
| BitonicSorting.BitonicSorter.Merge | FOSketch/Enclave/OPrimitive.h:685-722 | merges a falling and then rising stretch of any length into order |
| BitonicSorting.BitonicSorter.BitonicSort | FOSketch/Enclave/OPrimitive.h:725-734 | the recursive sort in place runs the schedule that depends on the length alone |
| BitonicSorting.BitonicSorter.BitonicMerge | FOSketch/Enclave/OPrimitive.h:736-747 | the recursive merge in place runs its schedule |
| BitonicSorting.BitonicSorter.CompareAt | FOSketch/Enclave/OPrimitive.h:749-779 | one comparison in the given direction exchanges or keeps the two elements |
| BitonicSorting.BitonicSorter.GreatestPowerOfTwoLessThan | FOSketch/Enclave/OPrimitive.h:781-787 | in 32-bit arithmetic, the power of two m with m < n <= 2m when n is at most 2^30, and -2^30 above |
| BitonicSorting.BitonicSortCorrect | FOSketch/Enclave/OPrimitive.h:725-734 | the sort schedule sorts every list of every length, in either direction |
| BitonicSorting.BitonicMergeCorrect | FOSketch/Enclave/OPrimitive.h:736-747 | the merge schedule sorts every stretch that goes one way and then the other, turning anywhere, for any length |
| BitonicSorting.BitonicMergePow2Correct | FOSketch/Enclave/OPrimitive.h:736-747 | for power-of-two lengths it also sorts the opposite shape |
| BitonicSorting.MergeCircular | FOSketch/Enclave/OPrimitive.h:736-747 | for power-of-two lengths it sorts every circularly bitonic string of bits |
| BitonicSorting.MergeValley | FOSketch/Enclave/OPrimitive.h:736-747 | for every length it sorts every string of bits that is high, then low, then high |
| OddEvenSorting.OddEvenMergeSorter.Sort | FOSketch/Enclave/OPrimitive.h:514-530 | powers of two end up sorted, a permutation, nothing else changed; any other length is refused and the list kept |
| OddEvenSorting.OddEvenMergeSorter.Merge | FOSketch/Enclave/OPrimitive.h:532-548 | two sorted halves of a power-of-two length become one sorted stretch; any other length is refused |
| OddEvenSorting.OddEvenMergeSorter.OddEvenMergeSort | FOSketch/Enclave/OPrimitive.h:554-563 | the recursive sort in place runs its schedule |
| OddEvenSorting.OddEvenMergeSorter.OddEvenMerge | FOSketch/Enclave/OPrimitive.h:569-581 | the strided merge terminates and runs its schedule |
| OddEvenSorting.OddEvenMergeSorts | FOSketch/Enclave/OPrimitive.h:569-581 | merging at stride r sorts the subsequence lo, lo + r, ... when its two halves are sorted |
| OddEvenSorting.OddEvenMergeKeepsRest | FOSketch/Enclave/OPrimitive.h:569-581 | it touches nothing off that subsequence |
| OddEvenSorting.OddEvenSortCorrect | FOSketch/Enclave/OPrimitive.h:554-563 | the sort schedule sorts every list of 2^e elements |
| RangeSorting.SortRange | FOSketch/Enclave/FOSketch.h:103-109 | a range of any length up to 2^30 is sorted, whichever of the two sorters its length selects |
| BinaryArith.TestPo2Exact | Common/CommonUtil.h:142-146 | comparing with two to the rounded-up logarithm tests exactly for powers of two |
| TreeGeometry.NodeValue | FOSketch/Enclave/FOSketch.h:1779-1803 | the node at depth i of a leaf's path is (leaf + 2^level) >> (level - i) and lies at that depth |
| TreeGeometry.NodeShared | FOSketch/Enclave/FOSketch.h:1601-1601 | two leaves share the node at depth i exactly when they agree after shifting by level - i |
| TreeGeometry.PlacedOnPath | FOSketch/Enclave/FOSketch.h:1792-1803 | a block in a well-placed tree is on the path to its leaf |
| TreeGeometry.PushedSum | FOSketch/Enclave/FOSketch.h:1779-1790 | writing a path back exchanges exactly the old path's blocks for the new ones |
| StashModel.WriteRowsAdds | FOSketch/Enclave/FOSketch.h:1271-1311 | with room, writing a path adds exactly its blocks, whatever is counted, and leaves the slots beyond the stash free |
| StashModel.WriteRowsGrowth | FOSketch/Enclave/FOSketch.h:1291-1302 | the stash grows by PACE_STASH at most once per block of the path, with or without room |
| StashModel.WriteRowsLength | FOSketch/Enclave/FOSketch.h:1291-1302 | with room it grows by PACE_STASH exactly as often as it takes to hold stash and path together |
| StashModel.EvictConserves | FOSketch/Enclave/FOSketch.h:1615-1660 | eviction neither loses nor duplicates a block between stash and path |
| StashModel.EvictGreedy | FOSketch/Enclave/FOSketch.h:1626-1660 | evicted blocks may live where they are put, and a block left behind that could live at a level means that bucket is full |
| StashModel.EvictDeepest | FOSketch/Enclave/FOSketch.h:1627-1658 | eviction goes from the leaf up: a block put at one level, or left in the stash, that could live at a deeper one (at any one) met a full bucket there |
| DirectStash.DirectWriteExact | FOSketch/Enclave/FOSketch.h:1231-1268 | the direct write keeps every block if and only if the path fits the free slots, or the stash ends in a block and the path fits eight more |
| DirectStash.DirectWriteLost | FOSketch/Enclave/FOSketch.h:1231-1268 | every block of stash and path is in the stash afterwards or among the blocks lost, and as many are lost as do not fit |
| DirectStash.DirectWriteLoses | FOSketch/Enclave/FOSketch.h:1231-1268 | an empty stash of the default length loses a block of a path of six, where the oblivious write keeps all |
| OramInvariant.BlockInTree | FOSketch/Enclave/FOSketch.h:1639-1645 | a block in heap node h at depth i has the position its id is mapped to and h = (pos + 2^level) >> (level - i) |
| OramInvariant.IdOccursOnce | FOSketch/Enclave/FOSketch.h:1439-1439 | every id occurs at most once in tree and stash together, and exactly when the block exists |
| OramInvariant.PathWritten | FOSketch/Enclave/FOSketch.h:1865-1868 | after the path is written to the stash every block is in the stash or off the path |
| OramInvariant.StashBlockKnown | FOSketch/Enclave/FOSketch.h:1392-1392 | a block in the stash during an access carries the position its id is mapped to, as the assertions there demand |
| OramInvariant.BlockFound | FOSketch/Enclave/FOSketch.h:1436-1447 | the block mapped to the path just written is in the stash, if it was not lost |
| OramInvariant.WrittenBack | FOSketch/Enclave/FOSketch.h:1870-1872 | eviction and write-back restore the invariant |
| OramInvariant.Recompressed | FOSketch/Enclave/FOSketch.h:1174-1181 | rearranging the stash keeps the invariant |
| PathOram.FOSketch.ReadPath | FOSketch/Enclave/FOSketch.h:1792-1803 | the path array gets the buckets from the root to the leaf |
| PathOram.FOSketch.PushPath | FOSketch/Enclave/FOSketch.h:1779-1790 | exactly the buckets of the path are overwritten |
| PathOram.FOSketch.OWriteToStash | FOSketch/Enclave/FOSketch.h:1271-1311 | the path goes into the first free slots, the stash growing when full; without room it stays in bounds |
| PathOram.FOSketch.WriteToStash | FOSketch/Enclave/FOSketch.h:1231-1268 | the direct write does what its function on stashes says, for every stash and path |
| PathOram.FOSketch.OReadFromStash | FOSketch/Enclave/FOSketch.h:1428-1480 | the block is found, moved to the new leaf and handed out, or added cleared in the first free slot, counted, the stash growing by eight when full |
| PathOram.FOSketch.OFindBlock | FOSketch/Enclave/FOSketch.h:1436-1447 | only the first slot with the id changes, and only its position |
| PathOram.FOSketch.OInsertBlock | FOSketch/Enclave/FOSketch.h:1449-1478 | the new block takes the first free slot, cleared, and is counted |
| PathOram.LookupFrom | FOSketch/Enclave/FOSketch.h:1383-1480 | in the middle of an access, whatever blocks are left, a lookup hands out the recorded block or adds the missing one, and keeps the census of blocks |
| PathOram.LookupKeeps | FOSketch/Enclave/FOSketch.h:1428-1480 | a lookup after the write hands out the recorded block, adds exactly the missing one, and keeps the census of blocks |
| PathOram.FOSketch.OEvict | FOSketch/Enclave/FOSketch.h:1615-1658 | the rescanning eviction computes the same stash and path as the function on values; every block, on the path or left in the stash, is as deep as the full buckets let it |
| PathOram.FOSketch.RebuildStash | FOSketch/Enclave/FOSketch.h:1583-1613 | the single-pass eviction computes the identical stash and path, with every block as deep as the full buckets let it |
| PathOram.FOSketch.OCompressStash | FOSketch/Enclave/FOSketch.h:1142-1181 | compression permutes the stash, moves the blocks to the front, and sets the length to their number or the default, whichever is greater |
| PathOram.FOSketch.ORebuildStash | FOSketch/Enclave/FOSketch.h:1615-1662 | eviction followed, when asked for, by compression: every block is as deep as the full buckets let it, and compressed, the stash is as long as the number of its blocks or the default, whichever is greater; slots beyond it stay free |
| PathOram.FOSketch.OAccess | FOSketch/Enclave/FOSketch.h:1833-1879 | with room the invariant is kept and one abstract step taken: the block moves to the new leaf and is handed out as recorded, a missing one is added cleared, the path read is evicted to as deep as it goes, and compressed, the stash is as long as its blocks or the default; without room memory stays in bounds |
| PathOram.AccessKeeps | FOSketch/Enclave/FOSketch.h:1865-1872 | write, lookup, eviction and compression together keep the ORAM consistent |
| PathOram.FOSketch.ReadFromStash | FOSketch/Enclave/FOSketch.h:1383-1426 | the direct lookup finds and moves the block, or adds a cleared one in the first free slot after growing if needed |
| PathOram.FOSketch.Access | FOSketch/Enclave/FOSketch.h:1808-1831 | with room, a direct access loses exactly the blocks of the path that do not fit and is one step over the rest, the path evicted to as deep as it goes |
| PathOram.DirectKeeps | FOSketch/Enclave/FOSketch.h:1808-1831 | apart from the blocks lost, the four stages of a direct access keep the ORAM consistent |
| DirectRuns.PathWrittenExcept | FOSketch/Enclave/FOSketch.h:1231-1268 | whatever a write of the path loses, the blocks left are those recorded, without the ids lost, each once |
| DirectRuns.DirectStepExact | FOSketch/Enclave/FOSketch.h:1808-1831 | a direct access is a step of the ORAM if and only if the path fits the stash, a condition on the state before |
| InitPlacement.SegmentsPartition | FOSketch/Enclave/FOSketch.h:2120-2127 | the set bits of the number of blocks divide the ids among the levels: each id has exactly one |
| InitPlacement.SegmentSize | FOSketch/Enclave/FOSketch.h:2121-2127 | level i takes 2^i ids when bit i is set and none otherwise |
| InitPlacement.PlacingPlant | FOSketch/Enclave/FOSketch.h:2152-2176 | a block with room takes the next slot of its leaf's bucket, which was free, and the census grows by it |
| InitPlacement.PlacingDrop | FOSketch/Enclave/FOSketch.h:2156-2166 | a block is dropped only when its bucket is full |
| PathOram.FOSketch.PlaceSegment | FOSketch/Enclave/FOSketch.h:2150-2178 | the blocks of a level are placed or dropped; placed and dropped together are the blocks of the level |
| PathOram.FOSketch.Init_OCU | FOSketch/Enclave/FOSketch.h:2041-2198 | more than 65535 blocks are refused; else the invariant holds, every block is as in the source and in its level's bucket on its leaf's path, or that bucket is full and it was counted as dropped |
| PathOram.FOSketch.BurstAccess | FOSketch/Enclave/FOSketch.h:2008-2023 | any accesses, up to the first without room, are a run of abstract steps from the state at the start, each evicting the path it read and leaving the stash as long as it should be |
| OramRuns.RunRefinesFlat | FOSketch/Enclave/FOSketch.h:1833-1879 | over any run no access changes the flat array of blocks and each hands out its entry, zero for dropped blocks |
| OramRuns.RunAccounts | FOSketch/Enclave/FOSketch.h:1805-1807 | tree and stash always hold the blocks kept plus those added; at most as many are added as were dropped, and all of them exactly when every dropped block was accessed |
| OramRuns.RunGrows | FOSketch/Enclave/FOSketch.h:1448-1458 | accesses only ever add the blocks they ask for |
| OramRuns.SmallRoom | FOSketch/Enclave/FOSketch.h:1463-1473 | with at most MAX_STASH_NUM - 8 blocks there is always room |
| OramRuns.DrawnEverywhere | FOSketch/Enclave/FOSketch.h:2008-2016 | every block is drawn by exactly as many indices in a row as it holds counters, in every round of indices |
| PathOram.RunSketch | FOSketch/Enclave/FOSketch.h:2008-2023 | a sketch built over any source and accessed at any indices with any leaves answers as the flat array, up to the first access without room, and accounts for every block |
| DirectRuns.DirectAccounts | FOSketch/Enclave/FOSketch.h:1805-1831 | after any run of direct accesses the blocks added are those dropped and those lost, less those missing now; more are added than dropped exactly when more were lost than are missing |
| DirectRuns.DirectGrows | FOSketch/Enclave/FOSketch.h:1808-1831 | over any such run a block exists now exactly when it was accessed after it was last lost, or was there from the start and never lost |
| DirectAccess.MadeRunExact | FOSketch/Enclave/FOSketch.h:1808-1831 | a run of direct accesses is a run of the ORAM, so that everything proved of those holds of it, if and only if the path of each access fitted the stash |
| DirectAccess.RunDirect | FOSketch/Enclave/FOSketch.h:2008-2023 | a sketch built over any source and accessed directly at any indices with any leaves: every access up to the first without room loses exactly what does not fit, and the counters account for it |
| DirectAccess.AddsMoreThanDropped | FOSketch/Enclave/FOSketch.h:1805-1831 | more than five blocks, all mapped to leaf 0 and in buckets that take them all: none is dropped, and accessing each once adds all but five |
| DirectAccess.LossyRun | FOSketch/Enclave/FOSketch.h:2008-2023 | there is such a run for any 6 to 97 blocks |
| GroupScan.Scan | FOSketch/Enclave/FOSketch.h:611-628 | one pass leaves at each record the running join of its group and marks all but the last of a group |
| GroupScan.ScanCondenses | FOSketch/Enclave/FOSketch.h:718-734 | of every key exactly one record stays unmarked, and it holds the maximum over all records with the key |
| GroupScan.TableInPlace | FOSketch/Enclave/FOSketch.h:736-740 | sorted again, cell i of the table is record i |
| GroupScan.DummiesLast | FOSketch/Enclave/FOSketch.h:697-717 | padding records sort behind all others, so the scan sees every record |
| SketchUpdate.HeaviestIsLargest | FOSketch/Enclave/Enclave.cpp:211-224 | the new counter i is at least the old one and at least min(size, 255) of every flow with hash(flow) % numLight == i, and it is the old one or one of those sizes |
| SketchUpdate.UpdateCUSketch_NO | FOSketch/Enclave/Enclave.cpp:211-224 | every counter becomes the largest of itself and the sizes, capped at 255, of the flows that hash to it modulo numLight |
| SketchUpdate.UpdateCUSketch_Scan | FOSketch/Enclave/Enclave.cpp:226-242 | the scan over all counters computes the same table |
| SketchUpdate.OUpdateCUSketch | FOSketch/Enclave/FOSketch.h:696-740 | the oblivious update computes the same table |
| BlockUpdate.FlowsFit | FOSketch/Enclave/FOSketch.h:611-640 | condensed flow blocks need at most as many places as the table has blocks, so the merge sees all of them |
| BlockUpdate.CondenseFlows | FOSketch/Enclave/FOSketch.h:596-631 | the flow blocks become one block per block id, each counter the maximum of its flows, sorted |
| BlockUpdate.MergeFlows | FOSketch/Enclave/FOSketch.h:641-679 | merging, scanning and sorting leaves one block per id holding the maxima of table and flows |
| BlockUpdate.MergedBest | FOSketch/Enclave/FOSketch.h:641-665 | the maximum over a table block and the condensed flow blocks is the updated counter |
| BlockUpdate.OUpdateCUSketch_BEx | FOSketch/Enclave/FOSketch.h:512-692 | the update in blocks of 60 counters computes the same table as the direct one, for a power of two of full blocks |
| CountDistribution.OItemCountDist_DESC | FOSketch/Enclave/OPrimitive.h:968-993 | ascending sizes, one entry for each size that occurs with its multiplicity, then only MAX_SIZE entries, and the counts add up to the length |
| CountDistribution.RunLength | FOSketch/Enclave/OPrimitive.h:971-976 | the running count is how often the size occurred so far |
| CountDistribution.CountSizes | FOSketch/Enclave/Enclave.cpp:67-71 | the direct count is the map from sizes to multiplicities |
| CountDistribution.DistributionIsMap | FOSketch/Enclave/Enclave.cpp:67-81 | the unmarked entries of the oblivious distribution are exactly that map |
| FlowDelta.ODelta | FOSketch/Enclave/OPrimitive.h:924-961 | in place, matched entries of the first list become their difference or a dummy when it is below gamm, matched entries of the second get the dummy id and size zero, all others stay |
| FlowDelta.DeltaIsDelta | FOSketch/Enclave/OPrimitive.h:939-952 | with gamm one, the positive entries left are each changed flow once with its change; an entry of size zero carries the dummy id, or a flow that only one of the lists has |
| FlowDelta.HeavyChangeMap | FOSketch/Enclave/Enclave.cpp:258-291 | the direct version maps every flow of either epoch to its change and counts the positive ones |
| FlowDelta.ReportCount | FOSketch/Enclave/Enclave.cpp:281-289 | the positive entries of a report are as many as the flows the direct version counts |
| FlowBuckets.AddedBySpill | FOSketch/Enclave/FOSketch.h:222-233 | a full bucket copied to the spill area with one more flow holds what it held and that flow, no other bucket changes, and the byte overwritten in it leads there |
| FlowBuckets.AddedSpilled | FOSketch/Enclave/FOSketch.h:234-242 | a flow for a spilled bucket is added there and nowhere else |
| FlowBuckets.AllBuckets | FOSketch/Enclave/FOSketch.h:251-259 | the differences of all buckets together are the changes of all flows |
| FlowBuckets.FlattenTotal | FOSketch/Enclave/FOSketch.h:276-279 | the buckets hold twice numHeavy entries, so the final check never fails |
| HeavyChange.Shuffle | FOSketch/Enclave/FOSketch.h:153-174 | shuffling by random indices keeps the flows |
| HeavyChange.PutPrev | FOSketch/Enclave/FOSketch.h:180-194 | every bucket gets its flows of the first epoch, or one does not fit 16 |
| HeavyChange.PutCur | FOSketch/Enclave/FOSketch.h:217-248 | every bucket gets its flows of the second epoch behind them, or a bucket or the spill area does not fit |
| HeavyChange.CurOverflows | FOSketch/Enclave/FOSketch.h:222-239 | it gives up only when the flows do not fit |
| HeavyChange.DeltaBuckets | FOSketch/Enclave/FOSketch.h:250-259 | every bucket, spilled or not, is differenced in place and no other changes |
| HeavyChange.Collect | FOSketch/Enclave/FOSketch.h:260-275 | the buckets are copied out one after the other |
| HeavyChange.OHeavyChange | FOSketch/Enclave/FOSketch.h:147-304 | it succeeds exactly when the flows fit the buckets; then the list, descending by size, holds each changed flow once with its change and zeros behind, of the dummy or of flows that only one epoch lists, and the count is the number of changed flows |
| HeavyLookup.OBuildSTable | FOSketch/Enclave/FOSketch.h:91-144 | flow ids are forced to 1, 2, 3, ...; it succeeds exactly when the flows beyond seven a row fit the overflow list, and then row and overflow list together give every listed flow its size and every other nonzero id zero |
| HeavyLookup.TooMuchExcess | FOSketch/Enclave/FOSketch.h:125-130 | it gives up only when more flows exceed their rows than the overflow list takes |
| HeavyLookup.RecordedInRow | FOSketch/Enclave/FOSketch.h:133-137 | a flow put into its row is found there and no other lookup changes |
| HeavyLookup.OAccessFID | FOSketch/Enclave/FOSketch.h:1882-1920 | with room, the lookup takes one step of the ORAM and finds what row and overflow list give |
| HeavyLookup.LookupRight | FOSketch/Enclave/FOSketch.h:1882-1920 | over an ORAM of rows of the table that is the size of any flow whose row was kept, and the rows stay as they are |
| HeavyLookup.OBurstAccessFID | FOSketch/Enclave/FOSketch.h:1985-1994 | any lookups with any leaves, up to the first without room, find the size of every listed flow, and zero for any other nonzero id, whose row was kept |
| HeavyLookup.BuiltStoresRows | FOSketch/Enclave/FOSketch.h:2041-2198 | an ORAM built over the rows of the table stores rows of the table, and all of them when no block was dropped |
| HeavyLookup.RunTable | FOSketch/Enclave/FOSketch.h:91-144 | from the list of heavy flows through table and ORAM to any lookups: it succeeds exactly when the flows fit and the ids are wide enough, and then, up to the first lookup without room, every lookup is right whose row was kept, and every lookup at all when none was dropped |
| CounterLookup.OAccessCounter | FOSketch/Enclave/FOSketch.h:1889-1910 | with room, the lookup of a light counter takes one step of the ORAM and reads the counter's place in its block |
| CounterLookup.CountersRight | FOSketch/Enclave/FOSketch.h:1889-1910 | over any run each access, first or repeated, hands out the counters of its block as they were at the start, or zeros when the block was dropped |
| CounterLookup.OBurstAccessCounter | FOSketch/Enclave/FOSketch.h:1985-1994 | any lookups with any leaves, up to the first without room, find the flow's counter, or zero when its block was dropped |
| CounterLookup.RunCounters | FOSketch/Enclave/FOSketch.h:1985-1994 | the same from building the ORAM over any table of counters; with at most MAX_STASH_NUM - 8 blocks it holds for every lookup |
| SpookyMixing.Mix | FOSketch/Enclave/SpookyHash/SpookyV2.h:143-161 | the twelve lines mix twelve words of data into twelve variables as twelve rows do, each turning the state by one word |
| SpookyMixing.EndPartial | FOSketch/Enclave/SpookyHash/SpookyV2.h:179-196 | the twelve lines of the final mixing are twelve such rows |
| SpookyMixing.End | FOSketch/Enclave/SpookyHash/SpookyV2.h:198-210 | the last block is added word for word and mixed in three times |
| SpookyMixing.ShortMix | FOSketch/Enclave/SpookyHash/SpookyV2.h:227-241 | the twelve lines over four variables are twelve rows |
| SpookyMixing.ShortEnd | FOSketch/Enclave/SpookyHash/SpookyV2.h:255-268 | the eleven lines over four variables are eleven rows |
| SpookyRotation.RotIsTurned | FOSketch/Enclave/SpookyHash/SpookyV2.h:125-128 | rotating by k bits is rotating by one bit k times |
| SpookyRotation.RotBack | FOSketch/Enclave/SpookyHash/SpookyV2.h:125-128 | rotating on to 64 bits gives the word back, for every distance |
| SpookyInverse.MixInverse | FOSketch/Enclave/SpookyHash/SpookyV2.h:143-161 | for every block the mixing is a bijection of the twelve words, with its inverse |
| SpookyInverse.EndPartialInverse | FOSketch/Enclave/SpookyHash/SpookyV2.h:179-196 | so is a pass of the final mixing |
| SpookyInverse.EndInverse | FOSketch/Enclave/SpookyHash/SpookyV2.h:198-210 | so is the final mixing with any last block |
| SpookyInverse.ShortMixInverse | FOSketch/Enclave/SpookyHash/SpookyV2.h:227-241 | the short mixing is a bijection of the four words, with its inverse |
| SpookyInverse.ShortEndInverse | FOSketch/Enclave/SpookyHash/SpookyV2.h:255-268 | so is the short final mixing |
| SpookyInverse.LongKeepsSeeds | FOSketch/Enclave/SpookyHash/SpookyV2.cpp:149-185 | whatever a long message, different seeds leave different states |
| SpookyInverse.ShortKeepsSeeds | FOSketch/Enclave/SpookyHash/SpookyV2.cpp:42-117 | whatever a short message, different seeds leave different states |
| SpookyVectors.HashOfNothing | FOSketch/Enclave/SpookyHash/SpookyV2.cpp:113-119 | the hash of the empty message, as two words |
| SpookyVectors.HashOfOne | FOSketch/Enclave/SpookyHash/SpookyV2.cpp:100-119 | the hash of the four-byte flow id 1 |
| SpookyVectors.HashOfTwo | FOSketch/Enclave/SpookyHash/SpookyV2.cpp:100-119 | the hash of the four-byte flow id 2 |
| SpookyVectors.HashOfFifteen | FOSketch/Enclave/SpookyHash/SpookyV2.cpp:78-119 | the hash of the bytes 1 to 15 |
| SpookyVectors.HashOfSixtyOne | FOSketch/Enclave/SpookyHash/SpookyV2.cpp:46-119 | the hash of 61 bytes, every word its number, under the seeds 1 and 2: a complete set, half a set and 13 bytes |
| SpookyVectors.LongestLength | FOSketch/Enclave/SpookyHash/SpookyV2.cpp:74-75 | the length of the longest short message, 191, stands in the top byte |
| SpookyVectors.HashOfTwoHundred | FOSketch/Enclave/SpookyHash/SpookyV2.cpp:149-185 | the hash of 200 bytes, every word its number, under the seeds 1 and 2: two blocks of different words and 8 bytes |
| SpookyCore.MixBlocksMore | FOSketch/Enclave/SpookyHash/SpookyV2.cpp:155-163 | mixing blocks in one go or in two is the same |
| SpookyStreaming.Short | FOSketch/Enclave/SpookyHash/SpookyV2.cpp:20-120 | over four variables, the loop over sets of 32 bytes, the switch over the last bytes and the final mixing compute the short hash |
| SpookyStreaming.Hash128 | FOSketch/Enclave/SpookyHash/SpookyV2.cpp:126-185 | the loop over blocks and the padded last block compute the hash of the message |
| SpookyStreaming.PieceMixed | FOSketch/Enclave/SpookyHash/SpookyV2.cpp:244-284 | mixing the whole blocks of buffer and piece moves the state on by the piece |
| SpookyStreaming.SpookyHash.Init | FOSketch/Enclave/SpookyHash/SpookyV2.cpp:190-196 | the state stands for the empty message under the seeds |
| SpookyStreaming.SpookyHash.Update | FOSketch/Enclave/SpookyHash/SpookyV2.cpp:200-300 | the state stands for the message extended by the piece, however long |
| SpookyStreaming.SpookyHash.Final | FOSketch/Enclave/SpookyHash/SpookyV2.cpp:304-349 | the hash is that of all pieces concatenated, and the state still stands for them |
| SpookyStreaming.HashPieces | FOSketch/Enclave/SpookyHash/SpookyV2.h:113-120 | however a message is cut into pieces, streaming them gives the one-call hash |
| MessageQueue.Queue.PushBack | Common/Queue.c:21-38 | the message joins the back |
| MessageQueue.Queue.PushFront | Common/Queue.c:40-57 | the message joins the front |
| MessageQueue.Queue.PopFront | Common/Queue.c:59-87 | the message handed out is the front one, the rest stays in order, and it is fully unlinked; an empty queue gives none |
| MessageQueue.Queue.PopBack | Common/Queue.c:89-113 | the message handed out is the back one, the rest stays in order, and it is fully unlinked; an empty queue gives none |
| MessageQueue.Queue.FromTop | Common/Queue.c:70-74 | prev links from the top list the messages from front to back |
| MessageQueue.Queue.FromBottom | Common/Queue.c:97-101 | next links from the bottom list them from back to front |
| MessageQueue.FirstInFirstOut | Common/Queue.c:21-87 | messages pushed at the back come out at the front in the order they went in, after those already there, and the rest stays |
| MessageQueue.LastInFirstOut | Common/Queue.c:21-113 | popped from the back they come out in reverse, and the queue is as before |
| MessageQueue.FrontStack | Common/Queue.c:40-87 | messages pushed at the front come out there in reverse |
| MessageQueue.FrontQueue | Common/Queue.c:40-113 | popped from the back they come out in the order they went in, after those already there |
| MessageQueue.PerformAll | Common/Queue.c:21-113 | any run of pushes and pops treats the queue as a double-ended sequence and gives its results |

## Left out

- Enclave calls, options, timing, printing, scripts and the host program: input and output.
- Encryption, message packing and the random number source: foreign calls; random numbers are arguments.
- Inline assembly: `OMove`, `OMoveEx` and `OMaxSetMemCL` are modelled by the values they compute. That block memory is addressed in an oblivious order is not a statement about values.
- Byte layout: a block is an id, a position and a payload, a bucket a sequence of blocks, and the tree an array of buckets; a path in memory is an array of buckets too. The indicator pair of a bucket is two arrays.
- Inner loops and branches of the long routines are methods of their own; `Init_OCU` gets record size and bucket size from the constructor.
- `PathOram.FOSketch.OReadFromStash`, `PathOram.FOSketch.OAccess`, `PathOram.FOSketch.ReadFromStash`, `PathOram.FOSketch.Access`: when the stash is full beyond its limit the branches are modelled, but only memory safety is stated of them.
- The eviction reads the position map even for free slots, at an index beyond its end, and drops what it read; the model reads it for blocks only.
- `HeavyLookup.OBuildSTable`: the table starts zero-filled, where the program leaves fresh memory as it is; stale flow ids there would be found by lookups.
- `HeavyLookup.OBurstAccessFID`, `HeavyLookup.RunTable`: nothing is said of the size found for a flow whose row was dropped. Such a row gets only its first bytes cleared when it is added, so the rest is what the stash slot held.
- `FlowDelta.ODelta`, `FlowDelta.HeavyChangeMap`: sizes fit a signed integer, since the program subtracts them as such.
- `HeavyChange.OHeavyChange`: flows are distinct in each epoch, neither zero nor the dummy, with sizes that fit a signed integer, and buckets spill to at most 32 flows, as the literal in the copy assumes.
- `BlockUpdate.OUpdateCUSketch_BEx`: for other than a power of two of blocks the light blocks stay ascending and the merge does not get the shape it needs; that branch is not modelled. Neither is an empty heavy list, for which the bound `numHeavy-1` of the scan wraps around and the scan leaves its array.
- `SpookyStreaming.SpookyHash.Update`: messages of 2^64 bytes and more, where the length wraps around.
- `BitonicSorting.BitonicSorter.Sort`: lists of more than 2^30 elements, where the search for a power of two fails.
- `PathOram.FOSketch.Access`: the byte it returns from the block it hands out; the block itself is returned.
- The direct compression (`compressStash`), which nothing calls, the variants `_S`, `_F` and `_CL`, `OUpdateCUSketch_B`, `BitonicSorter_CDist` and `BitonicSorter_8`, `OItemCountDist_ASC`: the same ideas again.
- The sketch type 'L', which never sets its number of blocks, and `LinearAccess`, a special run of accesses.
- The cardinality estimate, the probability of stash overflow and the quality of the hash.
- The branches of SpookyHash for machines that cannot read unaligned words, which a constant switches off, and its shorter results `Hash64` and `Hash32`.
- Spin locks: queue operations run one at a time.
