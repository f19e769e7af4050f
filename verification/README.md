# Verified models of faiss search and tuning algorithms

Faiss is a library for similarity search. This project models the parts of it that keep state or take
shortcuts, and proves that the shortcuts lose nothing: hash indexes that probe few buckets, list-major
searches that regroup queries, an auto-tuner that skips experiments, a range search that tightens its radius
while it runs, a threaded pipeline that can crash and resume, and several algorithms that rearrange arrays in
place. `dafny verify dfyconfig.toml` checks everything.

## How it is modelled

- **Words and codes.** A 64-bit word is a sequence of 64 bits with shifts that drop bits (`Words.dfy`). Binary
  vectors are bit sequences read out of unbounded memory, so that an unaligned 8-byte load may reach past the end
  of a vector (`BinaryCodes.dfy`).
- **Results.** A result is an entry of a distance and an id; the C++ code keeps both in parallel arrays. The array
  heap works as the code does, with ties broken by id (`Heaps.dfy`). What a row of a search holds is given by
  the candidates offered to it so far (`Nearest.dfy`): the k nearest, padded with neutral entries.
- **Hash indexes** (`FlipEnumerator.dfy`, `SingleHash.dfy`, `MultiHash.dfy`). The mask enumerator, the adds and the
  searches are methods on mutable state. Both indexes are exact within a radius; the exact condition is proved in both
  directions, with an input for every radius beyond it.
- **Bucket sorts** (`BucketSort.dfy`, `ParallelSort.dfy`). With one thread the in-place sort follows the cycles of a
  permutation with one hole. Its loop is also a step function on its variables, so that whether it ends is a statement
  about all its passes. With several threads it pushes rows around in rounds, started by pads, over buckets that wrap
  around; the threads of a round own different buckets and so touch different cells, and the model lets them write
  one after the other between the barriers.
- **Binary inverted files** (`BinaryIvf.dfy`). Query-major and blocked list-major search find the same distances.
- **Auto-tuning** (`OperatingPoints.dfy`, `Combinations.dfy`, `Exploration.dfy`). The Pareto front, its query by
  bisection, mixed-radix combinations and their order, and the pruned exploration. The time of an experiment is a
  function of its number; performances and times are reals.
- **Batch search** (`BatchPipeline.dfy`, `BatchSearch.dfy`). The queue pipeline is a state machine: every thread
  takes one step at a time, in any order, and the process may crash after any step and start again from its last
  checkpoint. `BatchSearch.RunPipeline` executes any such run on real heaps and files. The two other drivers are
  methods on the same heaps. The link between them is that the order in which lists are merged does not matter.
- **Range search** (`AdaptiveRange.dfy`, `HybridRange.dfy`). Distances are integers; both metric directions are
  covered. What the index holds for a query is a parameter.
- **Array code** (`SlidingWindow.dfy`, `TwoLayerCodec.dfy`, `Clustering.dfy`, `LevelOrder.dfy`,
  `PrecisionRecall.dfy`). Random draws are parameters, so what is proved holds for all of them.

`Options.dfy`, `Rearrangements.dfy`, `Collectors.dfy` and `Scans.dfy` hold what several of these share.

## What the proofs found

- `OperatingPoints::add` can keep a point that another one dominates: exactly when the next point of the front
  takes the same time (`OperatingPointSets.DominatedIffEqualTimes`, `OperatingPointSets.EqualTimesAreKept`). Answers
  of `t_for_perf` are not affected.
- The list-major search of the binary inverted file writes one limit more than there are lists into a buffer of one
  place more than there are queries. `BinaryIvf.LimitsOverrun` gives two queries and five lists that overrun it;
  `BinaryIvf.LimitsFitIff` says when it does.
- A -1 passes all checks of the single-threaded in-place bucket sort, which then takes it for the hole of a cycle. The
  sort ends exactly when no -1 comes after a bucket number (`BucketSort.FollowCycles`, `BucketSort.SortInPlace`), and
  then it is right. The list-major search passes on the keys of its quantizer, where -1 means that no list was found:
  `BinaryIvf.EndlessIff` says when it does not end, `BinaryIvf.NeverEnds` gives three queries for which it does not.
- Pruned exploration can lose results without monotone performance, without monotone times, or with performances above
  one. `Exploration.PruningNeedsMonotonePerformance`, `Exploration.PruningNeedsMonotoneTime` and
  `Exploration.PruningNeedsPerformanceUpToOne` give three combinations each where the skipped one is missed. The exact
  condition is on the trials alone (`Exploration.SafeIff`): nothing is ever lost if and only if whatever makes an
  experiment be skipped is at least as good as it. Monotone trials with performances up to one meet it
  (`Exploration.MonotoneIsSafe`), the three inputs do not.
- The one-ahead driver of the batch search fails on an empty range of lists, the sequential one does not
  (`BatchSearch.BigBatchSearcher.Pipelined`, `BatchSearch.BigBatchSearcher.Sequential`).
- Grouping the queries of a batch search fails when there are not more assignments than buckets, or when one names
  the list past the last; larger list numbers are not refused but counted past the end of a histogram, and those below
  -1 before its start (`BatchSearch.BigBatchSearcher.ReorderAssign`, `ParallelBucketSort.ParallelLimits`).
- The two drivers without queues restore a checkpoint but do not look at its completed set. No list is merged twice
  exactly when nothing was restored (`BatchSearch.AnyRestoredListRepeats`), and `BatchSearch.RestoredRowIsWrong` gives a
  query whose final row is wrong. The documentation offers checkpoints for the queue pipeline only.
- Assertions inside the single-threaded in-place bucket sort all hold exactly when bucket 0 is not empty
  (`BucketSort.SortInPlace`); the result is right either way. Those of the sort with several threads always hold
  (`ParallelBucketSort.SortWithThreads`).
- Without its fallback the hybrid range search is exact exactly for the queries with at most k results
  (`HybridRange.NoFallbackExactIff`).
- The constructor of the two-layer index finds no code size when there are more than 2^48 lists
  (`TwoLayerCodec.ChooseCodeSize`), and then leaves it unset.
- One-pass precision and recall agree with filtering and intersecting exactly when no ground-truth id is
  reported twice below the threshold; otherwise the precision is too large (`PrecisionRecall.OnePassPrIff`).
- A sliding window on an index that is not empty glues the old content to its first slice, and both leave together:
  the lists hold the old content and then the slices that are left exactly as long as no slice has been removed, or if
  there was no old content (`SlidingWindow.KeepsOrderIff`, `SlidingWindow.SlidingIndexWindow.Run`). The header asks for
  an empty index.

## Model

| member | source | states |
|---|---|---|
| `FlipEnumeration.FlipEnumerator.constructor` | faiss/IndexBinaryHash.cpp:76-80 | the enumeration starts with the empty mask as the only one visited |
| `FlipEnumeration.FlipEnumerator.Next` | faiss/IndexBinaryHash.cpp:82-107 | each call appends one new mask, moving forward in the order by number of ones and then downwards; when it returns false the masks visited are all those with at most maxflip ones |
| `FlipEnumeration.NothingBetween` | faiss/IndexBinaryHash.cpp:94-106 | no word with as many ones lies strictly between a mask and the next one |
| `FlipEnumeration.CarryIsSuccessor` | faiss/IndexBinaryHash.cpp:94-106 | moving the lowest block of ones gives the next mask of the same number of ones |
| `FlipEnumeration.NextRadiusIsSuccessor` | faiss/IndexBinaryHash.cpp:83-92 | after the last mask of n ones comes the largest mask of n + 1 ones |
| `FlipEnumeration.FlipsCarry` | faiss/IndexBinaryHash.cpp:94-105 | the shifts, masks and exclusive-ors of both branches move the lowest block of ones as meant, on 64-bit words |
| `FlipEnumeration.Extend` | faiss/IndexBinaryHash.cpp:82-107 | a complete ordered list up to a mask stays complete and ordered when its successor is appended |
| `FlipEnumeration.AtMostSize` | faiss/IndexBinaryHash.cpp:69-71 | the number of masks with at most m ones is the sum of binomial coefficients |
| `FlipEnumeration.Enumerate` | faiss/IndexBinaryHash.cpp:148-175 | the do-while loop meets every mask with at most maxflip ones exactly once, in order, as many as the binomial coefficients add up to, and ends |
| `BinaryCodes.HashReadsVectorOnly` | faiss/IndexBinaryHash.cpp:326-327 | the shifted and masked 8-byte load gives b bits of the vector whatever the memory behind it holds |
| `BinaryCodes.HashDistanceBound` | faiss/IndexBinaryHash.cpp:376-383 | bits in which two hashes differ are bits in which the vectors differ, in that part of the vectors |
| `BinaryCodes.HashDistanceBelowHamming` | faiss/IndexBinaryHash.cpp:145-152 | the distance of two hashes is at most the Hamming distance of the vectors |
| `BinaryCodes.HashXorFits` | faiss/IndexBinaryHash.cpp:145-152 | the difference of two hashes is one of the masks of b bits |
| `Heaps.ReplaceTop` | faiss/utils/Heap.h:111-150 | the entries are the old ones with the top replaced, and the heap order holds again |
| `Heaps.Pop` | faiss/utils/Heap.h:46-77 | the row without its last cell is a heap of the old entries without the largest one |
| `Heaps.Heapify` | faiss/utils/Heap.h:315-338 | without initial values the row is filled with neutral entries, and nothing else changes |
| `Heaps.Reorder` | faiss/utils/Heap.h:420-450 | a heap becomes a sorted row of its entries with real ids, followed by neutral entries |
| `Nearest.OfferRejected` | faiss/IndexBinaryHash.cpp:129-133 | an entry that is not nearer than the top leaves a row that holds the k nearest of all seen |
| `Nearest.OfferAccepted` | faiss/IndexBinaryHash.cpp:129-133 | replacing the top by a nearer entry gives the k nearest of all seen |
| `Nearest.ReorderKeepsRow` | faiss/utils/Heap.h:420-450 | reordering turns the heap of a search into its finished row |
| `Nearest.ResultRowsAgree` | faiss/utils/Heap.h:106-150 | two finished rows over the same candidates have the same distances, whatever the order of the search |
| `Nearest.NearestOfPart` | faiss/IndexBinaryHash.cpp:231-262 | a finished row over everything is one over any part that holds all candidates up to its last distance |
| `Collectors.CollectRange` | faiss/IndexBinaryHash.cpp:110-119 | a range search keeps the scanned entries below the radius, each as often as it was scanned |
| `Collectors.CollectNearest` | faiss/IndexBinaryHash.cpp:121-134 | a nearest search over a scan ends with the k nearest of it, sorted, and writes only its own row |
| `SingleHash.IndexBinaryHash.constructor` | faiss/IndexBinaryHash.cpp:33-36 | a new index stores nothing |
| `SingleHash.IndexBinaryHash.AddWithIds` | faiss/IndexBinaryHash.cpp:51-65 | the vectors are stored behind the old ones under given or consecutive ids, and every bucket holds exactly the vectors of its hash |
| `SingleHash.IndexBinaryHash.Scan` | faiss/IndexBinaryHash.cpp:136-176 | the probes report each stored vector whose hash is within nflip flips of the query's, once, and no other |
| `SingleHash.IndexBinaryHash.RangeSearch` | faiss/IndexBinaryHash.cpp:201-229 | within the flip budget the results are those of brute force |
| `SingleHash.IndexBinaryHash.Search` | faiss/IndexBinaryHash.cpp:231-262 | refused unless k is positive; else, where no stored id is -1, the row holds the k nearest of what is within nflip flips |
| `SingleHash.OneMoreMask` | faiss/IndexBinaryHash.cpp:151-175 | a new mask adds exactly the bucket it leads to |
| `SingleHash.WithinIsPart` | faiss/IndexBinaryHash.cpp:136-176 | nothing is reported that brute force does not report |
| `SingleHash.RangeIsExact` | faiss/IndexBinaryHash.cpp:201-229 | with a radius of at most nflip + 1, or when every hash is probed, range search is brute force |
| `SingleHash.RangeExactIff` | faiss/IndexBinaryHash.cpp:201-229 | it agrees with brute force on every data set only then |
| `SingleHash.SearchIsExact` | faiss/IndexBinaryHash.cpp:231-262 | the distances found are those of brute force when the true k-th one is at most nflip |
| `MultiHash.IndexBinaryMultiHash.constructor` | faiss/IndexBinaryHash.cpp:289-298 | a new index stores nothing; its hashes fit into the vector |
| `MultiHash.IndexBinaryMultiHash.Add` | faiss/IndexBinaryHash.cpp:317-333 | the vectors are stored behind the old ones and each table holds every id under its hash |
| `MultiHash.IndexBinaryMultiHash.ShortList` | faiss/IndexBinaryHash.cpp:370-399 | the candidates are exactly the ids that some table reaches within nflip flips |
| `MultiHash.IndexBinaryMultiHash.VerifyShortList` | faiss/IndexBinaryHash.cpp:337-352 | every candidate is reported once with its full distance, in any order |
| `MultiHash.IndexBinaryMultiHash.RangeSearch` | faiss/IndexBinaryHash.cpp:409-437 | every reached id below the radius is reported once, and within the budget the results are those of brute force |
| `MultiHash.IndexBinaryMultiHash.Search` | faiss/IndexBinaryHash.cpp:439-470 | the row holds the k nearest of the reached ids; refused unless k is positive |
| `MultiHash.TablesIgnoreNewVectors` | faiss/IndexBinaryHash.cpp:317-333 | storing more vectors does not disturb what the tables say about the old ones |
| `MultiHash.NearIsReached` | faiss/IndexBinaryHash.cpp:362-405 | pigeonhole: a vector with fewer than nhash * (nflip + 1) differences is reached by some table |
| `MultiHash.RangeIsExact` | faiss/IndexBinaryHash.cpp:409-437 | up to that radius the results are those of brute force, every id once |
| `MultiHash.RangeExactIff` | faiss/IndexBinaryHash.cpp:409-437 | it agrees with brute force on every data set exactly when the radius is within that budget or a table is probed completely |
| `MultiHash.CounterExample` | faiss/IndexBinaryHash.cpp:409-437 | for every radius beyond the budget, a vector below the radius that no table reaches |
| `MultiHash.SearchIsExact` | faiss/IndexBinaryHash.cpp:439-470 | the distances found are those of brute force when the true k-th one is below nhash * (nflip + 1) |
| `BucketSort.ComputeLimits` | faiss/utils/sorting.cpp:346-356 | the limits of all buckets from a histogram and its sums, those of -1 in front; refused when a value has no bucket, unless one below -1 comes first and is counted before the start of the buffer |
| `BucketSort.RoomForRow` | faiss/utils/sorting.cpp:366-390 | in the middle of a cycle the bucket of the row in hand has a free cell |
| `BucketSort.PlaceRow` | faiss/utils/sorting.cpp:367-375 | one write puts the row into its bucket and takes the next cell in hand, or closes the cycle at a -1, the hole or not; no row is lost |
| `BucketSort.FullMeansLead` | faiss/utils/sorting.cpp:378-390 | all buckets get full only when no -1 comes after a bucket number |
| `BucketSort.NoBlankLeft` | faiss/utils/sorting.cpp:364-377 | when none does, every cell of a bucket without a row still has its bucket number between two cycles, so that no cycle starts on a -1 |
| `BucketSort.Stuck` | faiss/utils/sorting.cpp:366-390 | once a pass of the loop changes nothing, no number of passes ends it |
| `BucketSort.FollowCycles` | faiss/utils/sorting.cpp:364-395 | the loop ends if and only if no -1 comes after a bucket number, and then the rows are grouped by bucket; the assertions after the last cycle always hold, those on the way exactly when bucket 0 is not empty |
| `BucketSort.SortInPlace` | faiss/utils/sorting.cpp:334-400 | for all values: refused unless there are more values than buckets; then one limit more than buckets is written, which overruns a smaller buffer; then refused, or an overrun, by the first value out of range, and an overrun when all are -1; else it ends with the rows grouped by bucket if and only if no -1 comes after a bucket number; all assertions hold exactly when bucket 0 is not empty |
| `BucketSort.BucketRows` | faiss/utils/sorting.h:45-62 | the slice of a bucket holds exactly the rows that name it, once each when no row names it twice |
| `ParallelBucketSort.ParallelLimits` | faiss/utils/sorting.cpp:466-518 | the limits of all buckets; refused without more values than buckets or when a value is the number of buckets, and outside a histogram when one is larger or negative |
| `ParallelBucketSort.InitialWrites` | faiss/utils/sorting.cpp:522-539 | every bucket that has cells gets at least one pad and no more than it has cells |
| `ParallelBucketSort.RoomForHead` | faiss/utils/sorting.cpp:611-619 | whatever waits for a bucket has a cell there, and after wrapping around one that holds a pad |
| `ParallelBucketSort.Meets` | faiss/utils/sorting.cpp:611-633 | a write meets a value that was there from the start, or a pad after wrapping around, never a row; a bucket wraps around once |
| `ParallelBucketSort.Advance` | faiss/utils/sorting.cpp:601-635 | every write keeps the state of the sort: each row that was written over is placed or waits, once |
| `ParallelBucketSort.AllDone` | faiss/utils/sorting.cpp:583-593 | when nothing waits no pad is left, every bucket has wrapped around, and the rows are grouped by bucket |
| `ParallelBucketSort.SharesCover` | faiss/utils/sorting.cpp:541-543 | the threads divide the buckets among them |
| `ParallelBucketSort.Round` | faiss/utils/sorting.cpp:545-640 | a round writes everything that waited, in buckets of different threads, and after the first one it places a row |
| `ParallelBucketSort.SortWithThreads` | faiss/utils/sorting.cpp:457-642 | for all values and any number of threads the sort ends with the rows grouped by bucket and its assertions hold, or is refused or leaves a histogram as its checks say |
| `BinaryIvf.ScanCodes` | faiss/IndexBinaryIVF.cpp:332-352 | scanning a list leaves the k nearest of everything seen before and the list |
| `BinaryIvf.SearchQuery` | faiss/IndexBinaryIVF.cpp:399-458 | the k nearest of the lists met before the code limit; negative keys are skipped, a key past the last list is an error |
| `BinaryIvf.BlockSearch.constructor` | faiss/IndexBinaryIVF.cpp:607-622 | the cached tops are the tops of the rows |
| `BinaryIvf.BlockSearch.AddBcode` | faiss/IndexBinaryIVF.cpp:624-633 | every row has seen the vector and each cached top is the live top of its row |
| `BinaryIvf.SearchPerList` | faiss/IndexBinaryIVF.cpp:636-736 | for all keys, -1 included: where the search ends with rows, every row has the k nearest of the lists its query names; refused with a code limit, stored pairs, or keys the sort refuses; an overrun or no end as the sort has it |
| `BinaryIvf.LimitsFitIff` | faiss/IndexBinaryIVF.cpp:646-661 | nothing refuses the search and it leaves its buffers exactly when there are more lists than queries, or a key is below -1 before any that is refused, or all are -1 |
| `BinaryIvf.LimitsOverrun` | faiss/IndexBinaryIVF.cpp:655-661 | two queries that probe three of five lists each overrun the limits |
| `BinaryIvf.EndlessIff` | faiss/IndexBinaryIVF.cpp:650-661 | on keys that are -1 or name a list, a search that is not refused and whose limits fit does not end if and only if a -1 comes after a list |
| `BinaryIvf.NeverEnds` | faiss/IndexBinaryIVF.cpp:650-661 | three queries with one key each, the second -1, over two lists |
| `BinaryIvf.ProbedIsVisited` | faiss/IndexBinaryIVF.cpp:415-449 | going through distinct keys without a limit, skipping negative ones, sees what going list by list sees |
| `BinaryIvf.SearchesAgree` | faiss/IndexBinaryIVF.cpp:371-465 | where both end with rows, query-major and list-major search give every query the same distances, negative keys included |
| `OperatingPointSets.TimeForBounds` | faiss/AutoTune.cpp:175-189 | the least time for a performance is a lower bound over the recorded points and the origin, and is attained or never |
| `OperatingPointSets.TimeForSameMembers` | faiss/AutoTune.cpp:163-173 | it only depends on which points were recorded, so merging is independent of order |
| `OperatingPointSets.TimeForMonotone` | faiss/AutoTune.cpp:175-189 | more performance never takes less time |
| `OperatingPointSets.FrontGivesTime` | faiss/AutoTune.cpp:175-189 | the first point of the front that reaches a performance has the least recorded time for it |
| `OperatingPointSets.InsertKeepsFront` | faiss/AutoTune.cpp:116-161 | after an insertion the front is increasing in performance, not decreasing in time, made of recorded points, and dominates all of them |
| `OperatingPointSets.DominatedIffEqualTimes` | faiss/AutoTune.cpp:154-159 | a point of the front is dominated by another one exactly when the next one is as fast |
| `OperatingPointSets.EqualTimesAreKept` | faiss/AutoTune.cpp:154-159 | two points where that happens |
| `OperatingPointSets.OperatingPoints.constructor` | faiss/AutoTune.cpp:103-113 | nothing recorded, the origin as front |
| `OperatingPointSets.OperatingPoints.Add` | faiss/AutoTune.cpp:115-161 | the point is recorded, the front is the updated front, and the answer is true exactly when the performance is not zero and nothing recorded reaches it as fast |
| `OperatingPointSets.OperatingPoints.Place` | faiss/AutoTune.cpp:126-153 | the three branches put the point behind all worse ones, over one of equal performance, or nowhere when it is not faster |
| `OperatingPointSets.OperatingPoints.RemoveSlower` | faiss/AutoTune.cpp:154-159 | the sweep from the back erases exactly the worse points that are slower than the new one |
| `OperatingPointSets.OperatingPoints.TForPerf` | faiss/AutoTune.cpp:175-189 | the bisection returns the least recorded time for the performance |
| `OperatingPointSets.OperatingPoints.MergeWith` | faiss/AutoTune.cpp:163-173 | all points of the other set are recorded with the prefix, and the count is of those that were faster when they came |
| `Combinations.NCombinations` | faiss/AutoTune.cpp:274-279 | the product of the range sizes |
| `Combinations.NumberOfDigits` | faiss/AutoTune.cpp:282-300 | the value indices of a combination are in range and give its number back |
| `Combinations.DigitsOfNumber` | faiss/AutoTune.cpp:282-300 | every tuple of value indices is that of one combination below the product |
| `Combinations.GeIsPartialOrder` | faiss/AutoTune.cpp:302-313 | the order on combinations is reflexive, antisymmetric and transitive, with the first at the bottom and the last on top |
| `Combinations.CombinationGe` | faiss/AutoTune.cpp:302-313 | dividing both numbers down compares all value indices |
| `Exploration.RandPerm` | faiss/utils/random.cpp:184-194 | the shuffled part is a permutation for all draws, and nothing else is written |
| `Exploration.ExperimentOrder` | faiss/AutoTune.cpp:653-661 | a permutation of all experiments that starts with the first and the last one |
| `Exploration.ShouldSkip` | faiss/AutoTune.cpp:673-691 | skips exactly when nothing that the experiment could yield within the bounds from all recorded points would change any answer |
| `Exploration.SkipIff` | faiss/AutoTune.cpp:673-691 | the comparison of the two bounds is exact: it holds if and only if no outcome within them changes the time of a performance |
| `Exploration.BoundsHold` | faiss/AutoTune.cpp:596-609 | for monotone performance and time the bounds are bounds |
| `Exploration.SkipLosesNothing` | faiss/AutoTune.cpp:683-691 | running a skipped experiment would not change any answer |
| `Exploration.PruningLosesNothing` | faiss/AutoTune.cpp:663-747 | monotone trials with performances up to one: for every performance asked for, the pruned run gives the time of running all experiments of the order |
| `Exploration.SafeIff` | faiss/AutoTune.cpp:663-747 | for all trials: on every record and in every order the pruned run gives the times of the full one, if and only if whatever makes an experiment be skipped is as good as the experiment; the condition reads performances and times only |
| `Exploration.MonotoneIsSafe` | faiss/AutoTune.cpp:596-609 | monotone trials with performances up to one meet that condition |
| `Exploration.FullPrunedRunIsExhaustive` | faiss/AutoTune.cpp:611-748 | for trials that meet the condition, with all experiments in the order it gives the time of running every combination in turn |
| `Exploration.PruningNeedsMonotonePerformance` | faiss/AutoTune.cpp:683-691 | without monotone performance a skipped experiment can be the only one that reaches a performance; such trials are not safe |
| `Exploration.PruningNeedsMonotoneTime` | faiss/AutoTune.cpp:683-691 | without monotone times a skipped experiment can be faster than all that ran; such trials are not safe |
| `Exploration.PruningNeedsPerformanceUpToOne` | faiss/AutoTune.cpp:675-691 | a performance above one can be missed although everything is monotone, because the bound starts at one; such trials are not safe |
| `Exploration.Explore` | faiss/AutoTune.cpp:611-748 | zero experiments run everything in turn; else a random order with the two extremes first, cut to the number asked for (a negative or too large one means all), pruned; refused with fewer than three of several |
| `BatchPipeline.MergedAtMostOnce` | contrib/big_batch_search.py:382-506 | in every state no list was merged twice, and only lists of the range were merged |
| `BatchPipeline.TestSeesRecovered` | contrib/big_batch_search.py:393-397 | the manager's test against the shared completed set sees only what was recovered, although the main thread changes the set meanwhile |
| `BatchPipeline.MovesKeepLists` | contrib/big_batch_search.py:417-457 | a step of any thread but the manager's test moves lists without losing or copying one |
| `BatchPipeline.StepKeepsInvariant` | contrib/big_batch_search.py:382-506 | every step of every thread keeps all invariants |
| `BatchPipeline.InvariantAlways` | contrib/big_batch_search.py:325-506 | they hold in every state of every run, with crashes at any point and resumption from the last checkpoint |
| `BatchPipeline.EachListMergedOnce` | contrib/big_batch_search.py:382-509 | when the main thread has finished, each list of the range has been merged exactly once into the heap that is left, and the completed set is the range; lists merged after the last checkpoint are merged again after a crash, into the heap of the checkpoint |
| `BatchPipeline.RelayNeverBlocks` | contrib/big_batch_search.py:437-440 | putting the sentinel back never waits |
| `BatchPipeline.SentinelIsLast` | contrib/big_batch_search.py:402-402 | nothing is behind a sentinel in either queue |
| `BatchPipeline.SomeStepEnabled` | contrib/big_batch_search.py:382-509 | no deadlock: until the last sentinel is read some thread can take a step |
| `BatchPipeline.StepsComeToAnEnd` | contrib/big_batch_search.py:382-509 | every step brings the end nearer |
| `BatchPipeline.RunsEnd` | contrib/big_batch_search.py:382-509 | a process takes a bounded number of steps and has finished when none is possible |
| `BatchSearch.NearestOfSummary` | contrib/big_batch_search.py:216-231 | merging the k nearest of a list, or all its distances, gives the same row |
| `BatchSearch.SliceCounts` | contrib/big_batch_search.py:101-112 | the slice of a bucket holds every query as often as its row names the bucket |
| `BatchSearch.TotalIgnoresOrder` | contrib/big_batch_search.py:341-379 | what a query gets does not depend on the order of the lists |
| `BatchSearch.ListMajorIsQueryMajor` | contrib/big_batch_search.py:341-347 | list by list a query gets what it gets by going through its own lists |
| `BatchSearch.FinishedTotal` | contrib/big_batch_search.py:382-509 | after any finished run, crashes included, a query has got exactly the entries of its own lists |
| `BatchSearch.StartProcess` | contrib/big_batch_search.py:303-336 | a process starts with the heaps of the checkpoint, or empty ones |
| `BatchSearch.Perform` | contrib/big_batch_search.py:382-506 | after a step of any thread the heaps and both files hold the nearest of the lists merged into them |
| `BatchSearch.RunPipeline` | contrib/big_batch_search.py:303-515 | whatever the threads do and wherever it crashes, the heaps hold the nearest of what their queries have got, and after the end every query has the k nearest entries of its own lists, sorted |
| `BatchSearch.BigBatchSearcher.constructor` | contrib/big_batch_search.py:30-46 | all heaps start empty |
| `BatchSearch.BigBatchSearcher.ReorderAssign` | contrib/big_batch_search.py:101-112 | after the shift by one the slice of each list serves it; refused without more cells than buckets or for the list past the last one, and an overrun for larger list numbers and those below -1 |
| `BatchSearch.BigBatchSearcher.PrepareBucket` | contrib/big_batch_search.py:114-121 | the slice holds the queries of the list |
| `BatchSearch.BigBatchSearcher.WriteCheckpoint` | contrib/big_batch_search.py:157-167 | the file holds the rows of the heaps as they are |
| `BatchSearch.BigBatchSearcher.ReadCheckpoint` | contrib/big_batch_search.py:169-175 | the heaps hold the nearest of what had been merged when the file was written |
| `BatchSearch.BigBatchSearcher.AddResultsToHeap` | contrib/big_batch_search.py:142-152 | every heap holds the nearest of what its query has got, with this list |
| `BatchSearch.BigBatchSearcher.Sequential` | contrib/big_batch_search.py:338-347 | the lists of the range are merged in order |
| `BatchSearch.BigBatchSearcher.Pipelined` | contrib/big_batch_search.py:349-379 | the one-ahead driver merges the same lists in the same order; it fails exactly on an empty range |
| `BatchSearch.RestoredListsRepeat` | contrib/big_batch_search.py:328-379 | a driver that ignores the completed set merges no list twice if and only if no restored list is in its range |
| `BatchSearch.AnyRestoredListRepeats` | contrib/big_batch_search.py:328-379 | with the range that checkpoints require, if and only if nothing was restored |
| `BatchSearch.RestoredRowIsWrong` | contrib/big_batch_search.py:328-347 | one list merged on top of itself: its query gets the nearest entry twice instead of the second one |
| `BatchSearch.BigBatchSearcher.Finalize` | contrib/big_batch_search.py:511-513 | the heaps become sorted rows of the k nearest |
| `AdaptiveRange.FilterTwice` | contrib/exhaustive_search.py:206-218 | filtering again with a tighter radius is filtering with the tighter radius |
| `AdaptiveRange.CutIsLoosest` | contrib/exhaustive_search.py:235-246 | the radius found by partitioning keeps at most the target, and every looser one more |
| `AdaptiveRange.CutIsTighter` | contrib/exhaustive_search.py:235-246 | it is strictly inside the radius so far |
| `AdaptiveRange.CutFits` | contrib/exhaustive_search.py:235-260 | after the cut there are at most target results |
| `AdaptiveRange.LooserKeepsMore` | contrib/exhaustive_search.py:235-260 | every radius between the cut and the one before lets more than the target in |
| `AdaptiveRange.ThresholdRadiusNres` | contrib/exhaustive_search.py:206-218 | the restricted block is a plain range search of the same queries at the tighter radius, counts included |
| `AdaptiveRange.ResultBatches.ApplyMaxres` | contrib/exhaustive_search.py:235-260 | all batches become plain range searches at the cut, in place; refused when there are not more results than the target |
| `AdaptiveRange.StackedIsPlain` | contrib/exhaustive_search.py:345-350 | the stacked batches are a plain range search over all queries |
| `AdaptiveRange.AdaptedFits` | contrib/exhaustive_search.py:301-332 | with min_results at most max_results the search never fails, the radius only tightens, and no more than max_results are kept after a batch |
| `AdaptiveRange.RangeSearchMaxResults` | contrib/exhaustive_search.py:263-352 | the result is a plain range search over all queries at the radius returned; it fails exactly without batches or when a cut has too few results |
| `HybridRange.RowIsExact` | contrib/exhaustive_search.py:82-86 | a row whose last entry is not inside the radius gives exactly the items inside it |
| `HybridRange.HybridIsExact` | contrib/exhaustive_search.py:75-101 | with the fallback every query gets exactly the items strictly inside the radius, in both directions |
| `HybridRange.NoFallbackExactIff` | contrib/exhaustive_search.py:58-66 | without a fallback a query is exact if and only if at most k hits are inside the radius |
| `HybridRange.Combiner.ComputeSizes` | faiss/utils/utils.cpp:591-611 | the limits are the cumulative sizes of the chosen results |
| `HybridRange.Combiner.WriteResult` | faiss/utils/utils.cpp:613-630 | the output is the chosen result of each query in turn |
| `HybridRange.RangeSearch` | contrib/exhaustive_search.py:58-149 | the combined result; with a fallback exact for every query |
| `SlidingWindow.ShiftAndAdd` | faiss/IVFlib.cpp:190-216 | the buffer loses its first entries and gains the new ones |
| `SlidingWindow.ShiftSizes` | faiss/IVFlib.cpp:255-257 | the sizes become those of the slices without the oldest |
| `SlidingWindow.SlidingIndexWindow.constructor` | faiss/IVFlib.cpp:180-188 | no slices; the lists hold what the index held |
| `SlidingWindow.SlidingIndexWindow.Step` | faiss/IVFlib.cpp:230-284 | ids, codes, sizes and total are those of the next window; refused steps change nothing and are refused in this order |
| `SlidingWindow.NeverOverdrawn` | faiss/IVFlib.cpp:231-233 | a run without refused steps never removes more slices than it added |
| `SlidingWindow.WindowIsQueue` | faiss/IVFlib.h:83-85 | on any index a step of a run takes the window to the next one: the slices added without the oldest ones removed, the first of them with the old content |
| `SlidingWindow.KeepsOrderIff` | faiss/IVFlib.cpp:230-284 | after a run the lists hold all of the old content and then the slices that are left, if and only if there was no old content or no slice has been removed |
| `SlidingWindow.SlidingIndexWindow.Run` | faiss/IVFlib.cpp:230-284 | after any run of steps on any index the lists hold the slices added by the steps that were not refused, without as many of the oldest as those removed, behind the old content until a slice has been removed; none is refused exactly for legal runs |
| `TwoLayerCodec.ChooseCodeSize` | faiss/Index2Layer.cpp:49-54 | the number of bytes is what encoding a list number writes; none is found beyond 2^48 lists |
| `TwoLayerCodec.ListNoRoundTrip` | faiss/IndexIVF.cpp:129-150 | every list number survives encoding |
| `TwoLayerCodec.EncodeListNo` | faiss/IndexIVF.cpp:129-137 | writes the little-endian bytes and nothing else |
| `TwoLayerCodec.DecodeListNo` | faiss/IndexIVF.cpp:139-150 | returns the number the bytes stand for; throws exactly when it names no list |
| `TwoLayerCodec.CodeRoundTrip` | faiss/Index2Layer.cpp:324-341 | both parts of a code come back |
| `TwoLayerCodec.NotMovedYet` | faiss/Index2Layer.cpp:317-321 | when the loop comes to a vector its packed code is still in place |
| `TwoLayerCodec.ExpandOne` | faiss/Index2Layer.cpp:317-321 | moving a code and writing its list number touches no code before it and keeps those behind it |
| `TwoLayerCodec.EncodeBlock` | faiss/Index2Layer.cpp:308-321 | the backward expansion leaves the code of every vector in turn |
| `TwoLayerCodec.SaEncode` | faiss/Index2Layer.cpp:289-322 | blocked or not, for every block size, the output is the code of every vector in turn and nothing else is written |
| `TwoLayerCodec.ItemsOfCodes` | faiss/Index2Layer.cpp:289-341 | reading back what was encoded gives list numbers and residual codes of all vectors, in range |
| `TwoLayerCodec.SaDecode` | faiss/Index2Layer.cpp:324-341 | every vector is the sum of the centroid of its list and its decoded residual; throws exactly when a list number is out of range |
| `TwoLayerCodec.TransferToIvf` | faiss/Index2Layer.cpp:119-135 | every vector ends in its list with its number and residual code, in order; refused unless sizes match and the target is empty |
| `Clustering.NoMassNoMoment` | faiss/Clustering.cpp:194-197 | with weights that are not negative a cluster without mass has no first moment |
| `Clustering.ComputeCentroids` | faiss/Clustering.cpp:135-204 | the mass of each cluster is the weight of its points, mass times centroid its first moment, and frozen centroids are untouched |
| `Clustering.SplitConserves` | faiss/Clustering.cpp:240-257 | splitting a cluster into an empty one keeps mass and first moment |
| `Clustering.PickCluster` | faiss/Clustering.cpp:231-239 | a picked cluster has a mass above one, for all draws |
| `Clustering.SplitClusters` | faiss/Clustering.cpp:216-263 | mass and first moment never change; if it ends no cluster is empty and the count is the number of clusters that were |
| `Clustering.MomentsAreWeightedSum` | faiss/Clustering.cpp:163-190 | cluster by cluster or point by point the first moment is the same |
| `Clustering.UpdateAndSplit` | faiss/Clustering.cpp:135-263 | after update and split masses times centroids add up to the weighted sum of the points that are not in frozen clusters |
| `LevelOrder.Histogram` | faiss/IndexBinaryHNSW.cpp:72-80 | the number of new points per level, up to the highest one |
| `LevelOrder.Accumulate` | faiss/IndexBinaryHNSW.cpp:82-86 | where the bucket of each level starts |
| `LevelOrder.PlaceNext` | faiss/IndexBinaryHNSW.cpp:89-93 | the place of the next point is free, inside its bucket, and disturbs no other |
| `LevelOrder.BucketSort` | faiss/IndexBinaryHNSW.cpp:88-93 | every bucket holds the points of its level |
| `LevelOrder.Shuffle` | faiss/IndexBinaryHNSW.cpp:108-111 | a level keeps its points for all draws, and other levels are untouched |
| `LevelOrder.AddVertices` | faiss/IndexBinaryHNSW.cpp:66-140 | batches come by falling level from the highest one, each with exactly the points of its level; the final assertion holds |
| `LevelOrder.EachPointOnce` | faiss/IndexBinaryHNSW.cpp:96-138 | every new point is inserted once |
| `PrecisionRecall.ProbeFinds` | contrib/evaluation.py:199-202 | the sorted search finds an id exactly when it is there; the wrapped index never matches |
| `PrecisionRecall.PrefixIsFilter` | contrib/evaluation.py:192-194 | the prefix of the sorted results is what filtering keeps |
| `PrecisionRecall.CorrectIsIntersectionIff` | contrib/evaluation.py:199-206 | counting correct results one by one gives the size of the intersection exactly when none is repeated |
| `PrecisionRecall.CountQuery` | contrib/evaluation.py:182-206 | ground truth, results and correct results of a query at every threshold |
| `PrecisionRecall.AverageInPlace` | contrib/evaluation.py:104-121 | overwriting masked counts with one gives the mean of the precisions and recalls; refused when a query without results has correct ones |
| `PrecisionRecall.OnePassIsFilterAndIntersect` | contrib/evaluation.py:151-222 | at a threshold all counts are those of filtering and intersecting exactly when no ground-truth id is repeated |
| `PrecisionRecall.PrOfTellsApart` | contrib/evaluation.py:80-123 | in both modes more correct results for the same ones give a larger precision and no smaller recall |
| `PrecisionRecall.OnePassPrIff` | contrib/evaluation.py:151-222 | precision and recall are those of filtering and intersecting if and only if no ground-truth id is repeated; otherwise the precision is larger |
| `PrecisionRecall.MultipleThresholds` | contrib/evaluation.py:151-222 | at each threshold, in both modes, precision and recall are those of filtering if and only if no ground-truth id is repeated among the results of a query; otherwise the precision is larger |

## Left out

- Result rows are separate arrays of entries where the C++ code has slices of two flat arrays, for distances and ids; a row of the hash searches is a slice of one array.
- Queries are searched one at a time in the hash and query-major searches: the parallel outer loops, statistics and search parameters are not modelled.
- The scan of a hash search is collected first and then consumed; the C++ code consumes each distance at once.
- Hash widths of 64 bits and more flips than bits are not modelled: their shifts are undefined in C++.
- `IndexBinaryMultiHash::reset`: it clears copies of the maps, so agreement of the tables with the storage is claimed over construction and adds only.
- `IndexBinaryMultiHash` search works on ids given by position in the storage; `IndexBinaryFlat` is a sequence of vectors.
- `BinaryIvf.SearchPerList`: repeated lists of a query are excluded, because two slots of a block would then cache the top of one row; the narrowing of keys to 32 bits is not modelled.
- `BinaryIvf.SearchQuery`: the inner-product branch and stored pairs are not modelled, because the scanner is L2-only and pairs change only the ids.
- Blocks of fixed k (1, 2, 4) are the same as the block of variable k here.
- `BucketSort.SortInPlace`: what the C++ code does after it has left one of its arrays is undefined and not modelled; a loop that has come to a pass that changes nothing is reported as endless.
- `ParallelBucketSort.SortWithThreads`: the rows that a thread finds for a bucket come in the order of its buckets, the threads write one after the other, and an exception inside the parallel region, which ends the process in C++, is a refusal.
- `SingleHash.IndexBinaryHash.Search`: nothing is promised about the row when an id of -1 is stored, because it marks an empty place of the heap.
- Numbers of combinations are unbounded where the C++ code stores the order as int; wall-clock time, repeated runs and batches of one experiment, and the check of the number of queries are not modelled.
- `OperatingPoints::merge_with` of a set with itself is excluded: the C++ loop would not end.
- Exceptions inside pipeline threads: they end the process, which is a crash of the model; the logging and timing of the steps is left out.
- The state machine of the pipeline gives a heap by the lists merged into it; `BatchSearch.RunPipeline` carries the heaps themselves. The size check of a checkpoint is left out because a run keeps its configuration.
- The number of pipeline steps is bounded for a process without crashes; a process that always crashes never ends.
- `BatchSearch.NearestOfSummary`: similarities to be maximised are not modelled in the batch search, where the heap order would be reversed.
- Defaults of min_results and max_results: they come from floating-point products; both are parameters here.
- The GPU search of the hybrid range search is an exhaustive k-nearest search with k at least one; an empty index and the compaction to 16 bits are not modelled.
- `SlidingWindow.SlidingIndexWindow.Step`: compatibility means the same lists, code size and full codes; other checks of the index type are not modelled, and the index itself is not used as a slice.
- `TwoLayerCodec.SaDecode`: the two quantizers are parameters, and a number of bytes is the one of the constructor; after a thrown error nothing is promised about the other vectors.
- `Clustering.SplitClusters`: whether the scan for a cluster ends depends on the draws; it stops without result when they are used up.
- `Clustering.ComputeCentroids`: clusters are updated by one thread; with several each one owns a range of clusters. Rounding is not modelled.
- `LevelOrder.AddVertices`: at least one new point, because the histogram of none is empty and its size minus one wraps around.
- `PrecisionRecall.MultipleThresholds`: averaging over no queries is excluded, because it has no value.
- Sorting by numpy and its argsort is an insertion sort here; ties may come in any order in the proofs.
- HNSW search and graph construction, product quantizers, direct maps, factory strings, GPU code, file formats, the C interface, benchmarks and demonstrations are not part of this model.
