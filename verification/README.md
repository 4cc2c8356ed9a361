# streams — a Dafny model of the sequential core

This project models the sequential core of the Go library `github.com/phantom820/streams`.
The library evaluates a lazy pipeline of operations (filter, map, limit, skip, distinct,
peek) over a slice supplied by a callback. The model covers these parts:

- **Operators.** The intermediate operators of package `operator` and the operator reordering `Sort` are in modules `Operator` and `Optimizer`. Module `Reordering` states what the reordering preserves: the elements a pipeline collects. The stages of the root package (`operator.go`, including `extendOperator`) are in module `Stage`. Every operator's private state is explicit: the Limit/Skip counter, the Distinct seen-set, and the arguments Peek's action received. That state is threaded from one call to the next.
- **Pipeline engine.** Module `Engine` holds the pipeline engine of two files. From `terminal_operator.go` it holds `applyOperations`, the short-circuiting application of a pipeline to one element, and the `reduce` loop as written (`Engine.ReduceFromFirst`). From `stream.go` it holds the sequential terminal loops: collect, count, forEach and the seeded reduce. `Terminal` holds the rest of `terminal_operator.go`: `subIntervals`, `groupCount`, `groupBy`, and an example run of the as-written `reduce` loop. `Transformer` holds the supplier transforms, and `Streams` holds `FromSlice` and `partition` from `stream.go`.
- **Sources and partitioning.**
  - `Sources` models the single-pass slice source, `collectSource`, and `partitionedSource`'s `Partition`, `At` and `Len`.
  - `Chunks` holds the chunk shape they share.
  - `Scatter` models the chunking loop of `scatter.go`, the per-partition workers, and the way partition results are combined. Partition results arrive in an arbitrary order, given as a permutation parameter.
- **Streams.** `Lifecycle` is the shared open / closed / terminated state machine with its coded errors. The three stream types built on it are `Sequential`, `Partitioned` and `Grouped`.

A Go panic is the `Err` of a `Result`. A supplier is modelled by the data it returns when a terminal operation invokes it. An action passed to Peek or ForEach is modelled by the sequence of arguments it receives. The parallel branch of a partitioned or grouped terminal operation is represented by `Delegated(maxRoutines)`, because the parallel helpers are not modelled.

## Model

| member | source | states |
|---|---|---|
| Lifecycle.StreamError.Code | error.go:8-14 | the five error kinds carry the codes 1 to 5 |
| Lifecycle.Check | sequential_stream.go:31-40 | a terminated stream reports StreamTerminated even though it is closed; a stream that is only closed reports StreamClosed; only a stream that is neither is valid |
| Lifecycle.Close | sequential_stream.go:26-28 | closing sets the closed flag, keeps the terminated flag and keeps "terminated implies closed" |
| Lifecycle.Terminate | sequential_stream.go:20-23 | terminating sets both flags |
| Operator.Commutative | operator/operator.go:199-208 | two operators commute exactly when one is a filter and the other a distinct, in either order |
| Operator.FilterCalls | operator/operator.go:47-55 | over any sequence of calls a filter returns its input kept exactly when the predicate holds, and has no state |
| Operator.MapCalls | operator/operator.go:189-196 | a map keeps every element and returns its image, with no state |
| Operator.PeekCalls | operator/operator.go:178-187 | peek keeps every element unchanged, and its action receives every argument once, in call order |
| Operator.LimitCalls | operator/operator.go:105-119 | Limit(n) keeps the call at position i exactly when the calls counted so far plus i are below n; the counter stops at n |
| Operator.SkipCalls | operator/operator.go:142-155 | Skip(n) rejects the call at position i exactly when the calls counted so far plus i are below n, and keeps every later one |
| Operator.DistinctSeen | operator/operator.go:58-76 | Distinct(false) adds every element it sees to its seen-set; Distinct(true) leaves its state unchanged |
| Operator.DistinctCalls | operator/operator.go:58-76 | Distinct(false) keeps an element exactly when it is neither in the starting seen-set nor earlier in the calls; Distinct(true) keeps everything |
| Optimizer.Sort | operator/operator.go:212-242 | the result is a rearrangement of the input: it has the input's length, and each slot holds an input operator, the one at a position below the input's length named by `SortIndices` |
| Optimizer.SortPermutes | operator/operator.go:212-242 | the reordering is a permutation of the input positions |
| Optimizer.SortSortsRuns | operator/operator.go:220-240 | every maximal run of neighbouring commuting operators is stably sorted by cost, and takes its operators from its own positions only |
| Optimizer.SortKeepsIsolated | operator/operator.go:220-240 | an operator that commutes with neither neighbour keeps its index |
| Optimizer.EveryPositionInRun | operator/operator.go:220-240 | every position lies in some maximal run of neighbouring commuting operators |
| Optimizer.SortSwapsBothPairs | operator/operator.go:212-242 | limit, distinct, filter, peek, distinct, filter reorders to 0, 2, 1, 3, 5, 4: each distinct-filter pair is swapped by cost and limit and peek stay |
| Optimizer.SortOnce | operator/operator.go:212-242 | distinct, distinct, filter takes slots 0, 2, 1 on one pass |
| Optimizer.SortTwice | operator/operator.go:212-242 | a second pass over that result moves the filter again |
| Optimizer.SortNotIdempotent | operator/operator.go:212-242 | Sort applied twice differs from Sort applied once |
| Reordering.FilterSurvivors | operator/operator.go:46-55 | a filter keeps exactly the values satisfying its predicate, in input order |
| Reordering.KeepAllSurvivors | operator/operator.go:66-67 | a distinct built as already distinct keeps every value |
| Reordering.DistinctSurvivors | operator/operator.go:57-76 | a fresh distinct keeps the first occurrence of every value, in input order |
| Reordering.FiltersAndDistinctsKeep | operator/operator.go:46-76 | a pipeline of filters and distincts, each starting fresh, keeps exactly the values that pass every filter, and of those only the first occurrences when some distinct removes repeats |
| Reordering.CommutingPairSwaps | operator/operator.go:198-208 | two operators reported as commuting keep the same elements of every input in either order, as the promise `(ab)*x = (ba)*x` says |
| Reordering.PermutedKeep | operator/operator.go:220-240 | any rearrangement of a stretch of filters and distincts keeps the same elements as the stretch |
| Reordering.SortedRunKeeps | operator/operator.go:220-240 | the slots Sort fills over a maximal run of commuting operators keep what that run keeps |
| Reordering.SortKeepsResults | operator/operator.go:210-242 | for every pipeline and input, the sorted pipeline collects exactly what the original collects, as the doc comment of Sort promises |
| Reordering.FilterRespectingEqualsCommutes | operator/operator.go:198-208 | when the filter never separates values the caller's `equals` identifies, filtering then deduplicating keeps what deduplicating then filtering keeps |
| Reordering.CoarseEqualsBreaksSwap | operator/operator.go:198-208 | a filter and a distinct count as commuting, yet with `equals` comparing parity and the filter `x > 1` the two orders keep `[3]` and `[]` of `[1, 3]` |
| Stage.LimitCalls | operator.go:71-106 | a fresh limit keeps exactly the first n calls, and its counter stops at n |
| Stage.SkipCalls | operator.go:109-144 | a fresh skip rejects exactly the first n calls and keeps the rest; a negative n keeps everything |
| Stage.FilterCalls | operator.go:42-48 | filter keeps an element unchanged exactly when the predicate holds, with no state |
| Stage.MapCalls | operator.go:61-68 | uniformMap keeps every element and returns its image |
| Stage.PeekCalls | operator.go:50-59 | peek keeps every element unchanged, and its action sees each one once, in order |
| Stage.DistinctCalls | operator.go:147-188 | distinct(false) keeps an element exactly when its hash key was not seen before and records it; distinct(true) keeps everything |
| Stage.DeduplicatedKeys | operator.go:147-188 | a fresh distinct keeps elements with pairwise different keys, loses no key, and records exactly the keys of its input |
| Stage.DistinctKeepsDistinct | operator.go:147-188 | distinct is the identity on a sequence whose keys are already pairwise different |
| Stage.DistinctTwice | operator.go:147-188 | two consecutive distinct stages with the same hash keep exactly what one keeps |
| Stage.Extend | operator.go:24-39 | a lifted stage keeps a slice only when the slice of its kept results is non-empty |
| Stage.ExtendLoop | operator.go:24-39 | the Go loop of extendOperator computes the state, the kept results and the keep flag of `Extend` |
| Stage.ExtendFilter | operator.go:24-48 | a lifted filter keeps a slice exactly when some value passes, and then keeps the passing values in order |
| Stage.KeptIsFilterSurvivors | operator.go:42-48 | the survivors of a filter are the values satisfying its predicate, in order |
| Stage.ExtendMap | operator.go:24-39 | a lifted map keeps every non-empty slice, with every value mapped |
| Engine.ApplyOperations | terminal_operator.go:8-18 | the loop computes the short-circuiting application of the pipeline to one element |
| Engine.ApplyAppend | stream.go:73-82 | applying `a + b` applies `a`, and then `b` only if `a` kept the element; a rejected element never reaches later operators |
| Engine.RunNoOps | stream.go:73-82 | with no operators every element is kept unchanged |
| Engine.RunConcat | stream.go:85-104 | running over `d1 + d2` runs over `d1`, then over `d2` from the states left behind |
| Engine.RunFusion | stream.go:73-104 | a pipeline `a + b` keeps what `b` keeps of what `a` kept: a stage sees only elements earlier stages kept |
| Engine.Collect | stream.go:96-104 | the loop returns the kept results in input order |
| Engine.Count | stream.go:85-93 | the loop returns the length of what Collect returns |
| Engine.ForEach | stream.go:107-113 | the action is called on exactly the kept results, in input order |
| Engine.Reduce | stream.go:116-129 | valid exactly when something is kept; the value is then the left fold over the kept results seeded by the first, and otherwise the zero value |
| Engine.ReduceFromFirst | terminal_operator.go:61-74 | as written: valid exactly when the first element is kept, and the later survivors are folded onto the first element's result or onto the zero value |
| Engine.FirstKeptSeeds | terminal_operator.go:61-74 | when the first element is kept, the as-written loop and the seeded fold over the survivors give the same value |
| Terminal.SubIntervals | terminal_operator.go:21-34 | an empty range gives no bounds; a zero count with a non-empty range is the division-by-zero panic; a negative count gives just `[n]`; otherwise k + 1 bounds from 0 to n |
| Terminal.SubIntervalsShape | terminal_operator.go:21-34 | for n > 0 and k >= 1 the bounds are non-decreasing, every gap is n / k, and the last gap also takes n % k |
| Terminal.SlicesCover | terminal_operator.go:21-34 | the slices cut along any such bounds concatenate back to the data |
| Terminal.GroupCount | terminal_operator.go:111-117 | the keys are exactly the group names, and each name maps to the length of the last group carrying it |
| Terminal.GroupBy | terminal_operator.go:192-202 | one non-empty group per key, with distinct names, each holding exactly the elements with that key in encounter order, and every element's key among the names |
| Terminal.ReduceSkipsRejectedFirst | terminal_operator.go:61-74 | over `[0, 2, 3]` behind a positive-only filter with multiplication, the loop as written yields `(0, false)` and the seeded fold yields `(6, true)` |
| Transformer.TransformSupplier | transformer.go:4-10 | the transformed supplier yields `f` of what the operations keep of the supplied data, and `f` of the data itself with no operations |
| Transformer.PartitionSupplierElements | transformer.go:22-30 | one slice `f(v)` per kept element `v`, in order, so the count equals the number of kept elements |
| Transformer.FlatMapSupplier | transformer.go:55-62 | the flat-mapped supplier yields the concatenation of the kept slices, and its length is the sum of their lengths |
| Streams.FromSlice | stream.go:38-54 | a concurrency below 1 is an IllegalConfig; exactly 1 gives a sequential stream; more gives a concurrent stream recording it; either way there are no operators |
| Streams.Partition | stream.go:57-70 | the loop computes the same bounds as `subIntervals`, including the division-by-zero panic and the negative count |
| Sources.NewSourceFromSlice | sources/sources.go:107-131 | a new source has not yet called its supplier |
| Sources.SupplierReadOnce | sources/sources.go:111-115 | the supplier is called once: re-assigning it before the first pull is seen, re-assigning it after the first pull has no effect |
| Sources.HasNextObserves | sources/sources.go:111-120 | HasNext never consumes an element, answers whether any remain, and asking twice answers the same |
| Sources.NextYields | sources/sources.go:121-128 | Next yields the first remaining element and consumes it, or fails with ErrNoNextElement when none remain |
| Sources.CollectSource | sources/sources.go:25-31 | draining a source returns its remaining elements in pull order and leaves it exhausted |
| Sources.At | sources/sources.go:72-78 | an index beyond the partitions fails with the index and the size; otherwise the partition at that index |
| Sources.CutEvery | sources/sources.go:56-66 | the loop cuts the data into consecutive slices of `size`, the last one 1 to `size` long |
| Sources.Partition | sources/sources.go:46-69 | an empty source gives 0 partitions; otherwise size = ceil(L / n) and count = ceil(L / size), between 1 and n; the partitions read back as the drained data |
| Sources.PartitionsReadBack | sources/sources.go:56-68 | each partition source yields its chunk, and together they yield the drained data |
| Chunks.ChunkCount | sources/sources.go:52-53 | consecutive chunks of `size` with a shorter non-empty last one number exactly ceil(L / size) |
| Chunks.PartitionCount | sources/sources.go:52-53 | for a non-empty input, ceil(L / ceil(L / n)) lies between 1 and n |
| Scatter.ChunkSource | scatter.go:24-42 | the loop ends exactly when the partition size is positive or the source is empty; it then cuts the data into ceil(L / size) chunks of the chunk shape, which concatenate back to the data |
| Scatter.ChunkingDiverges | scatter.go:27-36 | with partition size at most 0 and a non-empty source, every iteration dispatches another empty partition and consumes nothing |
| Scatter.GatherWorker | scatter.go:10-21 | a worker returns the in-order survivors of its partition |
| Scatter.PassedFlatten | scatter.go:10-21 | the concatenated per-partition survivors are the survivors of the concatenated partitions |
| Scatter.ScatterGather | scatter.go:8-50 | the gathered results are the per-partition results concatenated in arrival order, and there are as many as the survivors of the whole data |
| Scatter.GatherInOrder | scatter.go:44-49 | when results arrive in partition order, the gather is exactly the survivors of the data in order |
| Scatter.GatherPermutes | scatter.go:44-49 | in any arrival order the gathered results are a permutation of the survivors |
| Scatter.ScatterForEach | scatter.go:54-96 | the action is called on the partition results in arrival order, and on every kept element of the source exactly as often as it occurs there (a multiset equality) |
| Scatter.ActOnArrivals | scatter.go:90-95 | the nested action loop calls the action on each element of each arriving partition result, in that order |
| Scatter.CountWorker | scatter.go:163-174 | a worker counts the survivors of its partition |
| Scatter.ScatterCount | scatter.go:160-203 | the total equals the number of survivors of the whole data, whatever the arrival order |
| Scatter.ReduceWorker | scatter.go:103-118 | a worker yields nothing for a partition without survivors, and otherwise the seeded fold over its survivors |
| Scatter.CombinePartials | scatter.go:140-149 | combining the partials in arrival order yields the seeded fold over the non-empty partials in that order |
| Scatter.ScatterReduce | scatter.go:100-157 | `(zero, false)` exactly when no element survives; otherwise the seeded fold over the partials in arrival order |
| Scatter.ReduceInOrder | scatter.go:100-157 | for an associative function, folding the per-partition partials equals folding all survivors |
| Sequential.Derive | sequential_stream.go:58-193 | Filter, Map, Peek and Distinct validate first; on success the receiver is closed and the new open stream has the same source and the old operators followed by the new one |
| Sequential.Limit | sequential_stream.go:76-101 | after validation a negative count is an IllegalArgument that leaves the receiver as it was; otherwise a derivation with a limit |
| Sequential.Skip | sequential_stream.go:103-130 | after validation a negative count is an IllegalArgument that leaves the receiver as it was; otherwise a derivation with a skip |
| Sequential.DeriveTwice | sequential_stream.go:31-40 | deriving again from the receiver fails with StreamClosed, while the derived stream can be derived from |
| Sequential.NegativeCountKeepsOpen | sequential_stream.go:76-82 | after a rejected negative count the receiver can still be derived from |
| Sequential.TerminatedRejects | sequential_stream.go:31-40 | every operation on a terminated stream fails with StreamTerminated |
| Sequential.Collect | sequential_stream.go:269-284 | a valid stream returns what its operators keep of the source's elements, in order, and ends terminated; an invalid one fails and is left as it was |
| Sequential.Count | sequential_stream.go:212-227 | the number of kept elements, with the same life cycle |
| Sequential.ForEach | sequential_stream.go:196-209 | the action sees exactly the kept elements, in order, with the same life cycle |
| Sequential.Reduce | sequential_stream.go:230-266 | `(zero, false)` with no survivor; otherwise the left fold over the survivors seeded by the first, with the same life cycle |
| Sequential.ReduceSmall | sequential_stream.go:241-253 | one survivor reduces to itself, two reduce to `f(x, y)` |
| Sequential.AppendedStage | sequential_stream.go:86-97 | an appended operator sees only the elements earlier operators kept, starting from its fresh state |
| Sequential.LimitTakes | sequential_stream.go:86-97 | Limit(n) keeps the first n elements reaching it, not the first n of the source |
| Sequential.SkipDrops | sequential_stream.go:114-127 | Skip(n) drops the first n elements reaching it |
| Sequential.FilterKeeps | sequential_stream.go:58-74 | an appended filter keeps the elements reaching it that satisfy the predicate, in order |
| Partitioned.NewPartitionedStream | partitioned_stream.go:43-52 | the receiver is closed; the new stream is open, keeps supplier, parallel, maxRoutines and distinct, and appends the operator last |
| Partitioned.Derive | partitioned_stream.go:76-85 | an invalid receiver fails with its error; a valid one goes through `newPartitionedStream` |
| Partitioned.Filter | partitioned_stream.go:151-156 | an invalid receiver fails with its error; otherwise the receiver is closed and the open derived stream appends a filter on the values inside each slice, keeping every setting (its effect is `Partitioned.FilterInside`) |
| Partitioned.Peek | partitioned_stream.go:216-221 | an invalid receiver fails with its error; otherwise the receiver is closed and the open derived stream appends a whole-slice peek, keeping every setting (its effect is `Partitioned.PeekSlices`) |
| Partitioned.Map | partitioned_stream.go:120-125 | as written: the values inside each slice are mapped and the derived stream keeps the receiver's distinct flag |
| Partitioned.MapClearingDistinct | partitioned_stream.go:120-125 | as intended: the same derivation, with the distinct flag cleared |
| Partitioned.Distinct | partitioned_stream.go:159-166 | one distinct stage on the values inside each slice, the identity when the receiver is flagged distinct; the derived stream is flagged distinct |
| Partitioned.Limit | partitioned_stream.go:169-176 | after validation a negative count is an IllegalArgument; otherwise a whole-slice limit |
| Partitioned.Skip | partitioned_stream.go:179-184 | any count is accepted for a valid receiver |
| Partitioned.Parallelize | partitioned_stream.go:93-104 | n <= 1 is an IllegalConfig; otherwise an open parallel copy with maxRoutines n and the same supplier, operations and flag, without validating the receiver |
| Partitioned.ParallelizeUnchecked | partitioned_stream.go:93-104 | even a terminated receiver yields an open parallel copy |
| Partitioned.DeriveTwice | partitioned_stream.go:43-52 | deriving again from the receiver fails with StreamClosed |
| Partitioned.FlatMap | partitioned_stream.go:128-148 | the receiver is closed even when validation fails; the flat stream has no operations and its supplier yields the concatenation of the kept slices |
| Partitioned.Collect | partitioned_stream.go:107-116 | a valid stream returns the kept slices in supplier order and ends terminated; an invalid one fails and is left as it was |
| Partitioned.Count | partitioned_stream.go:187-197 | the number of kept slices, not of values |
| Partitioned.ForEach | partitioned_stream.go:200-212 | the action sees each kept slice once, in order |
| Partitioned.Reduce | partitioned_stream.go:225-237 | as written, through `reduce` of terminal_operator.go: the nil slice for an empty supplier; otherwise the later kept slices folded onto the first slice's result, or onto the nil slice when the first slice is rejected |
| Partitioned.ReduceCorrected | partitioned_stream.go:222-237 | as intended: the seeded fold over the kept slices, or the nil slice when none is kept |
| Partitioned.ReduceAfterSkip | partitioned_stream.go:225-237 | slices `["a"]`, `["b"]` behind Skip(1), reduced with `f(x, y) = x`: as written the nil slice, as intended `["b"]` |
| Partitioned.EachRun | operator.go:24-39 | a lifted stage over slices acts as the stage over their concatenation: its state runs across slices and no kept slice is empty |
| Partitioned.WholeRun | partitioned_stream.go:169-184 | a whole-slice stage treats each slice as one value |
| Partitioned.FilterInside | partitioned_stream.go:151-156 | an appended filter keeps the passing values in order and drops every slice it empties |
| Partitioned.MapInside | partitioned_stream.go:120-125 | an appended map maps every value |
| Partitioned.DistinctInside | partitioned_stream.go:159-166 | one seen-set across all slices: the values kept are a single distinct stage's over all values in order, with pairwise different keys and no key lost |
| Partitioned.DistinctWhenFlagged | partitioned_stream.go:159-166 | on a stream flagged distinct, Distinct passes every value through |
| Partitioned.LimitSlices | partitioned_stream.go:169-176 | Limit keeps the first n kept slices |
| Partitioned.SkipSlices | partitioned_stream.go:179-184 | Skip drops the first n kept slices; a negative count drops none |
| Partitioned.PeekSlices | partitioned_stream.go:216-221 | Peek passes every slice through, and its action sees each kept slice once, in order |
| Partitioned.MapKeepsDistinctFlag | partitioned_stream.go:120-125 | from the slices `["x"]` and `["y"]`, Distinct, a Map to "a", and Distinct again leave two equal values |
| Partitioned.DistinctAfterMapClearing | partitioned_stream.go:159-166 | with the flag cleared by Map, a later Distinct always leaves values with pairwise different keys |
| Grouped.Parallelize | grouped_stream.go:95-105 | n <= 1 is an IllegalConfig; otherwise an open parallel copy with the same supplier and operations whose distinct flag is false |
| Grouped.ParallelizeForgetsDistinct | grouped_stream.go:95-105 | a stream flagged distinct yields a parallel copy that is not flagged |
| Grouped.Collect | grouped_stream.go:108-117 | a valid stream returns the groups its operations keep, in supplier order, and ends terminated; an invalid one fails and is left as it was |
| Grouped.Count | grouped_stream.go:120-130 | each supplied group name maps to the length of its last group; the operations are not applied |
| Grouped.ForEach | grouped_stream.go:133-145 | the action sees each kept group once, in order |
| Grouped.CollectWithoutStages | grouped_stream.go:108-117 | with no operations Collect returns the supplied groups |
| Grouped.CountSeesRejectedGroups | grouped_stream.go:120-130 | a filter rejecting every group leaves nothing to collect, while Count still reports the supplied names |

## Left out

- Concurrency: `concurrent_stream.go`, the goroutines, channels and limiter of `scatter.go`, and the `parallel*` helpers of `terminal_operator.go` and `transformer.go` are not part of this model. Their results arrive as `Delegated(maxRoutines)`. `Scatter` models only the chunking and the combination step, with the arrival order of partition results as an explicit permutation.
- The mutex and atomic branches of the operators are not modelled. On a single thread they behave like the plain branches.
- `parallelReduce` is not part of this model. It recomputes `reduce` over the whole data rather than folding partitions.
- Scatter.ScatterGather: the worker function `f` is taken as a pure function. In Go it may carry operator state shared between goroutines.
- Infinite sources are not modelled, because the engines loop on `HasNext` with no exit. Sources are finite sequences.
- Floating point is not modelled. `math.Ceil` of a float quotient in `Partition` is integer ceiling division. The two agree for lengths below 2^53.
- Integer width is not modelled. Counters and lengths are unbounded.
- Sources.Partition: a count `n < 1` on a non-empty source is an error in the model. In Go it is a float division by zero or a negative slice size.
- `groupBy` does not model the order of groups: Go lists them in map iteration order, which is unspecified. The model lists them in first-encounter order, and the contract of `GroupBy` says nothing about that order.
- Sources.SupplierReadOnce: the slice the supplier returns is held as a value. In Go it shares its backing array with the caller, so writes into that slice after the first pull are seen; slice aliasing is not modelled.
- Grouped.Count: a parallel grouped Count is `Delegated`. The model does not state that `groupParallelCount` merges to the same map.
- Partitioned.FlatMap: the returned supplier's contents are given eagerly as the value it would yield. The returned `stream[T]` record type is declared outside the files modelled here; `FlatStream` stands for it.
- Stage state shared between a stream and its Parallelize copy is not modelled. The copy shares the operator closures in Go. Every terminal operation here starts each stage from its fresh state, as a stream evaluated once does.
- The sequential stream keeps its pipeline as one composed function (`pipeline` in `sequential_stream.go`). The model keeps the sequence of operators it was composed of, and `Pipeline` applies them in order.
- Operator hash types: Distinct of package `operator` and `Sequential.Distinct` (sequential_stream.go:168-193) use the caller's `equals` and integer `hashCode` over a hash set. Both are modelled with a Dafny set of values, which is value equality; the caller's `equals` and `hashCode` are dropped. `Reordering.DistinctBy` models a caller's `equals` only to show, under Findings, where the reordering needs value equality.
- Error message templating (`errors.go`, text/template) is not modelled. Only the integer codes of `error.go` are modelled.
- The `streams/` prototype package, `main.go`, `main/main.go` and the mocks are not part of this model.
- Streams.FromSlice: Go builds `sequentialStream` with fields `data` and `intermediateOperators`, which the struct in `sequential_stream.go` does not declare. It builds `concurrentStream` with `concurrency`, `data` and `intermediateOperators` (stream.go:48-52), none of which the struct in concurrent_stream.go:17-25 declares; that struct has `maxcConcurrency` instead. Only the kind, the concurrency asked for, the supplier and the empty operator list are modelled.
- The claim that `Sort` is idempotent is not made. `Optimizer.SortNotIdempotent` shows a pipeline on which a second pass changes the order.
- Partitioned.NewPartitionedStream: the operations are an immutable sequence. Go's `append(s.operations, operator)` (partitioned_stream.go:47) can share a backing array with the receiver, and `Parallelize` (partitioned_stream.go:93-104) shares the receiver's slice without closing it. So two streams derived from the same one can overwrite each other's last operation when the slice has spare capacity; slice aliasing is not modelled.
- Partitioned.Map as written copies the distinct flag, while the sibling `concurrentStream.Map` builds its mapped stream with `distinct: false` (concurrent_stream.go:126). The model follows the code of partitioned_stream.go and records the difference under Findings.

## Findings

| source | as written | input that shows it | evidently intended | confidence | as-written member | corrected member |
|---|---|---|---|---|---|---|
| terminal_operator.go:61-74 | `valid` is set only when the first element survives; later survivors are folded onto `x`, which is still the zero value when the first element was rejected | `[0, 2, 3]` behind a filter keeping positive values, reduced with multiplication: `(0, false)` although 2 and 3 survive | the seeded left fold over the survivors, valid exactly when one survives: `(6, true)` | not executed | Terminal.ReduceSkipsRejectedFirst | Engine.Reduce |
| partitioned_stream.go:225-237 | Reduce calls `reduce` of terminal_operator.go, which seeds the accumulator only from a kept first slice | slices `["a"]`, `["b"]` behind Skip(1), reduced with `f(x, y) = x`: the nil slice, although `["b"]` is kept | the seeded fold over the kept slices: `["b"]` | not executed | Partitioned.ReduceAfterSkip | Partitioned.ReduceCorrected |
| partitioned_stream.go:120-125 | Map copies the receiver's `distinct` flag, so a Distinct after a Map is the identity | slices `["x"]`, `["y"]`; Distinct; Map every value to "a"; Distinct: two equal values "a" remain | Map clears the flag, so a later Distinct removes duplicates | not executed | Partitioned.MapKeepsDistinctFlag | Partitioned.DistinctAfterMapClearing |
| operator/operator.go:198-208 | `commutative` reports a filter and a distinct as commuting whatever the caller's `equals`, and Sort swaps them by cost | `[1, 3]`, `equals` comparing parity, filter `x > 1`: filter then distinct keeps `[3]`, distinct then filter keeps `[]` | the swap only when the filter never separates values `equals` identifies, as with value equality | not executed | Reordering.CoarseEqualsBreaksSwap | Reordering.FilterRespectingEqualsCommutes |
