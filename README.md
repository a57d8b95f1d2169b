# jayield lazy-sequence engine, modelled in Dafny

jayield builds lazy sequence pipelines (`IntQuery`, `LongQuery`, `Query<T>`).
Each pipeline can be consumed in two ways:

- **push**: `traverse` drives a callback over every remaining element.
  `shortCircuit` is the variant that a callback stops early with the finish signal.
- **pull**: one element per call, through `tryAdvance` or `hasNext`/`next`.

Both protocols consume the same upstream. Pulling some elements and then
traversing should therefore produce every element exactly once, in order.

This project models the engine's core:

- the list source adapter `AdvancerList`;
- the operators filter, map, mapToInt, flatMap, concat, zip, skip and the two distinct advancers;
- the terminal operations of `IntQuery`;
- the user extensions `collapse`, `oddTrav`, `collapseAdv` and `oddAdv` from the test sources.

How the model is built:

- Every operator's upstream is a `Queries.Query<T>`. Its field `rest` holds the elements neither protocol has produced yet.
- Callbacks are total Dafny functions. The elements an operation yields are returned as a sequence.
- Each operator class with its own state has a ghost `Pending()`: the elements it still has to produce.
  - Pull methods promise `out + Pending() == old(Pending())`.
  - Push methods promise `out == old(Pending())`, or state exactly how they depart from it.
- Methods named `...PullThenPush` build an operator over a fresh query. They pull `k` times, then traverse. They prove what the two phases produce together.

Modules:

- Specifications of what each operator produces: `Sequences`, `DistinctSpec`, `Reductions`.
- Operator classes: `Queries`, `FilterOps`, `MapOps`, `FlatMapOps`, `ConcatOps`, `ZipOps`, `SkipOps`, `DistinctOps`, `IntQueryOps`, `UserExt`.

Zip's push does not stop when `other` runs out. It walks all of `upstream`; an element that finds `other` exhausted is dropped, and the walk goes on to the next one (`IntAdvancerZip.java:48`).

## Model

| member | source | states |
|---|---|---|
| Queries.Query.TryAdvance | src/main/java/org/jayield/primitives/intgr/IntQuery.java:134-136 | a pull yields the head of what is left and returns true, or yields nothing and returns false exactly when nothing is left |
| Queries.Query.Traverse | src/main/java/org/jayield/primitives/intgr/IntQuery.java:126-128 | a push yields every remaining element once, in order, and exhausts the query |
| Queries.Query.ShortCircuit | src/main/java/org/jayield/primitives/intgr/IntQuery.java:417-423 | pushes elements until the callback raises the finish signal, which is caught. The element that raised it is the last one pushed, and every earlier one continued. The elements after it stay unconsumed. Without the signal the query is exhausted |
| Queries.Query.HasNext | src/main/java/org/jayield/advs/AdvancerDistinct.java:57 | the upstream peek is true exactly when an element is left, and consumes nothing |
| Queries.Query.Next | src/main/java/org/jayield/advs/AdvancerDistinct.java:58 | the upstream `next` returns the head and consumes it. On an exhausted upstream it fails with no-such-element and consumes nothing |
| Queries.QueryPullThenPush | src/main/java/org/jayield/primitives/intgr/IntQuery.java:126-136 | k pulls yield the first min(k, n) elements. The traversal after them yields the rest, so together they give each element once, in order |
| Queries.AdvancerList.constructor | src/main/java/org/jayield/advs/AdvancerList.java:30-33 | the iterator starts at index 0 of the list |
| Queries.AdvancerList.TryAdvance | src/main/java/org/jayield/advs/AdvancerList.java:43-47 | false with nothing yielded once the iterator is exhausted. Otherwise yields the next list element and moves the iterator by one |
| Queries.AdvancerList.Traverse | src/main/java/org/jayield/advs/AdvancerList.java:36-40 | throws the illegal-state error exactly when the iterator has no next element, an empty list included. Otherwise yields the whole list from index 0. The iterator is left where it was |
| Queries.ListPullAll | src/main/java/org/jayield/advs/AdvancerList.java:30-33 | on a list of length n, exactly n pulls succeed, yielding the list in order |
| Queries.ListPullThenPush | src/main/java/org/jayield/advs/AdvancerList.java:36-47 | after k pulls of a longer list, the traversal still yields the whole list, so the first k elements are produced twice |
| Queries.ListDuplicatesExample | src/main/java/org/jayield/advs/AdvancerList.java:39 | on the list [1, 2], one pull followed by a traversal produces [1, 1, 2] |
| FilterOps.AdvancerFilter.Traverse | src/main/java/org/jayield/primitives/intgr/ops/IntAdvancerFilter.java:37-43 | yields exactly the upstream elements that satisfy p, in order, and exhausts the upstream |
| FilterOps.AdvancerFilter.TryAdvance | src/main/java/org/jayield/primitives/intgr/ops/IntAdvancerFilter.java:46-58 | true exactly when it yields an element, and at most one. It returns false only when the upstream has run out. Every upstream element it discards fails p. What it yields is the next element of the filtered upstream |
| FilterOps.FilterPullThenPush | src/main/java/org/jayield/primitives/intgr/ops/IntAdvancerFilter.java:37-58 | k pulls and then a traversal produce the filtered upstream once, in order. The pulls yield min(k, matches) of its elements |
| Sequences.Filter | src/main/java/org/jayield/primitives/intgr/ops/IntAdvancerFilter.java:39-41 | a filtered sequence is never longer than its input |
| Sequences.FilterAllSatisfy | src/main/java/org/jayield/primitives/intgr/ops/IntAdvancerFilter.java:39 | every element the filter keeps satisfies p |
| Sequences.FilterAppend | src/main/java/org/jayield/primitives/intgr/ops/IntAdvancerFilter.java:38-42 | filtering distributes over concatenation, so pulling and pushing can split the upstream anywhere |
| Sequences.FilterMembers | src/main/java/org/jayield/primitives/intgr/ops/IntAdvancerFilter.java:39-41 | a value is in the output if and only if it is in the input and satisfies p |
| Sequences.FilterIsSubsequence | src/main/java/org/jayield/primitives/intgr/ops/IntAdvancerFilter.java:38-42 | the output is an order-preserving subsequence of the input |
| MapOps.AdvancerMap.Traverse | src/main/java/org/jayield/primitives/dbl/ops/DoubleAdvancerMap.java:37-39 | yields `mapper(e)` for each upstream element `e`: the same length as the upstream and `mapper` applied position by position |
| MapOps.AdvancerMap.TryAdvance | src/main/java/org/jayield/primitives/dbl/ops/DoubleAdvancerMap.java:42-44 | returns what the upstream pull returns. When the upstream yields an item, this yields `mapper(item)` and nothing else changes |
| MapOps.MapPullThenPush | src/main/java/org/jayield/primitives/dbl/ops/DoubleAdvancerMap.java:28-44 | k pulls and then a traversal map every upstream element exactly once, in order. The operator keeps no state of its own |
| MapOps.TraversableMapToInt.Traverse | src/main/java/org/jayield/operations/TraversableMapToInt.java:42-44 | yields `mapper(e)` for each source element, in source order. Nothing is filtered, and an empty source yields nothing |
| Sequences.Map | src/main/java/org/jayield/primitives/dbl/ops/DoubleAdvancerMap.java:38 | a mapped sequence has the input's length |
| Sequences.MapAt | src/main/java/org/jayield/primitives/dbl/ops/DoubleAdvancerMap.java:38 | element i of the output is `mapper` applied to element i of the input |
| Sequences.MapAppend | src/main/java/org/jayield/primitives/dbl/ops/DoubleAdvancerMap.java:38-43 | mapping distributes over concatenation |
| FlatMapOps.AdvancerFlatMap.constructor | src/main/java/org/jayield/primitives/intgr/advs/IntAdvancerFlatMap.java:31-35 | the current sub-query starts out empty and is distinct from the upstream |
| FlatMapOps.AdvancerFlatMap.Traverse | src/main/java/org/jayield/primitives/intgr/advs/IntAdvancerFlatMap.java:38-40 | yields the concatenation of `mapper(e)` over the upstream elements, in order. The current sub-query is neither read nor changed |
| FlatMapOps.AdvancerFlatMap.TryAdvance | src/main/java/org/jayield/primitives/intgr/advs/IntAdvancerFlatMap.java:43-49 | drains the current sub-query before pulling another upstream element, and skips empty sub-queries. It yields at most one element. It returns false exactly when the sub-query and the upstream are both exhausted. What it yields is the next element of the flattened sequence |
| FlatMapOps.AdvancerFlatMap.TraverseResumed | src/main/java/org/jayield/primitives/intgr/advs/IntAdvancerFlatMap.java:38-40 | a corrected push: the rest of the current sub-query, then the sub-queries still to come. Nothing pending is lost |
| FlatMapOps.FlatMapPullThenPush | src/main/java/org/jayield/primitives/intgr/advs/IntAdvancerFlatMap.java:38-49 | k pulls and then the corrected traversal produce the flat-map of the upstream once, in order |
| FlatMapOps.FlatMapPullThenPushAsWritten | src/main/java/org/jayield/primitives/intgr/advs/IntAdvancerFlatMap.java:38-40 | flat-mapping `x -> [x, x]` over [1, 2], one pull yields [1]. The traversal as written then yields [2, 2], and the second 1 is lost |
| Sequences.FlatMapIsFlattenOfMap | src/main/java/org/jayield/primitives/intgr/advs/IntAdvancerFlatMap.java:39 | flat-map is the flattening of the mapped sub-sequences |
| Sequences.FlatMapAppend | src/main/java/org/jayield/primitives/intgr/advs/IntAdvancerFlatMap.java:39 | flat-map distributes over concatenation |
| Sequences.FlatMapDoubles | src/main/java/org/jayield/primitives/intgr/advs/IntAdvancerFlatMap.java:39 | flat-mapping `x -> [x, x]` over [1, 2] gives [1, 1, 2, 2] |
| ConcatOps.AdvancerConcat.Traverse | src/main/java/org/jayield/primitives/intgr/advs/IntAdvancerConcat.java:18-21 | yields all of `first`, then all of `second`. For distinct queries the count is the sum of their counts |
| ConcatOps.AdvancerConcat.TryAdvance | src/main/java/org/jayield/primitives/intgr/advs/IntAdvancerConcat.java:24-26 | consults `second` only when `first` yields nothing. When `first` has an element, that element is yielded and `first` loses exactly its head, with `second` untouched. Otherwise `first` stays empty, and `second` yields its head and loses exactly it. It returns false exactly when both sides are exhausted, leaving both empty. This also holds when both sides are the same query |
| ConcatOps.ConcatPullThenPush | src/main/java/org/jayield/primitives/intgr/advs/IntAdvancerConcat.java:18-26 | k pulls and then a traversal produce `first` followed by `second`, each element once |
| ZipOps.AdvancerZip.HasNext | src/main/java/org/jayield/primitives/intgr/advs/IntAdvancerZip.java:36-38 | true if and only if both upstream and other have a next element. Nothing is consumed |
| ZipOps.AdvancerZip.NextInt | src/main/java/org/jayield/primitives/intgr/advs/IntAdvancerZip.java:41-43 | for two queries it returns `zipper(a, b)` of their heads, and each side loses exactly its head. With upstream exhausted it fails and consumes nothing. With only other exhausted it fails after upstream's head is gone. A query zipped with itself gives its first two elements to one pair, or fails with its single element consumed |
| ZipOps.AdvancerZip.Traverse | src/main/java/org/jayield/primitives/intgr/advs/IntAdvancerZip.java:46-51 | yields the positional zip: its length is the minimum of the two lengths and its i-th element is `zipper(upstream[i], other[i])`. All of upstream is walked, and other gives up exactly as many elements as pairs yielded |
| ZipOps.ZipPullThenPush | src/main/java/org/jayield/primitives/intgr/advs/IntAdvancerZip.java:36-51 | k pulls, each guarded by `hasNext`, and then a traversal produce the zip of both sides once, in order |
| Sequences.ZipWith | src/main/java/org/jayield/primitives/intgr/advs/IntAdvancerZip.java:47-50 | the zip is as long as the shorter side |
| Sequences.ZipAt | src/main/java/org/jayield/primitives/intgr/advs/IntAdvancerZip.java:49 | pair i is `zipper` applied to the elements at position i of both sides |
| Sequences.ZipWithSnoc | src/main/java/org/jayield/primitives/intgr/advs/IntAdvancerZip.java:48-49 | one more upstream element adds a pair exactly when other still has an element at that position |
| Sequences.ZipAddExample | src/main/java/org/jayield/primitives/intgr/advs/IntAdvancerZip.java:48-49 | zipping [1, 2, 3] with [10, 20] by addition gives [11, 22] |
| SkipOps.AdvancerSkip.constructor | src/main/java/org/jayield/primitives/dbl/advs/DoubleAdvancerSkip.java:29-33 | `index` starts at 0 |
| SkipOps.AdvancerSkip.Traverse | src/main/java/org/jayield/primitives/dbl/advs/DoubleAdvancerSkip.java:41-48 | increments `index` for every upstream element and yields exactly those seen at an index of at least n. So it continues where pulling left off and does not skip again |
| SkipOps.AdvancerSkip.TryAdvance | src/main/java/org/jayield/primitives/dbl/advs/DoubleAdvancerSkip.java:50-55 | discards upstream elements until `index` reaches n, then returns one upstream pull. Afterwards `index` is at least n, so skipping happens once |
| SkipOps.SkipPullThenPush | src/main/java/org/jayield/primitives/dbl/advs/DoubleAdvancerSkip.java:35-55 | k pulls and then a traversal produce the upstream without its first n elements |
| Sequences.Skip | src/main/java/org/jayield/primitives/dbl/advs/DoubleAdvancerSkip.java:44 | the length left after skipping: all of it for n <= 0, nothing for n beyond the end, otherwise the length minus n |
| Sequences.SkipIsSuffix | src/main/java/org/jayield/primitives/dbl/advs/DoubleAdvancerSkip.java:43-47 | what is left is a suffix of the input, in order |
| Sequences.SkipSnoc | src/main/java/org/jayield/primitives/dbl/advs/DoubleAdvancerSkip.java:44-45 | one more upstream element is yielded exactly when n elements precede it |
| Sequences.SkipPastEnd | src/main/java/org/jayield/primitives/dbl/advs/DoubleAdvancerSkip.java:52-54 | skipping past the end leaves nothing, and this is not an error |
| DistinctOps.AdvancerDistinct.constructor | src/main/java/org/jayield/advs/AdvancerDistinct.java:26-34 | empty membership set, flags cleared, no current element |
| DistinctOps.AdvancerDistinct.Move | src/main/java/org/jayield/advs/AdvancerDistinct.java:55-62 | sets `moved`. It reads upstream elements into `curr` and returns true at the first one not yet in `mem`, which it adds. The upstream is left just after that element, or exhausted when there is none, in which case it returns false with `mem` unchanged |
| DistinctOps.AdvancerDistinct.HasNext | src/main/java/org/jayield/advs/AdvancerDistinct.java:37-42 | once finished it stays false and touches nothing. While a look-ahead is held it is true without touching upstream. Otherwise it moves, leaving the upstream just after the first new element, sets `moved`, and records a failed move as finished (and a successful one as not finished). It is true exactly when something is pending, and nothing pending is lost |
| DistinctOps.AdvancerDistinct.Next | src/main/java/org/jayield/advs/AdvancerDistinct.java:45-49 | fails with index-out-of-bounds when nothing is pending, and the advancer is then finished. Otherwise it returns the next distinct element, which is a member of `mem`, and clears `moved`. The upstream is untouched when a look-ahead was held or the advancer had finished; otherwise it is left just after the first new element |
| DistinctOps.AdvancerDistinct.Traverse | src/main/java/org/jayield/advs/AdvancerDistinct.java:64-69 | yields the upstream values not yet in `mem`, each once, and adds them. `mem` only grows, and every yielded value is in it. Without a held look-ahead this is everything pending |
| DistinctOps.AdvancerDistinct.TraverseResumed | src/main/java/org/jayield/advs/AdvancerDistinct.java:64-69 | a corrected push: a look-ahead held by `hasNext` first, then the rest. Nothing pending is lost |
| DistinctOps.DistinctPullThenPush | src/main/java/org/jayield/advs/AdvancerDistinct.java:27-69 | k calls of `next` and then a traversal produce every distinct value once, in order of first occurrence. A value produced by `next` is never produced again |
| DistinctOps.DistinctPeekThenPush | src/main/java/org/jayield/advs/AdvancerDistinct.java:37-69 | after a `hasNext` on a non-empty query, the traversal as written yields the distinct values without their first. The corrected traversal yields all of them |
| DistinctOps.DistinctPeekThenPushExample | src/main/java/org/jayield/advs/AdvancerDistinct.java:65-69 | on [1, 2], `hasNext` returns true and then the traversal yields only [2] |
| DistinctOps.DistinctPeekPushNextExample | src/main/java/org/jayield/advs/AdvancerDistinct.java:37-69 | on [1, 2], `hasNext`, then a traversal yielding [2], then `next` returning 1: the held element comes out late, after the traversal and out of order |
| DistinctSpec.DistinctFrom | src/main/java/org/jayield/advs/AdvancerDistinct.java:66-68 | the distinct output is never longer than its input |
| DistinctSpec.FirstNew | src/main/java/org/jayield/advs/AdvancerDistinct.java:57-59 | where a move stops: every element before the index is already a member, and the element at it, if any, is not |
| DistinctSpec.DistinctFromAtFirstNew | src/main/java/org/jayield/advs/AdvancerDistinct.java:57-59 | the distinct output starts with the element a move stops at and continues with what the move leaves upstream |
| DistinctSpec.DistinctFromMembers | src/main/java/org/jayield/advs/AdvancerDistinct.java:58-67 | the output holds exactly the values of the input that are not in `mem`, each once |
| DistinctSpec.DistinctFromSnoc | src/main/java/org/jayield/advs/AdvancerDistinct.java:67 | one more element is emitted exactly when it is new to `mem` and to the elements before it |
| DistinctSpec.DistinctFromOfDistinct | src/main/java/org/jayield/advs/AdvancerDistinct.java:67 | a repeat-free sequence disjoint from `mem` passes through unchanged |
| DistinctSpec.DistinctIdempotent | src/main/java/org/jayield/advs/AdvancerDistinct.java:65-69 | applying distinct twice is applying it once |
| DistinctOps.LongAdvancerDistinct.Move | src/main/java/org/jayield/primitives/lng/advs/LongAdvancerDistinct.java:36-44 | sets `currLong` to each upstream element it reads. It returns true at the first one not in `mem`, adding it, and leaves the upstream just after it. Otherwise it returns false with the upstream exhausted |
| DistinctOps.LongAdvancerDistinct.Traverse | src/main/java/org/jayield/primitives/lng/advs/LongAdvancerDistinct.java:47-53 | yields the first occurrence of each value not yet in `mem`, in order, and adds every upstream value to `mem` |
| DistinctOps.LongDistinctMoveThenPush | src/main/java/org/jayield/primitives/lng/advs/LongAdvancerDistinct.java:25-53 | successful moves, each contributing `currLong`, followed by a traversal produce every distinct value once |
| IntQueryOps.ToList | src/main/java/org/jayield/primitives/intgr/IntQuery.java:218-222 | every element, in traversal order |
| IntQueryOps.ToArray | src/main/java/org/jayield/primitives/intgr/IntQuery.java:206-213 | a new array with the list's length and elements, in order |
| IntQueryOps.Sorted | src/main/java/org/jayield/primitives/intgr/IntQuery.java:196-201 | a new query over an ascending permutation of the elements |
| IntQueryOps.ReduceWith | src/main/java/org/jayield/primitives/intgr/IntQuery.java:275-288 | the left fold of the accumulator over the elements in traversal order, starting from the identity |
| IntQueryOps.Reduce | src/main/java/org/jayield/primitives/intgr/IntQuery.java:262-269 | empty exactly when the first pull fails. Otherwise the fold of the remaining elements seeded with the first |
| IntQueryOps.Sum | src/main/java/org/jayield/primitives/intgr/IntQuery.java:358-360 | the mathematical sum of the elements, wrapped around to a 32-bit int |
| IntQueryOps.Min | src/main/java/org/jayield/primitives/intgr/IntQuery.java:293-303 | empty exactly for an empty query. Otherwise an element no larger than every element |
| IntQueryOps.Max | src/main/java/org/jayield/primitives/intgr/IntQuery.java:308-318 | empty exactly for an empty query. Otherwise an element no smaller than every element |
| IntQueryOps.Count | src/main/java/org/jayield/primitives/intgr/IntQuery.java:323-335 | the number of elements the traversal pushes |
| IntQueryOps.StopAtMatch | src/main/java/org/jayield/primitives/intgr/IntQuery.java:449-454 | the `anyMatch` callback raises the finish signal exactly on elements satisfying p |
| IntQueryOps.StopAtMismatch | src/main/java/org/jayield/primitives/intgr/IntQuery.java:403-408 | the `allMatch` callback raises the finish signal exactly on elements failing p |
| IntQueryOps.AnyMatch | src/main/java/org/jayield/primitives/intgr/IntQuery.java:447-456 | true if and only if some element satisfies p. The traversal stops at the first match and leaves the later elements unconsumed. An empty query gives false |
| IntQueryOps.AllMatch | src/main/java/org/jayield/primitives/intgr/IntQuery.java:401-410 | true if and only if no element fails p, so true on an empty query. The traversal stops at the first failure |
| IntQueryOps.NoneMatch | src/main/java/org/jayield/primitives/intgr/IntQuery.java:434-436 | the negation of `anyMatch`: true if and only if no element satisfies p. When false, the traversal stopped at the first match and the later elements stay unconsumed; when true, the query is exhausted |
| IntQueryOps.FindFirst | src/main/java/org/jayield/primitives/intgr/IntQuery.java:470-476 | consumes at most one element and returns it, or empty when there is none |
| IntQueryOps.ThenQuery.TryAdvance | src/main/java/org/jayield/primitives/intgr/IntQuery.java:566-567 | a pull on the query `then(next)` builds always fails as unsupported, consuming nothing |
| IntQueryOps.ThenQuery.Traverse | src/main/java/org/jayield/primitives/intgr/IntQuery.java:565-570 | the push is what `next` makes of the upstream's elements |
| Reductions.FoldLeftSnoc | src/main/java/org/jayield/primitives/intgr/IntQuery.java:280-282 | one more element folds into the accumulated value, as the box accumulator does per element |
| Reductions.Wrap32 | src/main/java/org/jayield/primitives/intgr/IntQuery.java:359 | the wrapped value is a Java int, equal to the input when the input is one, and congruent to it modulo 2^32 |
| Reductions.WrapAdd | src/main/java/org/jayield/primitives/intgr/IntQuery.java:359 | wrapping an intermediate sum does not change the wrapped total |
| Reductions.FoldAddIsWrappedSum | src/main/java/org/jayield/primitives/intgr/IntQuery.java:358-360 | folding int addition from a Java int gives the mathematical sum, wrapped to 32 bits |
| Reductions.InsertSorted | src/main/java/org/jayield/primitives/intgr/IntQuery.java:198 | inserting into an ascending sequence keeps it ascending and adds the element once |
| Reductions.SortSeq | src/main/java/org/jayield/primitives/intgr/IntQuery.java:198 | the sorted sequence is ascending and a permutation of the input |
| Reductions.SortSeqOfSorted | src/main/java/org/jayield/primitives/intgr/IntQuery.java:198 | sorting an already ascending sequence changes nothing |
| UserExt.Collapse | src/test/java/org/jayield/primitives/lng/UserExt.java:30-40 | `collapse` (the long version, and equally the int version in `intgr/UserExt.java`): the traversal yields the collapsed input and exhausts the source |
| UserExt.CollapseFrom | src/test/java/org/jayield/primitives/lng/UserExt.java:33-38 | the collapsed sequence is never longer than its input |
| UserExt.CollapseSnoc | src/test/java/org/jayield/primitives/intgr/UserExt.java:30-33 | an item is emitted exactly when it differs from the last emitted item, or when nothing has been emitted yet |
| UserExt.CollapseKeepsFirst | src/test/java/org/jayield/primitives/intgr/UserExt.java:30-34 | the first item is always emitted |
| UserExt.CollapseNoAdjacentDuplicates | src/test/java/org/jayield/primitives/intgr/UserExt.java:30-34 | the output never holds two equal adjacent values |
| UserExt.CollapseIsSubsequence | src/test/java/org/jayield/primitives/intgr/UserExt.java:29-34 | the output is an order-preserving subsequence of the input |
| UserExt.CollapseOfNoAdjacentDuplicates | src/test/java/org/jayield/primitives/intgr/UserExt.java:30-33 | an input without equal adjacent values passes through unchanged |
| UserExt.LastEmittedIsLastRead | src/test/java/org/jayield/primitives/intgr/UserExt.java:30-33 | after any non-empty prefix, the box holds the last item read |
| UserExt.CollapseFromInitial | src/test/java/org/jayield/primitives/lng/UserExt.java:55-62 | `collapseAdv` agrees with `collapse`, except that it drops a leading item equal to the box's initial value |
| UserExt.FirstDiffering | src/test/java/org/jayield/primitives/lng/UserExt.java:58-59 | where a pull of `collapseAdv` stops: every item before the index equals `prev`, and the item at it, if any, differs |
| UserExt.CollapseFromAtFirstDiffering | src/test/java/org/jayield/primitives/lng/UserExt.java:58-63 | collapsing from `prev` starts with the item a pull stops at and continues from just after it |
| UserExt.CollapseAdvancer.TryAdvance | src/test/java/org/jayield/primitives/lng/UserExt.java:56-66 | yields at most one item and returns true exactly when it yields one. It skips items equal to `prev` and yields the first that differs, which replaces `prev` for later calls. `src` is left just after the yielded item. It returns false only when the source runs out, leaving it exhausted |
| UserExt.CollapseAdvPull | src/test/java/org/jayield/primitives/lng/UserExt.java:54-67 | k pulls yield a prefix of the collapsed source, one item per pull while any remain |
| UserExt.OddPositions | src/test/java/org/jayield/primitives/lng/UserExt.java:45-50 | half the input's length, rounded down |
| UserExt.OddPositionsAt | src/test/java/org/jayield/primitives/lng/UserExt.java:46-49 | element i of the output is element 2i + 1 of the input |
| UserExt.OddPositionsSnoc | src/test/java/org/jayield/primitives/lng/UserExt.java:46-49 | one more item is emitted exactly when it lands on an odd position |
| UserExt.OddTrav | src/test/java/org/jayield/primitives/lng/UserExt.java:42-52 | the traversal yields exactly the items at positions 1, 3, 5, and so on |
| UserExt.OddAdv | src/test/java/org/jayield/primitives/lng/UserExt.java:69-75 | false with nothing yielded when fewer than two items are left. Otherwise the first pull's item is discarded and the second pull's is returned, so it yields the item at position 1. `src` loses two items, or all of them when fewer are left |
| UserExt.OddAdvPull | src/test/java/org/jayield/primitives/lng/UserExt.java:69-75 | k pulls yield the items at odd positions, in order, one per pull while any remain |

## Left out

- Host-stream bridges (`IntAdvancerStream`, `DoubleAdvancerStream`, `LongAdvancerStream`, `fromStream`/`toStream`) wrap JDK streams whose behaviour is not visible here.
- `AsyncQueryFlatMapConcat` is asynchronous plumbing over futures.
- `average`, `asDoubleQuery`, `mapToDouble` and `summaryStatistics` rest on floating point and on JDK statistics classes.
- `mapToLong` builds its query through `LongAdvancer.from`/`LongTraverser.from` (`IntQuery.java:495-496`), which are not part of this model; it would only repeat the generic map.
- `mapToObj` wraps an `IntAdvancerMapToObj` as both advancer and traverser (`IntQuery.java:166-168`); that class is not part of this model, and it too would only repeat the generic map.
- `boxed` re-wraps the same advancer and traverser in a `Query` (`IntQuery.java:524-525`); it changes only the element type, which the model does not distinguish.
- `TraversableMapToInt.intAdvancer` delegates to `AdvancerExtensions.mapToInt`, which is not part of this model.
- `AbstractLongAdvancer`, which owns `hasNext`/`next` for `LongAdvancerDistinct`, is not part of this model. Only `move` and `traverse` are modelled.
- The source adapters that `sorted` and the other builders instantiate (such as `IntAdvancerArray`) are not part of this model. Every upstream is a `Query` over a finite sequence, and the infinite `iterate`/`generate` sources are not modelled.
- The intermediate operations of `IntQuery` only construct the operator objects. They are represented by the operator classes, not as builder methods of their own.
- Callbacks are pure total functions: side effects in user callbacks (`peek`) and exceptions thrown by them are not modelled, and neither is how often a predicate is evaluated.
- Queries.Query.Next: the upstream's `next` is not part of this model. It is assumed to fail with no-such-element on an exhausted upstream and to consume nothing. `AdvancerDistinct.next` throws index-out-of-bounds itself, and that is modelled.
- Java exceptions are modelled as values. The finish signal of `shortCircuit` is `Signal.Finish`. `NoSuchElementException`, `IndexOutOfBoundsException`, `IllegalStateException` and `UnsupportedOperationException` are `Result.Err` values.
- `HashSet` hashing and boxing are modelled as a Dafny `set` with value equality.
- Element types that play no arithmetic role (double in map and skip, long in distinct) are generic or `int`.
- IntQueryOps.Sorted: `Arrays.sort` sorting the array in place is modelled by the functional insertion sort `SortSeq` on the array's contents. The in-place algorithm is not modelled.
- IntQueryOps.Count: the Java `long` counter is unbounded here. Overflow past 2^63 - 1 elements is not modelled.
- SkipOps.AdvancerSkip.Traverse: `index` is a Java `int` that would overflow after 2^31 - 1 traversed elements. Here it is unbounded.
- ZipOps.AdvancerZip.Traverse: requires `upstream` and `other` to be different queries. For a query zipped with itself, `other.next()` runs inside `upstream`'s traversal callback. Which elements the traversal then still visits depends on the traverser of the underlying source, and that traverser is not part of this model. `NextInt` covers the aliased case.
- UserExt.CollapseAdvancer.constructor: the initial value of the `LongBox` is not part of this model, so it is a constructor parameter. `UserExt.CollapseFromInitial` states its effect.
- IntQueryOps.ThenQuery.Traverse: `next` is modelled as a function of the upstream's remaining elements. It is not an arbitrary traverser built from the query object.

## Findings

| source | as written | input that shows it | evidently intended | confidence | as-written member | corrected member |
|---|---|---|---|---|---|---|
| src/main/java/org/jayield/advs/AdvancerList.java:39 | `traverse` yields the whole list from index 0, whatever the iterator has already produced | the list [1, 2], one `tryAdvance`, then `traverse`: 1, then 1, 2 | the traversal continues from the iterator: 1, then 2 | medium, not executed | Queries.ListDuplicatesExample | Queries.QueryPullThenPush |
| src/main/java/org/jayield/primitives/intgr/advs/IntAdvancerFlatMap.java:38-40 | `traverse` walks only the upstream and ignores the rest of the current sub-query `src` | flat-map `x -> [x, x]` over [1, 2], one `tryAdvance`, then `traverse`: [1], then [2, 2] | the rest of the current sub-query first: [1], then [1, 2, 2] | high, not executed | FlatMapOps.FlatMapPullThenPushAsWritten | FlatMapOps.FlatMapPullThenPush |
| src/main/java/org/jayield/advs/AdvancerDistinct.java:65-69 | `traverse` skips the element that `hasNext` already read into `curr` and added to `mem`. That element comes out only through a later `next`, after the traversal and out of order | [1, 2], `hasNext()` returns true, then `traverse` yields only [2], then `next()` returns 1 | the held element first: [1, 2] | high, not executed | DistinctOps.DistinctPeekThenPushExample | DistinctOps.DistinctPeekThenPush |
