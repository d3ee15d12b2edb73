# Ordered integer sets as interval vectors

This project models the integer-interval sets of the `math` crate
(`math/src/set/ordered_integer_set.rs` and
`math/src/set/ordered_integer_set/arithmetic.rs`) and proves what they denote.

- A `ContiguousIntegerSet` is the closed interval `[start, end]`, empty when
  `start > end` (module `Contiguous`, file `contiguous.dfy`). It has emptiness,
  membership, intersection, size, merging with another interval or with a
  point (`coalesce_with`), and rank slicing.
- An `OrderedIntegerSet` is a vector of intervals. Its meaning is `SetElems`,
  the union of the elements of its intervals. Its invariant is `Canonical`:
  no empty interval, and each interval ends at least two below the start of
  the next one, so neighbours neither overlap nor touch (module
  `IntervalSequences`). Two canonical vectors with the same elements are
  equal (`CanonicalUnique`). So an element-level contract plus canonical form
  pins the exact vector.
- The vector-level coalescing routine (`into_coalesced` /
  `coalesce_intervals_inplace` on a `Vec`) lives in `crate::interval::traits`,
  which is not part of this model. It is specified in module `Coalescing` as:
  drop empty intervals, sort by start, then merge each interval into the last
  one kept while `coalesce_with` succeeds. It is proved canonical,
  element-preserving and idempotent, the identity on canonical input, and
  determined by the elements alone.
- The read-only set operations work on the vector as a value (module
  `OrderedIntegerSets`). These are `first`, `last`, `is_empty`, `size`,
  `contains`, `intersect`, `slice`, `from_slice` and
  `from_contiguous_integer_sets`. Loops in the source stay loops: `intersect`
  is a nested loop, and `slice` loops over the intervals with its `skip` and
  `remaining` counters.
- The operations that change a set in place are methods of the class
  `OrderedIntegerSet`, whose field `intervals` they reassign. These are
  `remove_empty_intervals`, `coalesce_intervals_inplace`, `collect`, and the two
  `-=` operators.
- `IntegerSetIter` is a class with the interval index and element rank that
  `next` advances. It is proved to yield the ascending enumeration of the
  intervals.
- Subtraction lives in module `Arithmetic` and covers four cases:
  - range − range gives the non-empty pieces `[a, min(b, c-1)]` and
    `[max(d+1, a), b]`;
  - set − range subtracts the range from each interval and re-coalesces;
  - range − set folds `-=` over the right operand;
  - set − set is the cursor sweep. It is split into its three steps (skip,
    subtract inside, subtract the straddling interval), and each step has its
    own contract.

Elements are unbounded `int` and sizes `nat`.

The scan of `collect` returns as soon as it has changed the vector. The source
instead records a pending change (`CollectResult`) and applies it after the
loop. The resulting vector is the same.

## Model

| member | source | states |
|---|---|---|
| Contiguous.Intersect | math/src/set/ordered_integer_set.rs:45-51 | None exactly when the two intervals share no element; otherwise a non-empty interval whose elements are exactly the common elements |
| Contiguous.Size | math/src/set/ordered_integer_set.rs:125-133 | the size is 0 exactly when the interval is empty, and equals the length of its ascending enumeration |
| Contiguous.SizeIsCardinality | math/src/set/ordered_integer_set.rs:125-133 | the size is the number of elements of the interval |
| Contiguous.CoalesceWith | math/src/set/ordered_integer_set.rs:138-154 | two empty intervals give None; an empty operand yields the other one; two non-empty intervals give None exactly when a gap of at least one integer separates them; a result is non-empty and holds exactly the union of the elements |
| Contiguous.CoalesceWithSymmetric | math/src/set/ordered_integer_set.rs:530-545 | merging is symmetric in its two operands |
| Contiguous.CoalesceWithPoint | math/src/set/ordered_integer_set.rs:156-168 | None exactly when the interval is non-empty and the point is neither in it nor next to it; a result is non-empty and holds the interval's elements plus the point |
| Contiguous.CoalesceWithPointIsSingleton | math/src/set/ordered_integer_set.rs:156-168 | merging with a point is merging with the one-element interval [item, item] |
| Contiguous.IsEmptyHasNoElems | math/src/set/ordered_integer_set.rs:36-38 | an interval is empty exactly when it has no element |
| Contiguous.ContainsIsMembership | math/src/set/ordered_integer_set.rs:40-42 | `contains` holds exactly for the interval's elements, which are exactly the values of its ascending enumeration |
| Contiguous.Slice | math/src/set/ordered_integer_set.rs:77-86 | None exactly when lo >= hi or lo >= size; a result has size hi - lo and always starts at the element of rank lo: its first min(hi, size) - lo elements are ranks lo to min(hi, size) of the interval; it stays inside the interval exactly when hi <= size, and then enumerates exactly ranks lo to hi |
| IntervalSequences.CanonicalUnique | math/src/set/ordered_integer_set.rs:205-208 | two canonical interval vectors with the same elements are equal |
| IntervalSequences.CanonicalEnumerationAscending | math/src/set/ordered_integer_set.rs:205-208 | the enumeration of a canonical vector is strictly ascending |
| Coalescing.NonEmpty | math/src/set/ordered_integer_set.rs:286-288 | the kept intervals are exactly the non-empty ones, none is empty, and the elements are unchanged |
| Coalescing.Coalesce | math/src/set/ordered_integer_set.rs:362-365 | the coalesced vector is canonical and has the same elements |
| Coalescing.CoalesceCanonical | math/src/set/ordered_integer_set.rs:271-275 | coalescing a canonical vector changes nothing, so the unchecked constructor agrees with the coalescing one on canonical input |
| Coalescing.CoalesceIdempotent | math/src/set/ordered_integer_set.rs:362-365 | coalescing twice is coalescing once |
| Coalescing.CoalesceDeterminedByElems | math/src/set/ordered_integer_set.rs:355-366 | vectors with the same elements coalesce to the same vector |
| Arithmetic.RangeMinusRange | math/src/set/ordered_integer_set/arithmetic.rs:11-28 | range − range is canonical, has at most two intervals, and holds exactly the left elements not in the right operand |
| Arithmetic.RangeMinusEmpty | math/src/set/ordered_integer_set/arithmetic.rs:18-20 | when either operand is empty the result is the left operand re-coalesced: [] for an empty left operand, [lhs] otherwise |
| Arithmetic.RangeMinusRangeIsPieces | math/src/set/ordered_integer_set/arithmetic.rs:21-26 | for non-empty operands the result is exactly the non-empty pieces among [a, min(b, c-1)] and [max(d+1, a), b], in that order |
| Arithmetic.RangeMinusRangeCases | math/src/set/ordered_integer_set/arithmetic.rs:21-26 | for non-empty operands: a right operand outside the left one leaves [lhs], one covering it leaves nothing, one strictly inside leaves [a, c-1] and [d+1, b], and one overlapping the lower or upper end leaves only the other end |
| Arithmetic.PiecesCanonical | math/src/set/ordered_integer_set/arithmetic.rs:22-26 | the non-empty pieces are canonical, at most two, hold the difference, and coalescing the pieces only drops the empty ones |
| Arithmetic.SubtractionPartition | math/src/set/ordered_integer_set/arithmetic.rs:11-28 | the difference and the intersection of two intervals are disjoint and together give the left interval |
| Arithmetic.PiecesMinusRange | math/src/set/ordered_integer_set/arithmetic.rs:42-44 | the `flat_map` of range − range over the set's intervals holds the set's elements minus the range |
| Arithmetic.SetMinusRange | math/src/set/ordered_integer_set/arithmetic.rs:39-47 | set − range is canonical |
| Arithmetic.SetMinusRangeElems | math/src/set/ordered_integer_set/arithmetic.rs:39-47 | set − range holds exactly the set's elements not in the range |
| Arithmetic.SetMinusEmptyRange | math/src/set/ordered_integer_set/arithmetic.rs:39-47 | subtracting an empty range from a canonical set returns the same set |
| Arithmetic.SubtractNext | math/src/set/ordered_integer_set/arithmetic.rs:102-104 | one `d -= rhs[next]` takes one more right interval's elements away and keeps the result canonical |
| Arithmetic.RangeMinusSet | math/src/set/ordered_integer_set/arithmetic.rs:71-80 | range − set is canonical and holds exactly the range's elements not in the set |
| Arithmetic.RangeMinusEmptySet | math/src/set/ordered_integer_set/arithmetic.rs:71-80 | with an empty right operand the result is [lhs] (or [] when lhs is empty) |
| Arithmetic.SetMinusSet | math/src/set/ordered_integer_set/arithmetic.rs:91-115 | set − set is canonical; for canonical operands it holds exactly lhs's elements not in rhs |
| Arithmetic.SweepInterval | math/src/set/ordered_integer_set/arithmetic.rs:98-108 | the cursor never moves back and stays within the right operand; the pieces are the left interval minus the right intervals at positions first to stop - 1; the intervals before first end below the left interval; the one at stop starts above it, or the one before stop reaches beyond it |
| Arithmetic.SkipBelow | math/src/set/ordered_integer_set/arithmetic.rs:99-101 | the cursor moves past exactly the right intervals that end below the left interval's start |
| Arithmetic.SubtractInside | math/src/set/ordered_integer_set/arithmetic.rs:102-105 | every right interval that ends inside the left one is subtracted, and the cursor stops at the first one that ends beyond it |
| Arithmetic.SubtractStraddling | math/src/set/ordered_integer_set/arithmetic.rs:106-108 | the right interval that starts inside the left one and ends beyond it is subtracted without moving the cursor past it |
| Arithmetic.SweepPiece | math/src/set/ordered_integer_set/arithmetic.rs:98-108 | for a canonical right operand, subtracting the right intervals first to stop - 1 from a left interval removes everything the whole right operand would remove |
| Arithmetic.SweepStep | math/src/set/ordered_integer_set/arithmetic.rs:109-111 | pushing one interval's pieces onto `diff` keeps it canonical and equal to the difference so far |
| OrderedIntegerSets.First | math/src/set/ordered_integer_set.rs:217-228 | for a canonical set, None exactly when the set is empty; otherwise the smallest element |
| OrderedIntegerSets.Last | math/src/set/ordered_integer_set.rs:230-241 | for a canonical set, None exactly when the set is empty; otherwise the largest element |
| OrderedIntegerSets.IsEmpty | math/src/set/ordered_integer_set.rs:323-325 | true exactly when the set has no element, for any vector |
| OrderedIntegerSets.Size | math/src/set/ordered_integer_set.rs:307-312 | the sum of the interval sizes is the length of the enumeration, and for a canonical set the number of elements |
| OrderedIntegerSets.CountContaining | math/src/set/ordered_integer_set.rs:338 | the number of intervals holding the item is positive exactly when the item is an element |
| OrderedIntegerSets.Contains | math/src/set/ordered_integer_set.rs:327-339 | membership, with the first and last interval tried first, holds exactly for the elements |
| OrderedIntegerSets.FromSlice | math/src/set/ordered_integer_set.rs:256-263 | the result is canonical, and x is an element exactly when some pair [p0, p1] has p0 <= x <= p1 |
| OrderedIntegerSets.FromContiguousIntegerSets | math/src/set/ordered_integer_set.rs:265-269 | the result is canonical with the same elements, and a canonical argument is returned unchanged |
| OrderedIntegerSets.Intersect | math/src/set/ordered_integer_set.rs:342-352 | the result is canonical and holds exactly the common elements |
| OrderedIntegerSets.Slice | math/src/set/ordered_integer_set.rs:88-123 | the result is canonical and holds the elements of ranks lo to min(hi, size); for a canonical set it enumerates exactly those ranks in order and has size min(hi, size) - lo; it is empty when lo >= hi or lo >= size |
| OrderedIntegerSets.SlicePieces | math/src/set/ordered_integer_set.rs:93-120 | the pieces the loop collects enumerate ranks lo to hi, none is empty, and they are canonical when the set is |
| OrderedIntegerSets.TakeFromInterval | math/src/set/ordered_integer_set.rs:100-119 | one pass over an interval keeps the skip/remaining/taken bookkeeping of the ranks, and a piece taken is non-empty and inside the interval |
| OrderedIntegerSets.SliceResult | math/src/set/ordered_integer_set.rs:121 | coalescing pieces that enumerate the requested ranks gives the slice's elements, size and emptiness |
| OrderedIntegerSets.CollectAtEndAsWritten | math/src/set/ordered_integer_set.rs:386-394 | the end step of `collect` as written: it declines exactly for an empty vector or an item at most one above the last interval's end that cannot merge into it; when it acts it adds exactly the item, and keeps a canonical vector only sorted, disjoint and free of empties |
| OrderedIntegerSets.CollectAtEndAsWrittenBreaksCanonicalForm | math/src/set/ordered_integer_set.rs:386-394 | on [[1, 3], [5, 7]] with item 4 the end step as written gives [[1, 3], [4, 7]], which is not canonical |
| OrderedIntegerSets.CollectAsWrittenMakesOverlap | math/src/set/ordered_integer_set.rs:386-394 | from the canonical [[1, 1], [3, 7]], the end steps as written for items 2, 1 and 0 give [[1, 1], [2, 7]], then [[1, 1], [1, 7]], then [[1, 1], [0, 7]], whose intervals overlap and are out of order |
| OrderedIntegerSets.OverlapMisleadsFirstAndSize | math/src/set/ordered_integer_set.rs:217-228 | on [[1, 1], [0, 7]] `first` gives 1 although 0 is an element, and the summed size is 9 while the set has 8 elements (`size`, lines 307-312) |
| OrderedIntegerSets.CollectAtEnd | math/src/set/ordered_integer_set.rs:386-394 | the corrected end step declines exactly for an empty vector or an item below the start of a non-empty last interval; when it acts it adds exactly the item and keeps the vector canonical |
| OrderedIntegerSets.InsertPoint | math/src/set/ordered_integer_set.rs:397-399 | inserting [item, item] before the first interval the item does not reach adds exactly the item to any vector, and keeps a canonical vector canonical |
| OrderedIntegerSets.AbsorbPoint | math/src/set/ordered_integer_set.rs:401-404 | growing the interval that absorbs the item, when it does not reach the next one, adds exactly the item to any vector, and keeps a canonical vector canonical |
| OrderedIntegerSets.AbsorbPointAndMerge | math/src/set/ordered_integer_set.rs:405-426 | when the grown interval reaches the next one, replacing both by their merge adds exactly the item to any vector, and keeps a canonical vector canonical |
| OrderedIntegerSets.OrderedIntegerSet.New | math/src/set/ordered_integer_set.rs:211-215 | the new set has no interval |
| OrderedIntegerSets.OrderedIntegerSet.FromOrderedCoalescedContiguousIntegerSets | math/src/set/ordered_integer_set.rs:271-275 | the vector is taken as given |
| OrderedIntegerSets.OrderedIntegerSet.RemoveEmptyIntervals | math/src/set/ordered_integer_set.rs:286-288 | the vector becomes its non-empty intervals in order, with the same elements |
| OrderedIntegerSets.OrderedIntegerSet.CoalesceIntervalsInplace | math/src/set/ordered_integer_set.rs:362-365 | the vector becomes the coalesced form of the old one: canonical, with the same elements |
| OrderedIntegerSets.OrderedIntegerSet.CollectByScan | math/src/set/ordered_integer_set.rs:395-428 | the scan of `collect` adds exactly the item to any vector, and keeps a canonical vector canonical |
| OrderedIntegerSets.OrderedIntegerSet.CollectAsWritten | math/src/set/ordered_integer_set.rs:375-429 | `collect` as written adds exactly the item to any vector; when the end step acts, its result is the new vector as is; from a canonical vector the scan keeps it canonical, and either way the result is separated (sorted, disjoint, no empties) but not always canonical; later calls on the touching vectors this leaves can make intervals overlap (see `CollectAsWrittenMakesOverlap`) |
| OrderedIntegerSets.OrderedIntegerSet.Collect | math/src/set/ordered_integer_set.rs:375-429 | `collect` with the corrected end step adds exactly the item and keeps the vector canonical |
| OrderedIntegerSets.OrderedIntegerSet.SubAssignRange | math/src/set/ordered_integer_set/arithmetic.rs:58-69 | `self -= range` leaves `self` equal to set − range: canonical, without the range's elements |
| OrderedIntegerSets.OrderedIntegerSet.SubAssignSet | math/src/set/ordered_integer_set/arithmetic.rs:126-137 | `self -= set` leaves `self` canonical and, for canonical operands, without the other set's elements |
| OrderedIntegerSets.RemainingSkipsExhausted | math/src/set/ordered_integer_set.rs:455-458 | moving past an exhausted interval leaves the elements still to come unchanged |
| OrderedIntegerSets.RemainingStepsInside | math/src/set/ordered_integer_set.rs:459-462 | inside an interval the next element to come is start + rank, and the rest follow it |
| OrderedIntegerSets.RemainingFromStart | math/src/set/ordered_integer_set.rs:438-446 | from its initial position an iterator has the whole enumeration still to come |
| OrderedIntegerSets.IntegerSetIter.constructor | math/src/set/ordered_integer_set.rs:438-446 | a new iterator has the whole ascending enumeration of the set still to yield |
| OrderedIntegerSets.IntegerSetIter.Next | math/src/set/ordered_integer_set.rs:448-466 | `next` yields the first element still to come and drops it, or None once nothing is left |

## Left out

- The `Vec`-level coalescing routine of `crate::interval::traits` is not part of this model. `Coalescing.Coalesce` specifies it by its intended contract, not by its code.
- Integer width: `E` is an unbounded `int` and sizes are `nat`. Overflow of `E` is not modelled, and neither are the panics of `to_usize().unwrap()` and `from_usize().unwrap()`.
- OrderedIntegerSets.TakeFromInterval: uses the interval's `size`, which is 0 for an empty interval. The source's set slice (line 100) computes `end - start + 1` without an emptiness check. This agrees for `start = end + 1`. For `start > end + 1` the source's count is negative and `to_usize().unwrap()` panics, and that panic is not modelled.
- Arithmetic.SetMinusSet: elements are stated only for canonical operands, the set type's invariant. The sweep relies on the right operand being sorted.
- OrderedIntegerSets.OrderedIntegerSet.SubAssignSet: the same restriction to canonical operands.
- OrderedIntegerSets.OrderedIntegerSet.Collect: requires a canonical vector, the set type's invariant. The source does not check this.
- OrderedIntegerSets.Slice: the order of the result and its size are stated only for canonical sets. For other vectors only its elements and canonical form are stated.
- The `Sample` implementations (ordered_integer_set.rs lines 176 and 474) draw random subsets and are left out.
- `ContiguousIntegerSetIter` (lines 170-203) starts counting at zero rather than at `start`. It is not an enumeration of the interval, and it is left out.
- Trivial accessors and conversions are left out: `first_and_last`, `to_non_empty_intervals`, `into_non_empty_intervals`, `get_intervals_by_ref`, `into_intervals`, `intervals_iter`, `num_intervals`, `length`, `to_coalesced_intervals` and `Constructable::new`. Each of them is a field read or a composition of modelled operations.
- `to_iter` clones the set into the iterator. The model's iterator keeps the cloned intervals as an immutable field.
- The generic `Slicing` trait dispatch and the derived `Clone`, `PartialEq` and `Debug` are left out. Set equality is sequence equality of the interval vectors.

## Findings

| source | as written | input that shows it | evidently intended | confidence | as-written member | corrected member |
|---|---|---|---|---|---|---|
| math/src/set/ordered_integer_set.rs:386-394 | the end step of `collect` merges any item up to one above the last interval's end into that interval without looking at the interval before it | the set [[1, 3], [5, 7]] and item 4 give [[1, 3], [4, 7]], two touching intervals; from [[1, 1], [3, 7]], collecting 2, 1 and 0 gives [[1, 1], [0, 7]], whose intervals overlap and are out of order, so `first` reports 1 although 0 is an element and `size` reports 9 for 8 elements | the item joins the last interval only when it lies at or above that interval's start, otherwise the general scan places it, so the vector stays canonical | not executed | OrderedIntegerSets.CollectAtEndAsWrittenBreaksCanonicalForm, OrderedIntegerSets.CollectAsWrittenMakesOverlap, OrderedIntegerSets.OverlapMisleadsFirstAndSize | OrderedIntegerSets.OrderedIntegerSet.Collect |
