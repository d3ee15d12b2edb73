/**
  A `ContiguousIntegerSet` is the closed integer interval [start, end]
  (math/src/set/ordered_integer_set.rs, lines 16-168). When start > end
  the interval is empty. The element type is modelled as unbounded `int`
  and sizes as `nat`.
 */
module Contiguous {
  import opened Wrappers

  datatype ContiguousIntegerSet = ContiguousIntegerSet(start: int, end: int)

  /** The integers the interval denotes: those it contains. */
  ghost function Elems(i: ContiguousIntegerSet): set<int>
  {
    set x | i.start <= x <= i.end && Contains(i, x)
  }

  /** The integers lo, lo+1, ..., hi in ascending order. */
  function RangeSeq(lo: int, hi: int): (r: seq<int>)
    ensures |r| == if lo <= hi then hi - lo + 1 else 0
    ensures forall k | 0 <= k < |r| :: r[k] == lo + k
    decreases hi - lo
  {
    if lo > hi then [] else [lo] + RangeSeq(lo + 1, hi)
  }

  /** The ascending enumeration of the interval's elements. */
  function Ascending(i: ContiguousIntegerSet): seq<int>
  {
    RangeSeq(i.start, i.end)
  }

  predicate IsEmpty(i: ContiguousIntegerSet)
  {
    i.start > i.end
  }

  function Contains(i: ContiguousIntegerSet, item: int): bool
  {
    item >= i.start && item <= i.end
  }

  function Max(a: int, b: int): int { if a >= b then a else b }
  function Min(a: int, b: int): int { if a <= b then a else b }

  /** The common part of two intervals; None when they share no element. */
  function Intersect(a: ContiguousIntegerSet, b: ContiguousIntegerSet): (r: Option<ContiguousIntegerSet>)
    ensures r.None? <==> Elems(a) * Elems(b) == {}
    ensures r.Some? ==> !IsEmpty(r.value) && Elems(r.value) == Elems(a) * Elems(b)
  {
    if IsEmpty(a) || IsEmpty(b) || b.end < a.start || b.start > a.end then
      assert IsEmpty(a) ==> Elems(a) == {};
      assert IsEmpty(b) ==> Elems(b) == {};
      assert !IsEmpty(a) && !IsEmpty(b) && b.end < a.start ==> forall x | x in Elems(b) :: x !in Elems(a);
      None
    else
      var m := ContiguousIntegerSet(Max(a.start, b.start), Min(a.end, b.end));
      assert m.start in Elems(a) * Elems(b);
      Some(m)
  }

  /** The number of elements: 0 when empty, end - start + 1 otherwise. */
  function Size(i: ContiguousIntegerSet): (r: nat)
    ensures r == 0 <==> IsEmpty(i)
    ensures r == |Ascending(i)|
  {
    if IsEmpty(i) then 0 else i.end - i.start + 1
  }

  /**
    Merges two intervals into one when they overlap or touch. An empty
    interval merges with anything and yields the other operand; two empty
    intervals do not merge.
   */
  function CoalesceWith(a: ContiguousIntegerSet, b: ContiguousIntegerSet): (r: Option<ContiguousIntegerSet>)
    ensures IsEmpty(a) && IsEmpty(b) ==> r.None?
    ensures IsEmpty(a) && !IsEmpty(b) ==> r == Some(b)
    ensures !IsEmpty(a) && IsEmpty(b) ==> r == Some(a)
    ensures !IsEmpty(a) && !IsEmpty(b) ==>
              (r.None? <==> a.end + 1 < b.start || b.end + 1 < a.start)
    ensures r.Some? ==> !IsEmpty(r.value) && Elems(r.value) == Elems(a) + Elems(b)
  {
    if IsEmpty(a) && IsEmpty(b) then
      None
    else if IsEmpty(a) then
      assert Elems(a) == {};
      Some(b)
    else if IsEmpty(b) then
      assert Elems(b) == {};
      Some(a)
    else if a.start > b.end + 1 || a.end + 1 < b.start then
      None
    else
      Some(ContiguousIntegerSet(Min(a.start, b.start), Max(a.end, b.end)))
  }

  /** Merges a single point into an interval when it lies in it or next to it. */
  function CoalesceWithPoint(a: ContiguousIntegerSet, item: int): (r: Option<ContiguousIntegerSet>)
    ensures r.None? <==> !IsEmpty(a) && (item + 1 < a.start || a.end + 1 < item)
    ensures r.Some? ==> !IsEmpty(r.value) && Elems(r.value) == Elems(a) + {item}
  {
    if IsEmpty(a) then
      assert Elems(a) == {};
      Some(ContiguousIntegerSet(item, item))
    else if a.start > item + 1 || a.end + 1 < item then
      None
    else
      Some(ContiguousIntegerSet(Min(a.start, item), Max(a.end, item)))
  }

  /**
    The sub-interval holding the elements of ranks lo (inclusive) to hi
    (exclusive). `hi` is not clamped to the size, so the result stays inside
    the interval only when hi <= Size(i); it always starts at the element of
    rank lo and has hi - lo elements, running past the end when hi > Size(i).
   */
  function Slice(i: ContiguousIntegerSet, lo: nat, hi: nat): (r: Option<ContiguousIntegerSet>)
    ensures r.None? <==> lo >= hi || lo >= Size(i)
    ensures r.Some? ==> !IsEmpty(r.value) && Size(r.value) == hi - lo
    ensures r.Some? ==> (Elems(r.value) <= Elems(i) <==> hi <= Size(i))
    ensures r.Some? && hi <= Size(i) ==> Ascending(r.value) == Ascending(i)[lo..hi]
    ensures r.Some? ==> Ascending(r.value)[..Min(hi, Size(i)) - lo] == Ascending(i)[lo..Min(hi, Size(i))]
  {
    if lo >= hi || lo >= Size(i) then
      None
    else
      var s := ContiguousIntegerSet(i.start + lo, i.start + hi - 1);
      assert hi > Size(i) ==> s.end in Elems(s) && s.end !in Elems(i);
      var k := Min(hi, Size(i)) - lo;
      assert Ascending(s)[..k] == Ascending(i)[lo..lo + k] by {
        forall m | 0 <= m < k ensures Ascending(s)[..k][m] == Ascending(i)[lo..lo + k][m] {
          assert Ascending(s)[m] == i.start + lo + m;
          assert Ascending(i)[lo + m] == i.start + lo + m;
        }
      }
      Some(s)
  }

  lemma {:induction false} SizeIsCardinality(i: ContiguousIntegerSet)
    ensures |Elems(i)| == Size(i)
    decreases i.end - i.start
  {
    if IsEmpty(i) {
      assert Elems(i) == {};
    } else {
      var shorter := ContiguousIntegerSet(i.start, i.end - 1);
      SizeIsCardinality(shorter);
      assert Elems(i) == Elems(shorter) + {i.end};
    }
  }

  /** `is_empty`: an interval is empty exactly when it has no element. */
  lemma IsEmptyHasNoElems(i: ContiguousIntegerSet)
    ensures IsEmpty(i) <==> Elems(i) == {}
  {
    if !IsEmpty(i) {
      assert i.start in Elems(i);
    }
  }

  /** `contains`: membership is being an element, and appearing in the ascending enumeration. */
  lemma ContainsIsMembership(i: ContiguousIntegerSet, item: int)
    ensures Contains(i, item) <==> item in Elems(i)
    ensures Contains(i, item) <==> item in Ascending(i)
  {
    AscendingElems(i);
  }

  /** The ascending enumeration holds exactly the interval's elements. */
  lemma AscendingElems(i: ContiguousIntegerSet)
    ensures forall x :: x in Ascending(i) <==> x in Elems(i)
  {
    var s := Ascending(i);
    forall x | x in Elems(i) ensures x in s {
      assert s[x - i.start] == x;
    }
  }

  /** Coalescing is symmetric in its two operands. */
  lemma CoalesceWithSymmetric(a: ContiguousIntegerSet, b: ContiguousIntegerSet)
    ensures CoalesceWith(a, b) == CoalesceWith(b, a)
  {
  }

  /** Coalescing with a point is coalescing with the one-element interval. */
  lemma CoalesceWithPointIsSingleton(a: ContiguousIntegerSet, item: int)
    ensures CoalesceWithPoint(a, item) == CoalesceWith(a, ContiguousIntegerSet(item, item))
  {
  }
}
