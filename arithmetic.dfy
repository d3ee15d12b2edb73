/**
  Subtraction between intervals and interval sets
  (math/src/set/ordered_integer_set/arithmetic.rs). Every result is an
  interval vector in canonical form.
 */
module Arithmetic {
  import opened Wrappers
  import opened Contiguous
  import opened IntervalSequences
  import opened Coalescing

  /** The two candidate remainders of [a, b] - [c, d]: [a, min(b, c-1)] and [max(d+1, a), b]. */
  function Pieces(lhs: ContiguousIntegerSet, rhs: ContiguousIntegerSet): seq<ContiguousIntegerSet>
  {
    [ContiguousIntegerSet(lhs.start, Min(lhs.end, rhs.start - 1)),
     ContiguousIntegerSet(Max(rhs.end + 1, lhs.start), lhs.end)]
  }

  /**
    [a, b] - [c, d]: when either side is empty the left operand comes back
    re-coalesced (so an empty left operand gives no interval); otherwise
    the non-empty pieces among the two candidates.
   */
  function RangeMinusRange(lhs: ContiguousIntegerSet, rhs: ContiguousIntegerSet): (r: seq<ContiguousIntegerSet>)
    ensures Canonical(r)
    ensures SetElems(r) == Elems(lhs) - Elems(rhs)
    ensures |r| <= 2
  {
    if IsEmpty(lhs) || IsEmpty(rhs) then
      assert IsEmpty(rhs) ==> Elems(rhs) == {};
      assert SetElems([lhs]) == Elems(lhs);
      assert NonEmpty([lhs]) == if IsEmpty(lhs) then [] else [lhs] by {
        assert [lhs][1..] == [];
      }
      CoalesceDropsEmpty([lhs]);
      Coalesce([lhs])
    else
      PiecesCanonical(lhs, rhs);
      NonEmptyKeeps(NonEmpty(Pieces(lhs, rhs)));
      NonEmpty(Coalesce(Pieces(lhs, rhs)))
  }

  /**
    The non-empty pieces are canonical (the subtracted range leaves a gap
    between them), hold at most two intervals, and coalescing them only drops
    the empty ones.
   */
  lemma PiecesCanonical(lhs: ContiguousIntegerSet, rhs: ContiguousIntegerSet)
    requires !IsEmpty(lhs) && !IsEmpty(rhs)
    ensures Canonical(NonEmpty(Pieces(lhs, rhs)))
    ensures |NonEmpty(Pieces(lhs, rhs))| <= 2
    ensures SetElems(Pieces(lhs, rhs)) == Elems(lhs) - Elems(rhs)
    ensures Coalesce(Pieces(lhs, rhs)) == NonEmpty(Pieces(lhs, rhs))
  {
    PiecesNonEmpty(lhs, rhs);
    PiecesElems(lhs, rhs);
    CoalesceDropsEmpty(Pieces(lhs, rhs));
  }

  lemma PiecesNonEmpty(lhs: ContiguousIntegerSet, rhs: ContiguousIntegerSet)
    requires !IsEmpty(rhs)
    ensures Canonical(NonEmpty(Pieces(lhs, rhs)))
    ensures |NonEmpty(Pieces(lhs, rhs))| <= 2
  {
    var ps := Pieces(lhs, rhs);
    var p, q := ps[0], ps[1];
    assert ps[1..] == [q];
    assert [q][1..] == [];
    assert NonEmpty(ps) == (if IsEmpty(p) then [] else [p]) + (if IsEmpty(q) then [] else [q]);
  }

  lemma PiecesElems(lhs: ContiguousIntegerSet, rhs: ContiguousIntegerSet)
    requires !IsEmpty(rhs)
    ensures SetElems(Pieces(lhs, rhs)) == Elems(lhs) - Elems(rhs)
  {
    var ps := Pieces(lhs, rhs);
    var p, q := ps[0], ps[1];
    assert ps[1..] == [q];
    SetElemsSingleton(q);
    assert SetElems(ps) == Elems(p) + Elems(q);
    forall x ensures x in Elems(p) + Elems(q) <==> x in Elems(lhs) - Elems(rhs) {
      assert x in Elems(p) <==> lhs.start <= x <= lhs.end && x < rhs.start;
      assert x in Elems(q) <==> lhs.start <= x <= lhs.end && x > rhs.end;
    }
  }

  /**
    When neither operand is empty, range − range is exactly the non-empty
    pieces [a, min(b, c-1)] and [max(d+1, a), b], in ascending order.
   */
  lemma RangeMinusRangeIsPieces(lhs: ContiguousIntegerSet, rhs: ContiguousIntegerSet)
    requires !IsEmpty(lhs) && !IsEmpty(rhs)
    ensures RangeMinusRange(lhs, rhs) == NonEmpty(Pieces(lhs, rhs))
  {
    PiecesCanonical(lhs, rhs);
    NonEmptyKeeps(NonEmpty(Pieces(lhs, rhs)));
  }

  /** When either operand is empty, range − range is the left operand re-coalesced. */
  lemma RangeMinusEmpty(lhs: ContiguousIntegerSet, rhs: ContiguousIntegerSet)
    requires IsEmpty(lhs) || IsEmpty(rhs)
    ensures RangeMinusRange(lhs, rhs) == if IsEmpty(lhs) then [] else [lhs]
  {
    if IsEmpty(lhs) {
      SetElemsEmpty([lhs]);
      SetElemsEmpty(Coalesce([lhs]));
    } else {
      CoalesceCanonical([lhs]);
    }
  }

  /**
    [a, b] − [c, d] for non-empty operands, case by case: a right operand
    outside the left one removes nothing, one covering it removes everything,
    one strictly inside splits it in two, and one overlapping an end trims it.
   */
  lemma RangeMinusRangeCases(lhs: ContiguousIntegerSet, rhs: ContiguousIntegerSet)
    requires !IsEmpty(lhs) && !IsEmpty(rhs)
    ensures rhs.end < lhs.start || lhs.end < rhs.start ==> RangeMinusRange(lhs, rhs) == [lhs]
    ensures rhs.start <= lhs.start && lhs.end <= rhs.end ==> RangeMinusRange(lhs, rhs) == []
    ensures lhs.start < rhs.start && rhs.end < lhs.end ==>
      RangeMinusRange(lhs, rhs) == [ContiguousIntegerSet(lhs.start, rhs.start - 1), ContiguousIntegerSet(rhs.end + 1, lhs.end)]
    ensures lhs.start < rhs.start <= lhs.end <= rhs.end ==>
      RangeMinusRange(lhs, rhs) == [ContiguousIntegerSet(lhs.start, rhs.start - 1)]
    ensures rhs.start <= lhs.start <= rhs.end < lhs.end ==>
      RangeMinusRange(lhs, rhs) == [ContiguousIntegerSet(rhs.end + 1, lhs.end)]
  {
    RangeMinusRangeIsPieces(lhs, rhs);
    PiecesCases(lhs, rhs, RangeMinusRange(lhs, rhs));
  }

  lemma PiecesCases(lhs: ContiguousIntegerSet, rhs: ContiguousIntegerSet, r: seq<ContiguousIntegerSet>)
    requires !IsEmpty(lhs) && !IsEmpty(rhs) && r == NonEmpty(Pieces(lhs, rhs))
    ensures rhs.end < lhs.start || lhs.end < rhs.start ==> r == [lhs]
    ensures rhs.start <= lhs.start && lhs.end <= rhs.end ==> r == []
    ensures lhs.start < rhs.start && rhs.end < lhs.end ==>
      r == [ContiguousIntegerSet(lhs.start, rhs.start - 1), ContiguousIntegerSet(rhs.end + 1, lhs.end)]
    ensures lhs.start < rhs.start <= lhs.end <= rhs.end ==> r == [ContiguousIntegerSet(lhs.start, rhs.start - 1)]
    ensures rhs.start <= lhs.start <= rhs.end < lhs.end ==> r == [ContiguousIntegerSet(rhs.end + 1, lhs.end)]
  {
    var p := Pieces(lhs, rhs);
    assert p[1..] == [p[1]];
    assert NonEmpty([p[1]]) == if IsEmpty(p[1]) then [] else [p[1]];
  }

  /**
    The subtraction partition law: the difference and the intersection of
    two intervals split the left operand with no overlap.
   */
  lemma SubtractionPartition(lhs: ContiguousIntegerSet, rhs: ContiguousIntegerSet)
    ensures var common := match Intersect(lhs, rhs) case Some(i) => Elems(i) case None => {};
            SetElems(RangeMinusRange(lhs, rhs)) + common == Elems(lhs) &&
            SetElems(RangeMinusRange(lhs, rhs)) !! common
  {
  }

  /** The pieces of every member interval minus `rhs`, concatenated (the `flat_map`). */
  function PiecesMinusRange(xs: seq<ContiguousIntegerSet>, rhs: ContiguousIntegerSet): (r: seq<ContiguousIntegerSet>)
    ensures SetElems(r) == SetElems(xs) - Elems(rhs)
  {
    if xs == [] then
      []
    else
      SetElemsAppend(RangeMinusRange(xs[0], rhs), PiecesMinusRange(xs[1..], rhs));
      RangeMinusRange(xs[0], rhs) + PiecesMinusRange(xs[1..], rhs)
  }

  /** Set − range: subtract the range from each member interval, then coalesce. */
  function SetMinusRange(lhs: seq<ContiguousIntegerSet>, rhs: ContiguousIntegerSet): (r: seq<ContiguousIntegerSet>)
    ensures Canonical(r)
  {
    Coalesce(PiecesMinusRange(lhs, rhs))
  }

  /** Set − range removes exactly the elements of the range. */
  lemma SetMinusRangeElems(lhs: seq<ContiguousIntegerSet>, rhs: ContiguousIntegerSet)
    ensures SetElems(SetMinusRange(lhs, rhs)) == SetElems(lhs) - Elems(rhs)
  {
  }

  /** Subtracting an empty range leaves a canonical set unchanged. */
  lemma SetMinusEmptyRange(lhs: seq<ContiguousIntegerSet>, rhs: ContiguousIntegerSet)
    requires Canonical(lhs) && IsEmpty(rhs)
    ensures SetMinusRange(lhs, rhs) == lhs
  {
    assert Elems(rhs) == {};
    SetMinusRangeElems(lhs, rhs);
    CanonicalUnique(SetMinusRange(lhs, rhs), lhs);
  }

  /**
    One `-=` of a fold over right-hand intervals: when `d` is the canonical
    remainder of the elements `e` after rhs[first .. next-1], subtracting
    rhs[next] gives the remainder after rhs[first .. next].
   */
  method SubtractNext(d: seq<ContiguousIntegerSet>, ghost e: set<int>,
                      rhs: seq<ContiguousIntegerSet>, ghost first: nat, next: nat)
    returns (r: seq<ContiguousIntegerSet>)
    requires first <= next < |rhs|
    requires SetElems(d) == e - SetElems(rhs[first..next])
    ensures Canonical(r)
    ensures SetElems(r) == e - SetElems(rhs[first..next + 1])
  {
    r := SetMinusRange(d, rhs[next]);
    SetMinusRangeElems(d, rhs[next]);
    SubtractStep(e, rhs, first, next);
  }

  lemma SubtractStep(e: set<int>, rhs: seq<ContiguousIntegerSet>, first: nat, next: nat)
    requires first <= next < |rhs|
    ensures e - SetElems(rhs[first..next]) - Elems(rhs[next]) == e - SetElems(rhs[first..next + 1])
  {
    SetElemsPrefix(rhs[first..next + 1], next - first);
    assert rhs[first..next + 1][..next - first] == rhs[first..next];
    assert rhs[first..next + 1][..next - first + 1] == rhs[first..next + 1];
    DifferenceTwice(e, SetElems(rhs[first..next]), Elems(rhs[next]));
  }

  lemma DifferenceTwice(a: set<int>, b: set<int>, c: set<int>)
    ensures (a - b) - c == a - (b + c)
  {
  }

  /** A single interval, coalesced, holds the interval's elements. */
  lemma CoalesceSingle(x: ContiguousIntegerSet)
    ensures SetElems(Coalesce([x])) == Elems(x)
  {
    SetElemsSingleton(x);
  }

  /**
    Range − set: folds single-range subtraction over the right operand's
    intervals, starting from the left range re-coalesced.
   */
  method RangeMinusSet(lhs: ContiguousIntegerSet, rhs: seq<ContiguousIntegerSet>) returns (r: seq<ContiguousIntegerSet>)
    ensures Canonical(r)
    ensures SetElems(r) == Elems(lhs) - SetElems(rhs)
  {
    var diff := Coalesce([lhs]);
    CoalesceSingle(lhs);
    for k := 0 to |rhs|
      invariant SetElems(diff) == Elems(lhs) - SetElems(rhs[0..k])
    {
      diff := SubtractNext(diff, Elems(lhs), rhs, 0, k);
    }
    assert rhs[0..|rhs|] == rhs;
    r := Coalesce(diff);
  }

  /** An empty right operand gives back the left range alone (when it is not empty). */
  lemma RangeMinusEmptySet(lhs: ContiguousIntegerSet, r: seq<ContiguousIntegerSet>)
    requires Canonical(r) && SetElems(r) == Elems(lhs) - SetElems([])
    ensures r == if IsEmpty(lhs) then [] else [lhs]
  {
    if IsEmpty(lhs) {
      SetElemsEmpty(r);
    } else {
      assert SetElems([lhs]) == Elems(lhs);
      CanonicalUnique(r, [lhs]);
    }
  }

  /**
    Set − set, a linear sweep: a cursor into the right operand moves forward
    only, so each right interval is looked at a bounded number of times. For
    canonical operands the elements are the difference; the result is always
    coalesced.
   */
  method SetMinusSet(lhs: seq<ContiguousIntegerSet>, rhs: seq<ContiguousIntegerSet>) returns (r: seq<ContiguousIntegerSet>)
    ensures Canonical(r)
    ensures Canonical(lhs) && Canonical(rhs) ==> SetElems(r) == SetElems(lhs) - SetElems(rhs)
  {
    ghost var canon := Canonical(lhs) && Canonical(rhs);
    var diff := [];
    var rhsI := 0;
    for k := 0 to |lhs|
      invariant rhsI <= |rhs|
      invariant canon ==> Canonical(diff) && (diff != [] ==> k > 0 && LastInterval(diff).end <= lhs[k - 1].end)
      invariant canon ==> SetElems(diff) == SetElems(lhs[..k]) - SetElems(rhs)
      invariant canon && k < |lhs| && rhsI > 0 ==> rhs[rhsI - 1].end < lhs[k].start
    {
      var d0 := Coalesce([lhs[k]]);
      CoalesceSingle(lhs[k]);
      var d, next, first, stop := SweepInterval(lhs[k], d0, rhs, rhsI);
      if canon {
        SweepPiece(lhs[k], rhs, first, stop, d);
        SweepStep(lhs, rhs, k, diff, d);
        if k + 1 < |lhs| && next > 0 {
          assert lhs[k].end + 1 < lhs[k + 1].start;
          if next == rhsI {
            assert rhs[rhsI - 1].end < lhs[k].start;
          }
        }
      }
      diff := diff + d;
      rhsI := next;
    }
    assert lhs[..|lhs|] == lhs;
    r := Coalesce(diff);
    if canon {
      CoalesceCanonical(diff);
    }
  }

  /**
    The sweep's work on one left interval, starting with the cursor at
    `rhsI`: skip the right intervals that end before it starts, subtract
    those that end inside it, and subtract without passing the one that
    starts inside it and ends beyond it. Returns the remaining pieces and
    the new cursor, which never moves back. The right intervals subtracted
    are those at positions first .. stop-1.
   */
  method SweepInterval(interval: ContiguousIntegerSet, d0: seq<ContiguousIntegerSet>,
                       rhs: seq<ContiguousIntegerSet>, rhsI: nat)
    returns (d: seq<ContiguousIntegerSet>, next: nat, ghost first: nat, ghost stop: nat)
    requires rhsI <= |rhs|
    ensures rhsI <= first <= next <= stop <= |rhs| && stop <= next + 1
    ensures Canonical(d0) ==> Canonical(d)
    ensures SetElems(d) == SetElems(d0) - SetElems(rhs[first..stop])
    ensures first > rhsI ==> rhs[first - 1].end < interval.start
    ensures stop < |rhs| ==> rhs[stop].start > interval.end || (stop > 0 && rhs[stop - 1].end > interval.end)
    ensures next > rhsI && !IsEmpty(interval) ==> rhs[next - 1].end <= interval.end
  {
    next := SkipBelow(interval, rhs, rhsI);
    first := next;
    d, next := SubtractInside(interval, d0, rhs, next);
    d, stop := SubtractStraddling(interval, d, d0, rhs, first, next);
  }

  /** The sweep's first loop: move the cursor past the right intervals that end below the left one. */
  method SkipBelow(interval: ContiguousIntegerSet, rhs: seq<ContiguousIntegerSet>, rhsI: nat) returns (next: nat)
    requires rhsI <= |rhs|
    ensures rhsI <= next <= |rhs|
    ensures next > rhsI ==> rhs[next - 1].end < interval.start
    ensures next < |rhs| ==> rhs[next].end >= interval.start
  {
    next := rhsI;
    while next < |rhs| && rhs[next].end < interval.start
      invariant rhsI <= next <= |rhs|
      invariant next > rhsI ==> rhs[next - 1].end < interval.start
    {
      next := next + 1;
    }
  }

  /** The sweep's second loop: subtract the right intervals that end inside the left one. */
  method SubtractInside(interval: ContiguousIntegerSet, d0: seq<ContiguousIntegerSet>,
                        rhs: seq<ContiguousIntegerSet>, first: nat)
    returns (d: seq<ContiguousIntegerSet>, next: nat)
    requires first <= |rhs|
    ensures first <= next <= |rhs|
    ensures Canonical(d0) ==> Canonical(d)
    ensures SetElems(d) == SetElems(d0) - SetElems(rhs[first..next])
    ensures next < |rhs| ==> rhs[next].end > interval.end
    ensures next > first ==> rhs[next - 1].end <= interval.end
  {
    next := first;
    d := d0;
    while next < |rhs| && rhs[next].end <= interval.end
      invariant first <= next <= |rhs|
      invariant next > first ==> rhs[next - 1].end <= interval.end
      invariant Canonical(d0) ==> Canonical(d)
      invariant SetElems(d) == SetElems(d0) - SetElems(rhs[first..next])
    {
      d := SubtractNext(d, SetElems(d0), rhs, first, next);
      next := next + 1;
    }
  }

  /**
    The sweep's last step: subtract the right interval that starts inside
    the left one and ends beyond it, without moving the cursor past it.
   */
  method SubtractStraddling(interval: ContiguousIntegerSet, d: seq<ContiguousIntegerSet>, ghost d0: seq<ContiguousIntegerSet>,
                            rhs: seq<ContiguousIntegerSet>, ghost first: nat, next: nat)
    returns (r: seq<ContiguousIntegerSet>, ghost stop: nat)
    requires first <= next <= |rhs|
    requires Canonical(d0) ==> Canonical(d)
    requires SetElems(d) == SetElems(d0) - SetElems(rhs[first..next])
    requires next < |rhs| ==> rhs[next].end > interval.end
    ensures next <= stop <= next + 1 && stop <= |rhs|
    ensures Canonical(d0) ==> Canonical(r)
    ensures SetElems(r) == SetElems(d0) - SetElems(rhs[first..stop])
    ensures stop < |rhs| ==> rhs[stop].start > interval.end || (stop > 0 && rhs[stop - 1].end > interval.end)
  {
    if next < |rhs| && rhs[next].start <= interval.end {
      r := SubtractNext(d, SetElems(d0), rhs, first, next);
      stop := next + 1;
    } else {
      r, stop := d, next;
    }
  }

  /** Appending the pieces of the k-th left interval keeps the sweep's invariant. */
  lemma SweepStep(lhs: seq<ContiguousIntegerSet>, rhs: seq<ContiguousIntegerSet>, k: int,
                  diff: seq<ContiguousIntegerSet>, d: seq<ContiguousIntegerSet>)
    requires Canonical(lhs) && 0 <= k < |lhs|
    requires Canonical(diff) && (diff != [] ==> k > 0 && LastInterval(diff).end <= lhs[k - 1].end)
    requires SetElems(diff) == SetElems(lhs[..k]) - SetElems(rhs)
    requires Canonical(d) && SetElems(d) == Elems(lhs[k]) - SetElems(rhs)
    ensures Canonical(diff + d) && (diff + d != [] ==> LastInterval(diff + d).end <= lhs[k].end)
    ensures SetElems(diff + d) == SetElems(lhs[..k + 1]) - SetElems(rhs)
  {
    SweepStepCanonical(lhs, k, diff, d);
    SetElemsAppend(diff, d);
    SetElemsPrefix(lhs, k);
    DifferenceOfUnion(SetElems(lhs[..k]), Elems(lhs[k]), SetElems(rhs));
  }

  lemma SweepStepCanonical(lhs: seq<ContiguousIntegerSet>, k: int, diff: seq<ContiguousIntegerSet>, d: seq<ContiguousIntegerSet>)
    requires Canonical(lhs) && 0 <= k < |lhs|
    requires Canonical(diff) && (diff != [] ==> k > 0 && LastInterval(diff).end <= lhs[k - 1].end)
    requires Canonical(d) && SetElems(d) <= Elems(lhs[k])
    ensures Canonical(diff + d) && (diff + d != [] ==> LastInterval(diff + d).end <= lhs[k].end)
  {
    PieceStaysInside(d, lhs[k]);
    if diff != [] && d != [] {
      assert lhs[k - 1].end + 1 < lhs[k].start;
    }
    if diff != [] && k > 0 {
      CanonicalOrdered(lhs, k - 1, k);
    }
    AppendCanonical(diff, d);
  }

  lemma DifferenceOfUnion(a: set<int>, b: set<int>, c: set<int>)
    ensures (a - c) + (b - c) == (a + b) - c
  {
  }

  /**
    Only the right-hand intervals at positions first .. stop-1 can meet the
    k-th left interval: those before `first` end below its start, and those
    from `stop` on start above its end. So the pieces the sweep leaves are
    the interval minus the whole right operand.
   */
  lemma SweepPiece(interval: ContiguousIntegerSet, rhs: seq<ContiguousIntegerSet>, first: int, stop: int,
                   d: seq<ContiguousIntegerSet>)
    requires Canonical(rhs) && 0 <= first <= stop <= |rhs|
    requires first > 0 ==> rhs[first - 1].end < interval.start
    requires stop < |rhs| ==> rhs[stop].start > interval.end || (stop > 0 && rhs[stop - 1].end > interval.end)
    requires SetElems(d) == Elems(interval) - SetElems(rhs[first..stop])
    ensures SetElems(d) == Elems(interval) - SetElems(rhs)
  {
    var before, inside, after := rhs[..first], rhs[first..stop], rhs[stop..];
    SplitThree(rhs, first, stop);
    if first > 0 {
      EndsBelow(rhs, first, interval);
    } else {
      assert before == [];
    }
    if stop < |rhs| {
      if stop > 0 && rhs[stop - 1].end > interval.end {
        assert rhs[stop - 1].end + 1 < rhs[stop].start;
      }
      StartsAbove(rhs, stop, interval);
    } else {
      assert after == [];
    }
    DifferenceIgnoresDisjoint(Elems(interval), SetElems(before), SetElems(inside), SetElems(after));
  }

  lemma SplitThree(rhs: seq<ContiguousIntegerSet>, first: int, stop: int)
    requires 0 <= first <= stop <= |rhs|
    ensures SetElems(rhs) == SetElems(rhs[..first]) + SetElems(rhs[first..stop]) + SetElems(rhs[stop..])
  {
    var a, b, c := rhs[..first], rhs[first..stop], rhs[stop..];
    assert rhs == a + b + c;
    SetElemsAppendThree(a, b, c);
  }

  lemma SetElemsAppendThree(a: seq<ContiguousIntegerSet>, b: seq<ContiguousIntegerSet>, c: seq<ContiguousIntegerSet>)
    ensures SetElems(a + b + c) == SetElems(a) + SetElems(b) + SetElems(c)
  {
    SetElemsAppend(a, b);
    SetElemsAppend(a + b, c);
  }

  lemma EndsBelow(rhs: seq<ContiguousIntegerSet>, first: int, interval: ContiguousIntegerSet)
    requires Canonical(rhs) && 0 < first <= |rhs| && rhs[first - 1].end < interval.start
    ensures Elems(interval) !! SetElems(rhs[..first])
  {
    CanonicalSuffix(rhs, first);
    CanonicalBounds(rhs[..first]);
    assert LastInterval(rhs[..first]) == rhs[first - 1];
  }

  lemma StartsAbove(rhs: seq<ContiguousIntegerSet>, stop: int, interval: ContiguousIntegerSet)
    requires Canonical(rhs) && 0 <= stop < |rhs| && rhs[stop].start > interval.end
    ensures Elems(interval) !! SetElems(rhs[stop..])
  {
    CanonicalSuffix(rhs, stop);
    CanonicalBounds(rhs[stop..]);
  }

  lemma DifferenceIgnoresDisjoint(e: set<int>, a: set<int>, b: set<int>, c: set<int>)
    requires e !! a && e !! c
    ensures e - b == e - (a + b + c)
  {
  }

  /** A piece cut from the k-th left interval lies inside it. */
  lemma PieceStaysInside(d: seq<ContiguousIntegerSet>, interval: ContiguousIntegerSet)
    requires Canonical(d)
    requires SetElems(d) <= Elems(interval)
    ensures d != [] ==> interval.start <= d[0].start && LastInterval(d).end <= interval.end
  {
    if d != [] {
      assert d[0].start in Elems(d[0]);
      assert LastInterval(d).end in Elems(LastInterval(d));
      InSetElems(d, d[0].start);
      InSetElems(d, LastInterval(d).end);
    }
  }

}
