/**
  Canonicalisation of a vector of intervals: the `into_coalesced` /
  `coalesce_intervals_inplace` routine the set relies on
  (math/src/set/ordered_integer_set.rs, lines 355-366 and every
  `from_*` constructor). Its body lives outside the modelled files, so it is
  specified here as: drop empty intervals, sort by start, then merge each
  interval into the last one kept while `CoalesceWith` succeeds.
 */
module Coalescing {
  import opened Wrappers
  import opened Contiguous
  import opened IntervalSequences

  /** `remove_empty_intervals`: keeps the non-empty intervals, in order. */
  function NonEmpty(xs: seq<ContiguousIntegerSet>): (r: seq<ContiguousIntegerSet>)
    ensures NoEmptyIntervals(r)
    ensures SetElems(r) == SetElems(xs)
    ensures forall x :: x in r <==> x in xs && !IsEmpty(x)
    ensures |r| <= |xs|
  {
    if xs == [] then
      []
    else if IsEmpty(xs[0]) then
      assert Elems(xs[0]) == {};
      NonEmpty(xs[1..])
    else
      [xs[0]] + NonEmpty(xs[1..])
  }

  predicate SortedByStart(xs: seq<ContiguousIntegerSet>)
  {
    forall j, k | 0 <= j < k < |xs| :: xs[j].start <= xs[k].start
  }

  /** Inserts `x` before the first interval that starts after it. */
  function InsertByStart(x: ContiguousIntegerSet, xs: seq<ContiguousIntegerSet>): (r: seq<ContiguousIntegerSet>)
    ensures multiset(r) == multiset(xs) + multiset{x}
  {
    if xs == [] || x.start <= xs[0].start then
      [x] + xs
    else
      assert xs == [xs[0]] + xs[1..];
      [xs[0]] + InsertByStart(x, xs[1..])
  }

  /** Insertion sort on the start of each interval. */
  function SortByStart(xs: seq<ContiguousIntegerSet>): (r: seq<ContiguousIntegerSet>)
    ensures multiset(r) == multiset(xs)
  {
    if xs == [] then [] else
      assert xs == [xs[0]] + xs[1..];
      InsertByStart(xs[0], SortByStart(xs[1..]))
  }

  lemma {:induction false} InsertByStartSorted(x: ContiguousIntegerSet, xs: seq<ContiguousIntegerSet>)
    requires SortedByStart(xs)
    ensures SortedByStart(InsertByStart(x, xs))
  {
    if xs != [] && x.start > xs[0].start {
      var rest := InsertByStart(x, xs[1..]);
      InsertByStartSorted(x, xs[1..]);
      assert rest[0] == x || rest[0] == xs[1];
      var r := [xs[0]] + rest;
      forall j, k | 0 <= j < k < |r| ensures r[j].start <= r[k].start {
        assert r[k] == rest[k - 1];
        if j > 0 {
          assert r[j] == rest[j - 1];
        } else {
          assert rest[0].start <= rest[k - 1].start;
        }
      }
    }
  }

  lemma {:induction false} InsertByStartElems(x: ContiguousIntegerSet, xs: seq<ContiguousIntegerSet>)
    ensures SetElems(InsertByStart(x, xs)) == Elems(x) + SetElems(xs)
  {
    SetElemsSingleton(x);
    if xs == [] || x.start <= xs[0].start {
      SetElemsAppend([x], xs);
    } else {
      InsertByStartElems(x, xs[1..]);
      SetElemsAppend([xs[0]], InsertByStart(x, xs[1..]));
      SetElemsSingleton(xs[0]);
    }
  }

  lemma {:induction false} SortByStartSorted(xs: seq<ContiguousIntegerSet>)
    ensures SortedByStart(SortByStart(xs))
    ensures SetElems(SortByStart(xs)) == SetElems(xs)
  {
    if xs != [] {
      SortByStartSorted(xs[1..]);
      InsertByStartSorted(xs[0], SortByStart(xs[1..]));
      InsertByStartElems(xs[0], SortByStart(xs[1..]));
    }
  }

  /** One merge step: the next interval joins the last kept one, or is appended after it. */
  function MergeStep(acc: seq<ContiguousIntegerSet>, x: ContiguousIntegerSet): seq<ContiguousIntegerSet>
  {
    if acc == [] then
      [x]
    else
      match CoalesceWith(LastInterval(acc), x)
      case Some(merged) => acc[..|acc| - 1] + [merged]
      case None => acc + [x]
  }

  /** Merges neighbours left to right. */
  function MergeNeighbours(xs: seq<ContiguousIntegerSet>): seq<ContiguousIntegerSet>
  {
    if xs == [] then [] else MergeStep(MergeNeighbours(xs[..|xs| - 1]), LastInterval(xs))
  }

  /** The canonical form of a vector of intervals. */
  function Coalesce(xs: seq<ContiguousIntegerSet>): (r: seq<ContiguousIntegerSet>)
    ensures Canonical(r)
    ensures SetElems(r) == SetElems(xs)
  {
    var sorted := SortByStart(NonEmpty(xs));
    SortByStartSorted(NonEmpty(xs));
    assert NoEmptyIntervals(sorted) by {
      forall k | 0 <= k < |sorted| ensures !IsEmpty(sorted[k]) {
        assert sorted[k] in multiset(sorted);
      }
    }
    MergeNeighboursCanonical(sorted);
    MergeNeighboursElems(sorted);
    MergeNeighbours(sorted)
  }

  /**
    Merging the neighbours of a sorted vector of non-empty intervals gives a
    canonical vector with the same elements, whose last interval starts no
    later than the input's last one.
   */
  lemma {:induction false} MergeNeighboursCanonical(xs: seq<ContiguousIntegerSet>)
    requires SortedByStart(xs) && NoEmptyIntervals(xs)
    ensures Canonical(MergeNeighbours(xs))
    ensures xs != [] ==> MergeNeighbours(xs) != [] && LastInterval(MergeNeighbours(xs)).start <= LastInterval(xs).start
  {
    if xs != [] {
      var init, x := xs[..|xs| - 1], LastInterval(xs);
      assert SortedByStart(init);
      MergeNeighboursCanonical(init);
      MergeStepCanonical(MergeNeighbours(init), x);
    }
  }

  lemma {:induction false} MergeNeighboursElems(xs: seq<ContiguousIntegerSet>)
    ensures SetElems(MergeNeighbours(xs)) == SetElems(xs)
  {
    if xs != [] {
      var init, x := xs[..|xs| - 1], LastInterval(xs);
      MergeNeighboursElems(init);
      assert xs == init + [x];
      SetElemsAppend(init, [x]);
      SetElemsSingleton(x);
      MergeStepElems(MergeNeighbours(init), x);
    }
  }

  /** One merge step keeps the accumulated vector canonical. */
  lemma MergeStepCanonical(acc: seq<ContiguousIntegerSet>, x: ContiguousIntegerSet)
    requires Canonical(acc) && !IsEmpty(x)
    requires acc != [] ==> LastInterval(acc).start <= x.start
    ensures Canonical(MergeStep(acc, x))
    ensures LastInterval(MergeStep(acc, x)).start <= x.start
  {
    if acc != [] {
      var init, last := acc[..|acc| - 1], LastInterval(acc);
      CanonicalSuffix(acc, |acc| - 1);
      match CoalesceWith(last, x)
      case Some(merged) =>
        assert merged.start == last.start;
        if init != [] {
          assert LastInterval(init) == acc[|acc| - 2];
        }
        AppendCanonical(init, [merged]);
      case None =>
        AppendCanonical(acc, [x]);
    }
  }

  /** One merge step adds the new interval's elements. */
  lemma MergeStepElems(acc: seq<ContiguousIntegerSet>, x: ContiguousIntegerSet)
    ensures SetElems(MergeStep(acc, x)) == SetElems(acc) + Elems(x)
  {
    SetElemsSingleton(x);
    if acc != [] {
      var init, last := acc[..|acc| - 1], LastInterval(acc);
      assert acc == init + [last];
      SetElemsAppend(init, [last]);
      SetElemsSingleton(last);
      match CoalesceWith(last, x)
      case Some(merged) =>
        SetElemsAppend(init, [merged]);
        SetElemsSingleton(merged);
      case None =>
        SetElemsAppend(acc, [x]);
    }
  }

  /** Two canonical vectors separated by a gap of at least one integer concatenate canonically. */
  lemma AppendCanonical(a: seq<ContiguousIntegerSet>, b: seq<ContiguousIntegerSet>)
    requires Canonical(a) && Canonical(b)
    requires a != [] && b != [] ==> LastInterval(a).end + 1 < b[0].start
    ensures Canonical(a + b)
  {
  }

  /** A canonical vector is sorted by start. */
  lemma CanonicalSorted(xs: seq<ContiguousIntegerSet>)
    requires Canonical(xs)
    ensures SortedByStart(xs)
  {
    forall j, k | 0 <= j < k < |xs| ensures xs[j].start <= xs[k].start {
      CanonicalOrdered(xs, j, k);
    }
  }

  lemma {:induction false} NonEmptyKeeps(xs: seq<ContiguousIntegerSet>)
    requires NoEmptyIntervals(xs)
    ensures NonEmpty(xs) == xs
  {
    if xs != [] {
      NonEmptyKeeps(xs[1..]);
      assert xs == [xs[0]] + xs[1..];
    }
  }

  lemma {:induction false} SortKeepsCanonical(xs: seq<ContiguousIntegerSet>)
    requires Canonical(xs)
    ensures SortByStart(xs) == xs
  {
    if xs != [] {
      var rest := xs[1..];
      CanonicalSuffix(xs, 1);
      SortKeepsCanonical(rest);
      calc {
        SortByStart(xs);
        InsertByStart(xs[0], SortByStart(rest));
        InsertByStart(xs[0], rest);
        { assert rest != [] ==> xs[0].start <= rest[0].start; }
        [xs[0]] + rest;
        xs;
      }
    }
  }

  lemma {:induction false} MergeKeepsCanonical(xs: seq<ContiguousIntegerSet>)
    requires Canonical(xs)
    ensures MergeNeighbours(xs) == xs
  {
    if xs != [] {
      var init := xs[..|xs| - 1];
      CanonicalSuffix(xs, |xs| - 1);
      MergeKeepsCanonical(init);
      assert xs == init + [LastInterval(xs)];
      if init != [] {
        assert LastInterval(init) == xs[|xs| - 2];
        assert CoalesceWith(LastInterval(init), LastInterval(xs)).None?;
      }
    }
  }

  /**
    Coalescing a vector that is already canonical changes nothing; this is
    what makes the unchecked `from_ordered_coalesced_contiguous_integer_sets`
    agree with `from_contiguous_integer_sets` on canonical input.
   */
  lemma CoalesceCanonical(xs: seq<ContiguousIntegerSet>)
    requires Canonical(xs)
    ensures Coalesce(xs) == xs
  {
    NonEmptyKeeps(xs);
    SortKeepsCanonical(xs);
    MergeKeepsCanonical(xs);
  }

  /** When the non-empty intervals already form a canonical vector, coalescing only drops the empty ones. */
  lemma CoalesceDropsEmpty(xs: seq<ContiguousIntegerSet>)
    requires Canonical(NonEmpty(xs))
    ensures Coalesce(xs) == NonEmpty(xs)
  {
    SortKeepsCanonical(NonEmpty(xs));
    MergeKeepsCanonical(NonEmpty(xs));
  }

  /** Coalescing is idempotent. */
  lemma CoalesceIdempotent(xs: seq<ContiguousIntegerSet>)
    ensures Coalesce(Coalesce(xs)) == Coalesce(xs)
  {
    CoalesceCanonical(Coalesce(xs));
  }

  /** The canonical form depends only on the elements. */
  lemma CoalesceDeterminedByElems(xs: seq<ContiguousIntegerSet>, ys: seq<ContiguousIntegerSet>)
    requires SetElems(xs) == SetElems(ys)
    ensures Coalesce(xs) == Coalesce(ys)
  {
    CanonicalUnique(Coalesce(xs), Coalesce(ys));
  }
}
