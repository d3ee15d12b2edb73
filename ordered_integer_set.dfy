/**
  `OrderedIntegerSet` (math/src/set/ordered_integer_set.rs): a set of
  integers held as a vector of intervals. The read-only operations work on
  the vector as a value; the operations that update the vector in place
  (`collect`, `remove_empty_intervals`, `coalesce_intervals_inplace`, the
  `-=` operators) are methods of the class `OrderedIntegerSet`, and the
  element iterator is the class `IntegerSetIter`.
 */
module OrderedIntegerSets {
  import opened Wrappers
  import opened Contiguous
  import opened IntervalSequences
  import opened Coalescing
  import opened Arithmetic

  /** The smallest element, read off the first interval. */
  function First(s: seq<ContiguousIntegerSet>): (r: Option<int>)
    ensures Canonical(s) ==> (r.None? <==> SetElems(s) == {})
    ensures Canonical(s) && r.Some? ==>
      r.value in SetElems(s) && forall y | y in SetElems(s) :: r.value <= y
  {
    if s == [] then None
    else if Contiguous.IsEmpty(s[0]) then None
    else
      assert Canonical(s) ==> s[0].start in SetElems(s) by {
        if Canonical(s) { CanonicalSplit(s); }
      }
      assert Canonical(s) ==> forall y | y in SetElems(s) :: s[0].start <= y by {
        if Canonical(s) { CanonicalBounds(s); }
      }
      Some(s[0].start)
  }

  /** The largest element, read off the last interval. */
  function Last(s: seq<ContiguousIntegerSet>): (r: Option<int>)
    ensures Canonical(s) ==> (r.None? <==> SetElems(s) == {})
    ensures Canonical(s) && r.Some? ==>
      r.value in SetElems(s) && forall y | y in SetElems(s) :: y <= r.value
  {
    if s == [] then None
    else if Contiguous.IsEmpty(LastInterval(s)) then None
    else
      assert LastInterval(s).end in SetElems(s) by {
        InSetElems(s, LastInterval(s).end);
      }
      assert Canonical(s) ==> forall y | y in SetElems(s) :: y <= LastInterval(s).end by {
        if Canonical(s) { CanonicalBounds(s); }
      }
      Some(LastInterval(s).end)
  }

  /** A set is empty when it has no non-empty interval. */
  function IsEmpty(s: seq<ContiguousIntegerSet>): (r: bool)
    ensures r <==> SetElems(s) == {}
  {
    var t := NonEmpty(s);
    assert t != [] ==> t[0].start in SetElems(t);
    t == []
  }

  /** The number of elements: the sum of the interval sizes. */
  function Size(s: seq<ContiguousIntegerSet>): (r: nat)
    ensures r == |Enumerate(s)|
    ensures Canonical(s) ==> r == |SetElems(s)|
  {
    if s == [] then 0
    else
      var rest := Size(s[1..]);
      assert Canonical(s) ==> Contiguous.Size(s[0]) + rest == |SetElems(s)| by {
        if Canonical(s) {
          CanonicalSuffix(s, 1);
          CanonicalSplit(s);
          SizeIsCardinality(s[0]);
          assert Elems(s[0]) !! SetElems(s[1..]);
        }
      }
      Contiguous.Size(s[0]) + rest
  }

  /** The number of intervals that hold `item`. */
  function CountContaining(s: seq<ContiguousIntegerSet>, item: int): (r: nat)
    ensures r <= |s|
    ensures r > 0 <==> item in SetElems(s)
  {
    if s == [] then 0
    else (if Contiguous.Contains(s[0], item) then 1 else 0) + CountContaining(s[1..], item)
  }

  /** Membership: the first and the last interval are tried before all of them are counted. */
  function Contains(s: seq<ContiguousIntegerSet>, item: int): (r: bool)
    ensures r <==> item in SetElems(s)
  {
    if s != [] && Contiguous.Contains(s[0], item) then
      assert item in SetElems(s);
      true
    else if s != [] && Contiguous.Contains(LastInterval(s), item) then
      assert item in SetElems(s) by { InSetElems(s, item); }
      true
    else
      CountContaining(s, item) > 0
  }

  /** The intervals of `pairs`, each pair read as [start, end], in canonical form. */
  function FromSlice(pairs: seq<(int, int)>): (r: seq<ContiguousIntegerSet>)
    ensures Canonical(r)
    ensures forall x :: x in SetElems(r) <==> exists k | 0 <= k < |pairs| :: pairs[k].0 <= x <= pairs[k].1
  {
    var intervals := seq(|pairs|, k requires 0 <= k < |pairs| => ContiguousIntegerSet(pairs[k].0, pairs[k].1));
    assert forall x :: x in SetElems(intervals) <==> exists k | 0 <= k < |pairs| :: pairs[k].0 <= x <= pairs[k].1 by {
      forall x ensures x in SetElems(intervals) <==> exists k | 0 <= k < |pairs| :: pairs[k].0 <= x <= pairs[k].1 {
        InSetElems(intervals, x);
        if x in SetElems(intervals) {
          var k :| 0 <= k < |intervals| && Contiguous.Contains(intervals[k], x);
          assert pairs[k].0 <= x <= pairs[k].1;
        }
        if exists k | 0 <= k < |pairs| :: pairs[k].0 <= x <= pairs[k].1 {
          var k :| 0 <= k < |pairs| && pairs[k].0 <= x <= pairs[k].1;
          assert Contiguous.Contains(intervals[k], x);
        }
      }
    }
    Coalesce(intervals)
  }

  /** `from_contiguous_integer_sets` and `From<Vec<_>>`: any intervals, brought to canonical form. */
  function FromContiguousIntegerSets(sets: seq<ContiguousIntegerSet>): (r: seq<ContiguousIntegerSet>)
    ensures Canonical(r)
    ensures SetElems(r) == SetElems(sets)
    ensures Canonical(sets) ==> r == sets
  {
    assert Canonical(sets) ==> Coalesce(sets) == sets by {
      if Canonical(sets) { CoalesceCanonical(sets); }
    }
    Coalesce(sets)
  }

  /** Intersection: every pair of intervals is intersected, and the pieces are coalesced. */
  method Intersect(a: seq<ContiguousIntegerSet>, b: seq<ContiguousIntegerSet>) returns (r: seq<ContiguousIntegerSet>)
    ensures Canonical(r)
    ensures SetElems(r) == SetElems(a) * SetElems(b)
  {
    var intervals := [];
    for i := 0 to |a|
      invariant SetElems(intervals) == SetElems(a[..i]) * SetElems(b)
    {
      for j := 0 to |b|
        invariant SetElems(intervals) == SetElems(a[..i]) * SetElems(b) + Elems(a[i]) * SetElems(b[..j])
      {
        SetElemsPrefix(b, j);
        match Contiguous.Intersect(a[i], b[j]) {
          case Some(piece) =>
            SetElemsAppend(intervals, [piece]);
            assert SetElems([piece]) == Elems(piece);
            intervals := intervals + [piece];
          case None =>
        }
      }
      assert b[..|b|] == b;
      SetElemsPrefix(a, i);
    }
    assert a[..|a|] == a;
    r := Coalesce(intervals);
  }

  /** The elements of ranks lo (inclusive) to hi (exclusive) of the enumeration, clamped to its length. */
  function Ranks(s: seq<ContiguousIntegerSet>, lo: nat, hi: nat): seq<int>
  {
    var e := Enumerate(s);
    if lo >= hi then [] else e[Min(lo, |e|)..Min(hi, |e|)]
  }

  /**
    The counters of `slice` after the elements `p` of the intervals seen so
    far: `skip` elements still to skip, `remaining` still to take, and `taken`
    the elements taken, which are the ranks lo to hi of `p`.
   */
  ghost predicate SliceState(p: seq<int>, lo: nat, hi: nat, skip: nat, remaining: nat, taken: seq<int>)
  {
    skip == (if |p| < lo then lo - |p| else 0) &&
    remaining == hi - Max(lo, Min(|p|, hi)) &&
    taken == p[Min(lo, |p|)..Min(hi, |p|)]
  }

  /** An interval that lies wholly inside the part to skip is skipped. */
  lemma SliceSkipStep(p: seq<int>, a: seq<int>, lo: nat, hi: nat, skip: nat, remaining: nat, taken: seq<int>)
    requires lo < hi && SliceState(p, lo, hi, skip, remaining, taken)
    requires 0 < skip && |a| <= skip
    ensures SliceState(p + a, lo, hi, skip - |a|, remaining, taken)
  {
    assert taken == [];
  }

  /** The interval where skipping ends contributes its ranks skip to stop. */
  lemma SliceFirstStep(p: seq<int>, a: seq<int>, lo: nat, hi: nat, skip: nat, remaining: nat, taken: seq<int>, stop: nat)
    requires lo < hi && SliceState(p, lo, hi, skip, remaining, taken)
    requires 0 < skip < |a| && stop == Min(skip + remaining, |a|)
    ensures skip < stop <= |a|
    ensures SliceState(p + a, lo, hi, 0, remaining - (stop - skip), taken + a[skip..stop])
  {
    assert taken == [];
    assert (p + a)[lo..|p| + stop] == a[skip..stop];
  }

  /** After skipping, each interval contributes its first `increase` elements. */
  lemma SliceTakeStep(p: seq<int>, a: seq<int>, lo: nat, hi: nat, remaining: nat, taken: seq<int>, increase: nat)
    requires lo < hi && SliceState(p, lo, hi, 0, remaining, taken)
    requires 0 < remaining && increase == Min(remaining, |a|)
    ensures increase <= |a|
    ensures SliceState(p + a, lo, hi, 0, remaining - increase, taken + a[..increase])
  {
    assert |p| >= lo && remaining == hi - |p|;
    assert (p + a)[lo..|p| + increase] == p[lo..] + a[..increase];
  }

  /** Once nothing remains to be taken, later intervals change nothing. */
  lemma SliceDone(p: seq<int>, q: seq<int>, lo: nat, hi: nat, skip: nat, remaining: nat, taken: seq<int>)
    requires lo < hi && SliceState(p, lo, hi, skip, remaining, taken)
    requires remaining == 0 || q == []
    ensures taken == (p + q)[Min(lo, |p + q|)..Min(hi, |p + q|)]
  {
    if remaining == 0 {
      assert hi <= |p|;
      assert (p + q)[lo..hi] == p[lo..hi];
    } else {
      assert p + q == p;
    }
  }

  /** Appending one more interval to a vector appends its ascending elements to the enumeration. */
  lemma EnumeratePush(xs: seq<ContiguousIntegerSet>, x: ContiguousIntegerSet)
    ensures Enumerate(xs + [x]) == Enumerate(xs) + Ascending(x)
  {
    EnumerateAppend(xs, [x]);
    assert Enumerate([x]) == Ascending(x) + Enumerate([]);
  }

  /** The elements of an optional piece, in ascending order. */
  function PieceElems(piece: Option<ContiguousIntegerSet>): seq<int>
  {
    match piece
    case Some(x) => Ascending(x)
    case None => []
  }

  /**
    One pass of the loop of `slice` over an interval: skip it whole, or take
    the piece after the last skipped element, or take its first elements.
   */
  method TakeFromInterval(interval: ContiguousIntegerSet, lo: nat, hi: nat, skip: nat, remaining: nat,
                          ghost p: seq<int>, ghost taken: seq<int>)
    returns (piece: Option<ContiguousIntegerSet>, skip': nat, remaining': nat)
    requires lo < hi && 0 < remaining && SliceState(p, lo, hi, skip, remaining, taken)
    ensures SliceState(p + Ascending(interval), lo, hi, skip', remaining', taken + PieceElems(piece))
    ensures piece.Some? ==>
      !Contiguous.IsEmpty(piece.value) && interval.start <= piece.value.start && piece.value.end <= interval.end
  {
    ghost var a := Ascending(interval);
    var size := Contiguous.Size(interval);
    if skip > 0 {
      if skip >= size {
        SliceSkipStep(p, a, lo, hi, skip, remaining, taken);
        return None, skip - size, remaining;
      } else {
        var stop := Min(skip + remaining, size);
        SliceFirstStep(p, a, lo, hi, skip, remaining, taken, stop);
        piece := Contiguous.Slice(interval, skip, stop);
        remaining' := remaining - (stop - skip);
        skip' := 0;
      }
    } else {
      var increase := Min(remaining, size);
      SliceTakeStep(p, a, lo, hi, remaining, taken, increase);
      piece := Contiguous.Slice(interval, 0, increase);
      assert piece.None? ==> a[..increase] == [];
      remaining' := remaining - increase;
      skip' := 0;
    }
  }

  /**
    `slice` on a set (ordered_integer_set.rs, lines 88-123): skip the first
    `lo` elements, then take pieces of the intervals until hi - lo elements
    are taken or the intervals run out.
   */
  method Slice(s: seq<ContiguousIntegerSet>, lo: nat, hi: nat) returns (r: seq<ContiguousIntegerSet>)
    ensures Canonical(r)
    ensures SetElems(r) == SeqElems(Ranks(s, lo, hi))
    ensures Canonical(s) ==> Enumerate(r) == Ranks(s, lo, hi)
    ensures Canonical(s) && lo < hi && lo < Size(s) ==> Size(r) == Min(hi, Size(s)) - lo
    ensures lo >= hi || lo >= Size(s) ==> r == []
  {
    if lo >= hi {
      return [];
    }
    var pieces := SlicePieces(s, lo, hi);
    SliceResult(s, lo, hi, pieces);
    r := FromContiguousIntegerSets(pieces);
  }

  /**
    What the loop of `slice` keeps after k intervals: the ranks bookkeeping
    of `SliceState` over the first k intervals, no empty piece, and, for a
    canonical set, canonical pieces that end within the intervals seen.
   */
  ghost predicate SliceInvariant(s: seq<ContiguousIntegerSet>, k: int, lo: nat, hi: nat, skip: nat, remaining: nat,
                                 pieces: seq<ContiguousIntegerSet>)
  {
    0 <= k <= |s| &&
    SliceState(Enumerate(s[..k]), lo, hi, skip, remaining, Enumerate(pieces)) &&
    NoEmptyIntervals(pieces) &&
    (Canonical(s) ==> Canonical(pieces) && (pieces != [] ==> 0 < k && LastInterval(pieces).end <= s[k - 1].end))
  }

  /** The loop of `slice`: the pieces taken, in the order of the intervals they come from. */
  method SlicePieces(s: seq<ContiguousIntegerSet>, lo: nat, hi: nat) returns (pieces: seq<ContiguousIntegerSet>)
    requires lo < hi
    ensures Enumerate(pieces) == Ranks(s, lo, hi)
    ensures NoEmptyIntervals(pieces)
    ensures Canonical(s) ==> Canonical(pieces)
  {
    var skip: nat := lo;
    var remaining: nat := hi - lo;
    pieces := [];
    var k := 0;
    while k < |s|
      invariant SliceInvariant(s, k, lo, hi, skip, remaining, pieces)
    {
      if remaining == 0 {
        break;
      }
      skip, remaining, pieces := SliceStep(s, k, lo, hi, skip, remaining, pieces);
      k := k + 1;
    }
    assert s == s[..k] + s[k..];
    EnumerateAppend(s[..k], s[k..]);
    SliceDone(Enumerate(s[..k]), Enumerate(s[k..]), lo, hi, skip, remaining, Enumerate(pieces));
  }

  /** One iteration of the loop of `slice`, over interval k. */
  method SliceStep(s: seq<ContiguousIntegerSet>, k: int, lo: nat, hi: nat, skip: nat, remaining: nat,
                   pieces: seq<ContiguousIntegerSet>)
    returns (skip': nat, remaining': nat, pieces': seq<ContiguousIntegerSet>)
    requires lo < hi && 0 <= k < |s| && 0 < remaining
    requires SliceInvariant(s, k, lo, hi, skip, remaining, pieces)
    ensures SliceInvariant(s, k + 1, lo, hi, skip', remaining', pieces')
  {
    EnumeratePrefix(s, k);
    var piece;
    piece, skip', remaining' := TakeFromInterval(s[k], lo, hi, skip, remaining, Enumerate(s[..k]), Enumerate(pieces));
    match piece {
      case Some(x) =>
        EnumeratePush(pieces, x);
        PushPiece(s, k, pieces, x);
        pieces' := pieces + [x];
      case None =>
        pieces' := pieces;
    }
  }

  /** What the coalesced pieces of `slice` hold, given that they enumerate the requested ranks. */
  lemma SliceResult(s: seq<ContiguousIntegerSet>, lo: nat, hi: nat, pieces: seq<ContiguousIntegerSet>)
    requires lo < hi && NoEmptyIntervals(pieces) && Enumerate(pieces) == Ranks(s, lo, hi)
    requires Canonical(s) ==> Canonical(pieces)
    ensures SetElems(Coalesce(pieces)) == SeqElems(Ranks(s, lo, hi))
    ensures Canonical(s) ==> Enumerate(Coalesce(pieces)) == Ranks(s, lo, hi)
    ensures Canonical(s) && lo < Size(s) ==> Size(Coalesce(pieces)) == Min(hi, Size(s)) - lo
    ensures lo >= Size(s) ==> Coalesce(pieces) == []
  {
    EnumerateElems(pieces);
    if Canonical(s) {
      CoalesceCanonical(pieces);
    }
    if lo >= Size(s) {
      assert Enumerate(pieces) == [];
      SetElemsEmpty(Coalesce(pieces));
    }
  }

  /** A piece taken out of s[k] keeps the pieces taken so far in canonical form. */
  lemma PushPiece(s: seq<ContiguousIntegerSet>, k: int, pieces: seq<ContiguousIntegerSet>, piece: ContiguousIntegerSet)
    requires 0 <= k < |s|
    requires !Contiguous.IsEmpty(piece) && s[k].start <= piece.start && piece.end <= s[k].end
    requires NoEmptyIntervals(pieces)
    requires Canonical(s) ==> Canonical(pieces) && (pieces != [] ==> 0 < k && LastInterval(pieces).end <= s[k - 1].end)
    ensures NoEmptyIntervals(pieces + [piece])
    ensures Canonical(s) ==> Canonical(pieces + [piece]) && LastInterval(pieces + [piece]).end <= s[k].end
  {
    if Canonical(s) {
      AppendCanonical(pieces, [piece]);
    }
  }

  /**
    The step of `collect` (ordered_integer_set.rs, lines 386-394) that handles
    an item to the right of, or next to, the last interval, AS WRITTEN: an item
    one below the start of the last interval is merged into it even when it
    also touches the interval before. None when the general scan is needed.
   */
  function CollectAtEndAsWritten(s: seq<ContiguousIntegerSet>, item: int): (r: Option<seq<ContiguousIntegerSet>>)
    ensures r.None? <==> s == [] || (item <= LastInterval(s).end + 1 && CoalesceWithPoint(LastInterval(s), item).None?)
    ensures r.Some? ==> SetElems(r.value) == SetElems(s) + {item}
    ensures Canonical(s) && r.Some? ==> Separated(r.value)
  {
    if s == [] then None
    else
      var last := LastInterval(s);
      assert s == s[..|s| - 1] + [last];
      SetElemsAppend(s[..|s| - 1], [last]);
      assert SetElems([last]) == Elems(last);
      if item > last.end + 1 then
        var pushed := s + [ContiguousIntegerSet(item, item)];
        SetElemsAppend(s, [ContiguousIntegerSet(item, item)]);
        SetElemsPoint(item);
        Some(pushed)
      else
        match CoalesceWithPoint(last, item)
        case Some(merged) =>
          var replaced := s[..|s| - 1] + [merged];
          SetElemsAppend(s[..|s| - 1], [merged]);
          assert SetElems([merged]) == Elems(merged);
          Some(replaced)
        case None => None
  }

  /**
    The end step of `collect` as evidently intended: an item below the start of
    the last interval is left to the general scan, which also merges the
    interval before when the item closes the gap.
   */
  function CollectAtEnd(s: seq<ContiguousIntegerSet>, item: int): (r: Option<seq<ContiguousIntegerSet>>)
    ensures r.None? <==> s == [] || (item < LastInterval(s).start && !Contiguous.IsEmpty(LastInterval(s)))
    ensures r.Some? ==> SetElems(r.value) == SetElems(s) + {item}
    ensures Canonical(s) && r.Some? ==> Canonical(r.value)
  {
    if s == [] then None
    else
      var last := LastInterval(s);
      if item < last.start && !Contiguous.IsEmpty(last) then None
      else CollectAtEndAsWritten(s, item)
  }

  /** On [[1, 3], [5, 7]] the end step as written turns 4 into [[1, 3], [4, 7]], which is not canonical. */
  lemma CollectAtEndAsWrittenBreaksCanonicalForm()
    ensures Canonical([ContiguousIntegerSet(1, 3), ContiguousIntegerSet(5, 7)])
    ensures CollectAtEndAsWritten([ContiguousIntegerSet(1, 3), ContiguousIntegerSet(5, 7)], 4)
      == Some([ContiguousIntegerSet(1, 3), ContiguousIntegerSet(4, 7)])
    ensures !Canonical([ContiguousIntegerSet(1, 3), ContiguousIntegerSet(4, 7)])
  {
    var s := [ContiguousIntegerSet(1, 3), ContiguousIntegerSet(5, 7)];
    assert s[..|s| - 1] == [ContiguousIntegerSet(1, 3)];
    assert CoalesceWithPoint(ContiguousIntegerSet(5, 7), 4) == Some(ContiguousIntegerSet(4, 7));
    assert s[..|s| - 1] + [ContiguousIntegerSet(4, 7)] == [ContiguousIntegerSet(1, 3), ContiguousIntegerSet(4, 7)];
  }

  /**
    Repeated end steps as written, from the canonical [[1, 1], [3, 7]]:
    collecting 2, 1 and 0 gives [[1, 1], [0, 7]], whose intervals overlap and
    are out of order (`OverlapMisleadsFirstAndSize` shows what that breaks).
   */
  lemma CollectAsWrittenMakesOverlap()
    ensures Canonical([ContiguousIntegerSet(1, 1), ContiguousIntegerSet(3, 7)])
    ensures CollectAtEndAsWritten([ContiguousIntegerSet(1, 1), ContiguousIntegerSet(3, 7)], 2)
      == Some([ContiguousIntegerSet(1, 1), ContiguousIntegerSet(2, 7)])
    ensures CollectAtEndAsWritten([ContiguousIntegerSet(1, 1), ContiguousIntegerSet(2, 7)], 1)
      == Some([ContiguousIntegerSet(1, 1), ContiguousIntegerSet(1, 7)])
    ensures CollectAtEndAsWritten([ContiguousIntegerSet(1, 1), ContiguousIntegerSet(1, 7)], 0)
      == Some([ContiguousIntegerSet(1, 1), ContiguousIntegerSet(0, 7)])
  {
    EndStepAsWritten(ContiguousIntegerSet(1, 1), ContiguousIntegerSet(3, 7), 2, ContiguousIntegerSet(2, 7));
    EndStepAsWritten(ContiguousIntegerSet(1, 1), ContiguousIntegerSet(2, 7), 1, ContiguousIntegerSet(1, 7));
    EndStepAsWritten(ContiguousIntegerSet(1, 1), ContiguousIntegerSet(1, 7), 0, ContiguousIntegerSet(0, 7));
  }

  /**
    On [[1, 1], [0, 7]], the vector the end steps as written produce,
    `first` reports 1 although 0 is an element, and `size` counts 9 for 8
    elements.
   */
  lemma OverlapMisleadsFirstAndSize(a: ContiguousIntegerSet, b: ContiguousIntegerSet)
    requires a == ContiguousIntegerSet(1, 1) && b == ContiguousIntegerSet(0, 7)
    ensures 0 in SetElems([a, b]) && First([a, b]) == Some(1)
    ensures Size([a, b]) == 9 && |SetElems([a, b])| == 8
  {
    var s := [a, b];
    assert s[1..] == [b];
    SetElemsSingleton(b);
    assert SetElems(s) == Elems(b);
    SizeIsCardinality(b);
    assert s[1..][1..] == [];
  }

  /** The end step as written on a two-interval vector, when it merges the item into the last interval. */
  lemma EndStepAsWritten(a: ContiguousIntegerSet, b: ContiguousIntegerSet, item: int, grown: ContiguousIntegerSet)
    requires item <= b.end + 1 && CoalesceWithPoint(b, item) == Some(grown)
    ensures CollectAtEndAsWritten([a, b], item) == Some([a, grown])
  {
    var s := [a, b];
    assert LastInterval(s) == b;
    assert s[..|s| - 1] == [a];
    assert [a] + [grown] == [a, grown];
  }

  /**
    Replacing s[i..j] of a canonical vector by one non-empty interval that
    stays clear of the intervals around it keeps the vector canonical.
   */
  lemma Splice(s: seq<ContiguousIntegerSet>, i: int, j: int, x: ContiguousIntegerSet)
    requires Canonical(s) && 0 <= i <= j <= |s| && !Contiguous.IsEmpty(x)
    requires i > 0 ==> s[i - 1].end + 1 < x.start
    requires j < |s| ==> x.end + 1 < s[j].start
    ensures Canonical(s[..i] + [x] + s[j..])
    ensures SetElems(s[..i] + [x] + s[j..]) == SetElems(s[..i]) + Elems(x) + SetElems(s[j..])
  {
    CanonicalSuffix(s, i);
    CanonicalSuffix(s, j);
    AppendCanonical(s[..i], [x]);
    AppendCanonical(s[..i] + [x], s[j..]);
    ReplaceElems(s, i, j, x);
  }

  /** Replacing s[i..j] by one interval, in any vector: the elements around it stay. */
  lemma ReplaceElems(s: seq<ContiguousIntegerSet>, i: int, j: int, x: ContiguousIntegerSet)
    requires 0 <= i <= j <= |s|
    ensures SetElems(s[..i] + [x] + s[j..]) == SetElems(s[..i]) + Elems(x) + SetElems(s[j..])
  {
    SetElemsAppend(s[..i] + [x], s[j..]);
    SetElemsAppend(s[..i], [x]);
    SetElemsSingleton(x);
  }

  /** The insert branch of the scan adds exactly the item, in any vector. */
  lemma InsertPointElems(s: seq<ContiguousIntegerSet>, i: int, item: int)
    requires 0 <= i <= |s|
    ensures SetElems(s[..i] + [ContiguousIntegerSet(item, item)] + s[i..]) == SetElems(s) + {item}
  {
    ReplaceElems(s, i, i, ContiguousIntegerSet(item, item));
    SetElemsAppend(s[..i], s[i..]);
    assert s[..i] + s[i..] == s;
    assert Elems(ContiguousIntegerSet(item, item)) == {item};
  }

  /** The absorb branch of the scan adds exactly the item, in any vector. */
  lemma AbsorbPointElems(s: seq<ContiguousIntegerSet>, i: int, item: int, grown: ContiguousIntegerSet)
    requires 0 <= i < |s|
    requires CoalesceWithPoint(s[i], item) == Some(grown)
    ensures SetElems(s[..i] + [grown] + s[i + 1..]) == SetElems(s) + {item}
  {
    ReplaceElems(s, i, i + 1, grown);
    SetElemsAround(s, i);
    UnionWithPoint(SetElems(s[..i]), Elems(s[i]), {}, SetElems(s[i + 1..]), item);
  }

  /** The absorb-and-merge branch of the scan adds exactly the item, in any vector. */
  lemma MergePointElems(s: seq<ContiguousIntegerSet>, i: int, item: int, grown: ContiguousIntegerSet, merged: ContiguousIntegerSet)
    requires 0 <= i && i + 1 < |s|
    requires CoalesceWithPoint(s[i], item) == Some(grown)
    requires CoalesceWith(grown, s[i + 1]) == Some(merged)
    ensures SetElems(s[..i] + [merged] + s[i + 2..]) == SetElems(s) + {item}
  {
    ReplaceElems(s, i, i + 2, merged);
    SetElemsAround(s, i);
    SetElemsAround(s[i + 1..], 0);
    assert s[i + 1..][1..] == s[i + 2..];
    assert s[i + 1..][..0] == [];
    UnionWithPoint(SetElems(s[..i]), Elems(s[i]), Elems(s[i + 1]), SetElems(s[i + 2..]), item);
  }

  /**
    Inserting the point {item} at position i, past every interval it does not
    reach and before one it does not touch: the item is added, and a
    canonical vector stays canonical.
   */
  lemma InsertPoint(s: seq<ContiguousIntegerSet>, i: int, item: int)
    requires 0 <= i <= |s|
    requires forall j | 0 <= j < i :: s[j].end + 1 < item
    requires i < |s| ==> item + 1 < s[i].start
    ensures Canonical(s) ==> Canonical(s[..i] + [ContiguousIntegerSet(item, item)] + s[i..])
    ensures SetElems(s[..i] + [ContiguousIntegerSet(item, item)] + s[i..]) == SetElems(s) + {item}
  {
    if Canonical(s) {
      Splice(s, i, i, ContiguousIntegerSet(item, item));
    }
    InsertPointElems(s, i, item);
  }

  /**
    Absorbing item into s[i] when the grown interval stays clear of s[i + 1]:
    the item is added, and a canonical vector stays canonical.
   */
  lemma AbsorbPoint(s: seq<ContiguousIntegerSet>, i: int, item: int, grown: ContiguousIntegerSet)
    requires 0 <= i < |s|
    requires forall j | 0 <= j < i :: s[j].end + 1 < item
    requires CoalesceWithPoint(s[i], item) == Some(grown)
    requires i + 1 < |s| ==> CoalesceWith(grown, s[i + 1]).None?
    ensures Canonical(s) ==> Canonical(s[..i] + [grown] + s[i + 1..])
    ensures SetElems(s[..i] + [grown] + s[i + 1..]) == SetElems(s) + {item}
  {
    if Canonical(s) {
      assert grown.start == Min(s[i].start, item);
      assert i > 0 ==> s[i - 1].end + 1 < s[i].start;
      Splice(s, i, i + 1, grown);
    }
    AbsorbPointElems(s, i, item, grown);
  }

  /**
    Absorbing item into s[i] and merging the grown interval with s[i + 1],
    which it reaches: the item is added, and a canonical vector stays canonical.
   */
  lemma AbsorbPointAndMerge(s: seq<ContiguousIntegerSet>, i: int, item: int, grown: ContiguousIntegerSet, merged: ContiguousIntegerSet)
    requires 0 <= i && i + 1 < |s|
    requires forall j | 0 <= j < i :: s[j].end + 1 < item
    requires CoalesceWithPoint(s[i], item) == Some(grown)
    requires CoalesceWith(grown, s[i + 1]) == Some(merged)
    ensures Canonical(s) ==> Canonical(s[..i] + [merged] + s[i + 2..])
    ensures SetElems(s[..i] + [merged] + s[i + 2..]) == SetElems(s) + {item}
  {
    if Canonical(s) {
      assert grown.start == Min(s[i].start, item) && grown.end == Max(s[i].end, item);
      assert merged.start == grown.start && merged.end == s[i + 1].end;
      assert i > 0 ==> s[i - 1].end + 1 < s[i].start;
      Splice(s, i, i + 2, merged);
    }
    MergePointElems(s, i, item, grown, merged);
  }

  lemma UnionWithPoint(a: set<int>, b: set<int>, c: set<int>, d: set<int>, item: int)
    ensures a + (b + {item} + c) + d == a + (b + (c + d)) + {item}
    ensures a + (b + {item}) + d == a + b + d + {item}
  {
  }

  /** A set whose interval vector the operations below update in place. */
  class OrderedIntegerSet {
    var intervals: seq<ContiguousIntegerSet>

    /** The empty set. */
    constructor New()
      ensures intervals == []
    {
      intervals := [];
    }

    /** Takes the vector as it is; the caller promises it is already canonical. */
    constructor FromOrderedCoalescedContiguousIntegerSets(sets: seq<ContiguousIntegerSet>)
      ensures intervals == sets
    {
      intervals := sets;
    }

    /** Drops the empty intervals, keeping the order of the others. */
    method RemoveEmptyIntervals()
      modifies this
      ensures intervals == NonEmpty(old(intervals))
      ensures NoEmptyIntervals(intervals) && SetElems(intervals) == old(SetElems(intervals))
    {
      intervals := NonEmpty(intervals);
    }

    /** Brings the vector to canonical form without changing the elements. */
    method CoalesceIntervalsInplace()
      modifies this
      ensures intervals == Coalesce(old(intervals))
      ensures Canonical(intervals) && SetElems(intervals) == old(SetElems(intervals))
    {
      RemoveEmptyIntervals();
      CoalesceDeterminedByElems(intervals, old(intervals));
      intervals := Coalesce(intervals);
    }

    /**
      The general scan of `collect`: find the first interval the item comes
      before or touches, and insert, absorb, or absorb and merge with the next.
      It adds exactly the item to any vector, and keeps a canonical one canonical.
     */
    method CollectByScan(item: int)
      modifies this
      ensures Canonical(old(intervals)) ==> Canonical(intervals)
      ensures SetElems(intervals) == old(SetElems(intervals)) + {item}
    {
      var i := 0;
      while i < |intervals|
        invariant 0 <= i <= |intervals|
        invariant intervals == old(intervals)
        invariant forall j | 0 <= j < i :: intervals[j].end + 1 < item
      {
        if item + 1 < intervals[i].start {
          InsertPoint(intervals, i, item);
          intervals := intervals[..i] + [ContiguousIntegerSet(item, item)] + intervals[i..];
          return;
        }
        match CoalesceWithPoint(intervals[i], item) {
          case Some(grown) =>
            ghost var before := intervals;
            intervals := intervals[i := grown];
            if i + 1 < |intervals| {
              match CoalesceWith(grown, intervals[i + 1]) {
                case Some(merged) =>
                  AbsorbPointAndMerge(before, i, item, grown, merged);
                  intervals := intervals[i := merged];
                  intervals := intervals[..i + 1] + intervals[i + 2..];
                  assert intervals == before[..i] + [merged] + before[i + 2..];
                  return;
                case None =>
              }
            }
            AbsorbPoint(before, i, item, grown);
            assert intervals == before[..i] + [grown] + before[i + 1..];
            return;
          case None =>
        }
        i := i + 1;
      }
      InsertPoint(intervals, |intervals|, item);
      assert intervals[..|intervals|] + [ContiguousIntegerSet(item, item)] + intervals[|intervals|..]
        == intervals + [ContiguousIntegerSet(item, item)];
      intervals := intervals + [ContiguousIntegerSet(item, item)];
    }

    /**
      `collect` as written: the end step, else the general scan. It adds
      exactly the item to any vector, but from a canonical vector it only
      keeps the intervals separated, and from the touching vectors that the
      end step produces it can make them overlap (see
      `CollectAsWrittenMakesOverlap` and `OverlapMisleadsFirstAndSize`).
     */
    method CollectAsWritten(item: int)
      modifies this
      ensures CollectAtEndAsWritten(old(intervals), item).Some? ==> intervals == CollectAtEndAsWritten(old(intervals), item).value
      ensures Canonical(old(intervals)) && CollectAtEndAsWritten(old(intervals), item).None? ==> Canonical(intervals)
      ensures Canonical(old(intervals)) ==> Separated(intervals)
      ensures SetElems(intervals) == old(SetElems(intervals)) + {item}
    {
      match CollectAtEndAsWritten(intervals, item) {
        case Some(updated) =>
          intervals := updated;
        case None =>
          ghost var canonical := Canonical(intervals);
          CollectByScan(item);
          if canonical {
            CanonicalIsSeparated(intervals);
          }
      }
    }

    /** `collect` as evidently intended: adds one element and keeps the vector canonical. */
    method Collect(item: int)
      requires Canonical(intervals)
      modifies this
      ensures Canonical(intervals)
      ensures SetElems(intervals) == old(SetElems(intervals)) + {item}
    {
      match CollectAtEnd(intervals, item) {
        case Some(updated) =>
          intervals := updated;
        case None =>
          CollectByScan(item);
      }
    }

    /** `self -= rhs` for an interval. */
    method SubAssignRange(rhs: ContiguousIntegerSet)
      modifies this
      ensures intervals == SetMinusRange(old(intervals), rhs)
      ensures Canonical(intervals) && SetElems(intervals) == old(SetElems(intervals)) - Elems(rhs)
    {
      SetMinusRangeElems(intervals, rhs);
      intervals := SetMinusRange(intervals, rhs);
    }

    /** `self -= rhs` for a set, by the sweep of set subtraction. */
    method SubAssignSet(rhs: OrderedIntegerSet)
      modifies this
      ensures Canonical(intervals)
      ensures Canonical(old(intervals)) && Canonical(old(rhs.intervals)) ==>
        SetElems(intervals) == old(SetElems(intervals)) - old(SetElems(rhs.intervals))
    {
      intervals := SetMinusSet(intervals, rhs.intervals);
    }
  }

  /**
    The elements an iterator over `xs` has still to yield when it stands at
    rank `ce` of interval `ci`.
   */
  function RemainingFrom(xs: seq<ContiguousIntegerSet>, ci: nat, ce: nat): seq<int>
    requires ci <= |xs| && (ci < |xs| ==> ce <= Contiguous.Size(xs[ci]))
  {
    if ci == |xs| then [] else Ascending(xs[ci])[ce..] + Enumerate(xs[ci + 1..])
  }

  /** An exhausted interval adds nothing: the iterator may move on to the next one. */
  lemma RemainingSkipsExhausted(xs: seq<ContiguousIntegerSet>, ci: nat, ce: nat)
    requires ci < |xs| && ce == Contiguous.Size(xs[ci])
    ensures RemainingFrom(xs, ci, ce) == RemainingFrom(xs, ci + 1, 0)
  {
    assert Ascending(xs[ci])[ce..] == [];
    if ci + 1 < |xs| {
      assert xs[ci + 1..][1..] == xs[ci + 2..];
      assert Ascending(xs[ci + 1])[0..] == Ascending(xs[ci + 1]);
    }
  }

  /** Inside an interval, the next element is start + ce. */
  lemma RemainingStepsInside(xs: seq<ContiguousIntegerSet>, ci: nat, ce: nat)
    requires ci < |xs| && ce < Contiguous.Size(xs[ci])
    ensures RemainingFrom(xs, ci, ce) == [xs[ci].start + ce] + RemainingFrom(xs, ci, ce + 1)
  {
    var a, rest := Ascending(xs[ci]), Enumerate(xs[ci + 1..]);
    assert a[ce] == xs[ci].start + ce;
    assert a[ce..] == [a[ce]] + a[ce + 1..];
    assert a[ce..] + rest == [a[ce]] + (a[ce + 1..] + rest);
  }

  /** From the start, an iterator yields the whole enumeration. */
  lemma RemainingFromStart(xs: seq<ContiguousIntegerSet>)
    ensures RemainingFrom(xs, 0, 0) == Enumerate(xs)
  {
    if xs != [] {
      assert Ascending(xs[0])[0..] == Ascending(xs[0]);
    }
  }

  /**
    The element iterator: an interval index and a rank inside that interval.
    It walks a snapshot of the intervals, taken when it is created.
   */
  class IntegerSetIter {
    const intervals: seq<ContiguousIntegerSet>
    var currentIntervalIndex: nat
    var currentElementIndex: nat

    ghost predicate Valid()
      reads this
    {
      currentIntervalIndex <= |intervals| &&
      (currentIntervalIndex < |intervals| ==> currentElementIndex <= Contiguous.Size(intervals[currentIntervalIndex]))
    }

    /** The elements still to come, in the order `Next` yields them. */
    ghost function Remaining(): seq<int>
      reads this
      requires Valid()
    {
      RemainingFrom(intervals, currentIntervalIndex, currentElementIndex)
    }

    /** `IntegerSetIter::from` and `to_iter`: positioned before the first element. */
    constructor (source: seq<ContiguousIntegerSet>)
      ensures intervals == source
      ensures Valid() && Remaining() == Enumerate(source)
    {
      intervals := source;
      currentIntervalIndex := 0;
      currentElementIndex := 0;
      new;
      RemainingFromStart(source);
    }

    /** Yields the next element of the enumeration, skipping exhausted (and empty) intervals. */
    method Next() returns (r: Option<int>)
      requires Valid()
      modifies this
      ensures Valid()
      ensures old(Remaining()) == [] ==> r.None? && Remaining() == []
      ensures old(Remaining()) != [] ==> r == Some(old(Remaining())[0]) && Remaining() == old(Remaining())[1..]
      decreases |intervals| - currentIntervalIndex
    {
      if currentIntervalIndex >= |intervals| {
        r := None;
      } else {
        var interval := intervals[currentIntervalIndex];
        if currentElementIndex >= Contiguous.Size(interval) {
          RemainingSkipsExhausted(intervals, currentIntervalIndex, currentElementIndex);
          currentIntervalIndex := currentIntervalIndex + 1;
          currentElementIndex := 0;
          r := Next();
        } else {
          RemainingStepsInside(intervals, currentIntervalIndex, currentElementIndex);
          r := Some(interval.start + currentElementIndex);
          currentElementIndex := currentElementIndex + 1;
        }
      }
    }
  }
}
