/**
  Vectors of intervals, the representation of an `OrderedIntegerSet`
  (math/src/set/ordered_integer_set.rs, lines 205-208): what such a vector
  denotes, its ascending enumeration, and its canonical form.
 */
module IntervalSequences {
  import opened Contiguous

  /** The union of the elements of every interval in the vector. */
  ghost function SetElems(xs: seq<ContiguousIntegerSet>): set<int>
  {
    if xs == [] then {} else Elems(xs[0]) + SetElems(xs[1..])
  }

  /** The elements of every interval, interval after interval, each in ascending order. */
  function Enumerate(xs: seq<ContiguousIntegerSet>): seq<int>
  {
    if xs == [] then [] else Ascending(xs[0]) + Enumerate(xs[1..])
  }

  /** The elements of an enumeration, as a set. */
  ghost function SeqElems(s: seq<int>): set<int>
  {
    set x | x in s
  }

  function LastInterval(xs: seq<ContiguousIntegerSet>): ContiguousIntegerSet
    requires xs != []
  {
    xs[|xs| - 1]
  }

  predicate NoEmptyIntervals(xs: seq<ContiguousIntegerSet>)
  {
    forall k | 0 <= k < |xs| :: !IsEmpty(xs[k])
  }

  /**
    Canonical form: no empty interval, and every interval ends at least two
    below the start of the next one, so that consecutive intervals neither
    overlap nor touch (which also makes the vector sorted).
   */
  predicate Canonical(xs: seq<ContiguousIntegerSet>)
  {
    NoEmptyIntervals(xs) &&
    forall j, k {:trigger xs[j], xs[k]} | 0 <= j < |xs| - 1 && k == j + 1 :: xs[j].end + 1 < xs[k].start
  }

  /**
    Sorted and pairwise disjoint, without empty intervals, but consecutive
    intervals may touch.
   */
  predicate Separated(xs: seq<ContiguousIntegerSet>)
  {
    NoEmptyIntervals(xs) &&
    forall j, k {:trigger xs[j], xs[k]} | 0 <= j < |xs| - 1 && k == j + 1 :: xs[j].end < xs[k].start
  }

  predicate StrictlyAscending(s: seq<int>)
  {
    forall j, k | 0 <= j < k < |s| :: s[j] < s[k]
  }

  lemma CanonicalIsSeparated(xs: seq<ContiguousIntegerSet>)
    requires Canonical(xs)
    ensures Separated(xs)
  {
  }

  lemma {:induction false} SetElemsAppend(a: seq<ContiguousIntegerSet>, b: seq<ContiguousIntegerSet>)
    ensures SetElems(a + b) == SetElems(a) + SetElems(b)
  {
    if a == [] {
      assert a + b == b;
    } else {
      assert (a + b)[1..] == a[1..] + b;
      SetElemsAppend(a[1..], b);
    }
  }

  lemma {:induction false} EnumerateAppend(a: seq<ContiguousIntegerSet>, b: seq<ContiguousIntegerSet>)
    ensures Enumerate(a + b) == Enumerate(a) + Enumerate(b)
  {
    if a == [] {
      assert a + b == b;
    } else {
      assert (a + b)[1..] == a[1..] + b;
      EnumerateAppend(a[1..], b);
    }
  }

  /** A vector's elements are those some member interval contains. */
  lemma {:induction false} InSetElems(xs: seq<ContiguousIntegerSet>, y: int)
    ensures y in SetElems(xs) <==> exists k | 0 <= k < |xs| :: Contains(xs[k], y)
  {
    if xs != [] {
      InSetElems(xs[1..], y);
      if y in SetElems(xs[1..]) {
        var k :| 0 <= k < |xs[1..]| && Contains(xs[1..][k], y);
        assert Contains(xs[k + 1], y);
      }
      if exists k | 0 <= k < |xs| :: Contains(xs[k], y) {
        var k :| 0 <= k < |xs| && Contains(xs[k], y);
        if k > 0 {
          assert Contains(xs[1..][k - 1], y);
        }
      }
    }
  }

  /** Empty intervals contribute nothing to the elements. */
  lemma {:induction false} SetElemsEmpty(xs: seq<ContiguousIntegerSet>)
    ensures SetElems(xs) == {} <==> forall k | 0 <= k < |xs| :: IsEmpty(xs[k])
  {
    if xs != [] {
      SetElemsEmpty(xs[1..]);
      assert !IsEmpty(xs[0]) ==> xs[0].start in Elems(xs[0]);
      assert forall k | 1 <= k < |xs| :: xs[k] == xs[1..][k - 1];
    }
  }

  /** The enumeration lists exactly the vector's elements. */
  lemma {:induction false} EnumerateElems(xs: seq<ContiguousIntegerSet>)
    ensures SeqElems(Enumerate(xs)) == SetElems(xs)
  {
    if xs != [] {
      EnumerateElems(xs[1..]);
      AscendingElems(xs[0]);
    }
  }

  /** Every element of a canonical vector lies between its first start and its last end. */
  lemma {:induction false} CanonicalBounds(xs: seq<ContiguousIntegerSet>)
    requires Canonical(xs) && xs != []
    ensures forall y | y in SetElems(xs) :: xs[0].start <= y <= LastInterval(xs).end
  {
    if |xs| > 1 {
      CanonicalSuffix(xs, 1);
      CanonicalBounds(xs[1..]);
      assert LastInterval(xs[1..]) == LastInterval(xs);
      assert xs[1..][0] == xs[1];
      CanonicalOrdered(xs, 0, |xs| - 1);
    } else {
      assert SetElems(xs) == Elems(xs[0]) + SetElems([]);
    }
  }

  /** In a canonical vector every earlier interval ends at least two below every later start. */
  lemma {:induction false} CanonicalOrdered(xs: seq<ContiguousIntegerSet>, j: int, k: int)
    requires Canonical(xs) && 0 <= j < k < |xs|
    ensures xs[j].end + 1 < xs[k].start && xs[j].end <= xs[k].end
    decreases k - j
  {
    if j + 1 < k {
      CanonicalOrdered(xs, j + 1, k);
    }
  }

  lemma CanonicalSuffix(xs: seq<ContiguousIntegerSet>, m: int)
    requires Canonical(xs) && 0 <= m <= |xs|
    ensures Canonical(xs[m..]) && Canonical(xs[..m])
  {
    assert forall k | 0 <= k < |xs[m..]| :: xs[m..][k] == xs[m + k];
  }

  /** A canonical vector's elements are its first interval's followed by the rest's, with a gap between. */
  lemma CanonicalSplit(xs: seq<ContiguousIntegerSet>)
    requires Canonical(xs) && xs != []
    ensures SetElems(xs) == Elems(xs[0]) + SetElems(xs[1..])
    ensures forall y | y in SetElems(xs[1..]) :: y > xs[0].end + 1
  {
    if |xs| > 1 {
      CanonicalSuffix(xs, 1);
      CanonicalBounds(xs[1..]);
    }
  }

  lemma SetElemsSingleton(x: ContiguousIntegerSet)
    ensures SetElems([x]) == Elems(x)
  {
    assert SetElems([x]) == Elems(x) + SetElems([]);
  }

  /** A vector holding the single point interval [item, item] denotes {item}. */
  lemma SetElemsPoint(item: int)
    ensures SetElems([ContiguousIntegerSet(item, item)]) == {item}
  {
    assert SetElems([ContiguousIntegerSet(item, item)]) == Elems(ContiguousIntegerSet(item, item)) + SetElems([]);
    assert item in Elems(ContiguousIntegerSet(item, item));
  }

  /** The elements of xs[..i+1] are those of xs[..i] and of xs[i]. */
  lemma SetElemsPrefix(xs: seq<ContiguousIntegerSet>, i: int)
    requires 0 <= i < |xs|
    ensures SetElems(xs[..i + 1]) == SetElems(xs[..i]) + Elems(xs[i])
  {
    assert xs[..i + 1] == xs[..i] + [xs[i]];
    SetElemsAppend(xs[..i], [xs[i]]);
    assert SetElems([xs[i]]) == Elems(xs[i]);
  }

  /** The elements of a vector are those before position i, at i, and after i. */
  lemma SetElemsAround(xs: seq<ContiguousIntegerSet>, i: int)
    requires 0 <= i < |xs|
    ensures SetElems(xs) == SetElems(xs[..i]) + Elems(xs[i]) + SetElems(xs[i + 1..])
  {
    assert xs == xs[..i] + xs[i..];
    SetElemsAppend(xs[..i], xs[i..]);
    assert xs[i..][1..] == xs[i + 1..];
  }

  /** The enumeration of xs[..i+1] extends that of xs[..i] by the ascending elements of xs[i]. */
  lemma EnumeratePrefix(xs: seq<ContiguousIntegerSet>, i: int)
    requires 0 <= i < |xs|
    ensures Enumerate(xs[..i + 1]) == Enumerate(xs[..i]) + Ascending(xs[i])
  {
    assert xs[..i + 1] == xs[..i] + [xs[i]];
    EnumerateAppend(xs[..i], [xs[i]]);
    assert Enumerate([xs[i]]) == Ascending(xs[i]) + Enumerate([]);
  }

  /** The enumeration of a canonical vector is strictly ascending. */
  lemma {:induction false} CanonicalEnumerationAscending(xs: seq<ContiguousIntegerSet>)
    requires Canonical(xs)
    ensures StrictlyAscending(Enumerate(xs))
  {
    if xs != [] {
      CanonicalSuffix(xs, 1);
      CanonicalEnumerationAscending(xs[1..]);
      CanonicalSplit(xs);
      EnumerateElems(xs[1..]);
      var a, b := Ascending(xs[0]), Enumerate(xs[1..]);
      forall j, k | 0 <= j < k < |a + b| ensures (a + b)[j] < (a + b)[k] {
        if k >= |a| && j < |a| {
          assert b[k - |a|] in SeqElems(b);
        }
      }
    }
  }

  /**
    Two canonical vectors with the same elements are equal: the canonical
    form of a finite set of integers is unique.
   */
  lemma {:induction false} CanonicalUnique(a: seq<ContiguousIntegerSet>, b: seq<ContiguousIntegerSet>)
    requires Canonical(a) && Canonical(b) && SetElems(a) == SetElems(b)
    ensures a == b
  {
    if a == [] || b == [] {
      SetElemsEmpty(a);
      SetElemsEmpty(b);
    } else {
      CanonicalSplit(a);
      CanonicalSplit(b);
      CanonicalBounds(a);
      CanonicalBounds(b);
      assert a[0].start in Elems(a[0]) && b[0].start in Elems(b[0]);
      assert a[0].start == b[0].start;
      assert a[0].end + 1 !in SetElems(a);
      assert b[0].end + 1 !in SetElems(b);
      assert a[0] == b[0];
      assert SetElems(a[1..]) == SetElems(a) - Elems(a[0]);
      assert SetElems(b[1..]) == SetElems(b) - Elems(b[0]);
      CanonicalSuffix(a, 1);
      CanonicalSuffix(b, 1);
      CanonicalUnique(a[1..], b[1..]);
      assert a == [a[0]] + a[1..];
      assert b == [b[0]] + b[1..];
    }
  }
}
