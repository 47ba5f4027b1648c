/**
 * numpy's default ("linear") quantile, restricted to the quartiles the risk
 * mapper asks for, over exact rationals. The sample is sorted first; the
 * quantile at probability p is found at the virtual index p * (n - 1) by
 * interpolating linearly between the two order statistics around it.
 */
module Quantiles {

  predicate Sorted(s: seq<int>)
  {
    forall i, j :: 0 <= i <= j < |s| ==> s[i] <= s[j]
  }

  /** Inserts x into a sorted sequence. */
  function Insert(x: int, s: seq<int>): (r: seq<int>)
    requires Sorted(s)
    ensures Sorted(r)
    ensures |r| == |s| + 1
    ensures forall y :: y in r <==> y == x || y in s
    ensures multiset(r) == multiset(s) + multiset{x}
  {
    if s == [] then [x]
    else if x <= s[0] then [x] + s
    else
      assert s == [s[0]] + s[1..];
      var rest := Insert(x, s[1..]);
      InsertHead(s[0], rest);
      [s[0]] + rest
  }

  /** Prefixing a sorted sequence with a value no larger than its elements keeps it sorted. */
  lemma InsertHead(y: int, rest: seq<int>)
    requires Sorted(rest)
    requires forall z :: z in rest ==> y <= z
    ensures Sorted([y] + rest)
  {
    forall i, j | 0 <= i <= j < |[y] + rest|
      ensures ([y] + rest)[i] <= ([y] + rest)[j]
    {
      if i == 0 && j > 0 {
        assert ([y] + rest)[j] == rest[j - 1];
        assert rest[j - 1] in rest;
      }
    }
  }

  /** The sample in ascending order: a sorted permutation of its input. */
  function Sort(s: seq<int>): (r: seq<int>)
    ensures Sorted(r)
    ensures multiset(r) == multiset(s)
    ensures |r| == |s|
    ensures forall y :: y in r <==> y in s
  {
    if s == [] then []
    else
      assert s == [s[0]] + s[1..];
      Insert(s[0], Sort(s[1..]))
  }

  /** Sorting a sample that is already in order gives the sample back. */
  lemma {:induction false} SortOfSorted(s: seq<int>)
    requires Sorted(s)
    ensures Sort(s) == s
  {
    if s != [] {
      assert Sorted(s[1..]);
      SortOfSorted(s[1..]);
      assert s == [s[0]] + s[1..];
    }
  }

  /**
   * The linear-interpolation quantile of a sorted sample at the virtual index
   * h / 4: the lower neighbour is s[h / 4], the upper one the next index
   * clipped to the last, and the weight of the upper one is (h % 4) / 4.
   */
  function LinearAt(s: seq<int>, h: nat): (q: real)
    requires Sorted(s) && |s| > 0 && h <= 4 * (|s| - 1)
    ensures s[h / 4] as real <= q
    ensures h % 4 == 0 ==> q == s[h / 4] as real
    ensures h % 4 != 0 ==> h / 4 + 1 < |s| && q <= s[h / 4 + 1] as real
  {
    var lo := h / 4;
    var hi := if lo + 1 < |s| then lo + 1 else lo;
    var gamma := (h % 4) as real / 4.0;
    var gap := s[hi] as real - s[lo] as real;
    assert h == 4 * lo + h % 4;
    assert h % 4 != 0 ==> hi == lo + 1;
    assert s[lo] <= s[hi];
    ScaledGap(gamma, gap);
    var q := s[lo] as real + gamma * gap;
    assert h % 4 == 0 ==> gamma == 0.0 && q == s[lo] as real;
    assert h % 4 != 0 ==> q <= s[hi] as real;
    q
  }

  /** A weight in [0, 1] scales a non-negative gap to between 0 and the gap. */
  lemma ScaledGap(gamma: real, gap: real)
    requires 0.0 <= gamma <= 1.0 && 0.0 <= gap
    ensures 0.0 <= gamma * gap <= gap
    ensures gamma == 0.0 ==> gamma * gap == 0.0
  {
    assert gap - gamma * gap == (1.0 - gamma) * gap;
  }

  /** A larger weight scales a non-negative gap to at least as much. */
  lemma ScaledGapMonotone(g1: real, g2: real, gap: real)
    requires g1 <= g2 && 0.0 <= gap
    ensures g1 * gap <= g2 * gap
  {
    assert g2 * gap - g1 * gap == (g2 - g1) * gap;
  }

  /** A later virtual index never gives a smaller quantile. */
  lemma LinearAtMonotone(s: seq<int>, h1: nat, h2: nat)
    requires Sorted(s) && |s| > 0 && h1 <= h2 <= 4 * (|s| - 1)
    ensures LinearAt(s, h1) <= LinearAt(s, h2)
  {
    if h1 / 4 == h2 / 4 {
      LinearAtSameCell(s, h1, h2);
    } else {
      LinearAtLaterCell(s, h1, h2);
    }
  }

  /** Within one pair of neighbours the quantile grows with the weight of the upper one. */
  lemma LinearAtSameCell(s: seq<int>, h1: nat, h2: nat)
    requires Sorted(s) && |s| > 0 && h1 <= h2 <= 4 * (|s| - 1)
    requires h1 / 4 == h2 / 4
    ensures LinearAt(s, h1) <= LinearAt(s, h2)
  {
    var lo := h1 / 4;
    assert h1 == 4 * lo + h1 % 4 && h2 == 4 * lo + h2 % 4;
    assert h1 % 4 <= h2 % 4;
    if h1 % 4 == 0 {
      assert LinearAt(s, h1) == s[lo] as real;
      assert s[lo] as real <= LinearAt(s, h2);
    } else {
      assert lo + 1 < |s|;
      var g1, g2 := (h1 % 4) as real / 4.0, (h2 % 4) as real / 4.0;
      var d := s[lo + 1] as real - s[lo] as real;
      assert s[lo] <= s[lo + 1];
      assert LinearAt(s, h1) == s[lo] as real + g1 * d;
      assert LinearAt(s, h2) == s[lo] as real + g2 * d;
      ScaledGapMonotone(g1, g2, d);
    }
  }

  /** A quantile in a later pair of neighbours is at least the upper end of an earlier pair. */
  lemma LinearAtLaterCell(s: seq<int>, h1: nat, h2: nat)
    requires Sorted(s) && |s| > 0 && h1 <= h2 <= 4 * (|s| - 1)
    requires h1 / 4 < h2 / 4
    ensures LinearAt(s, h1) <= LinearAt(s, h2)
  {
    var lo1, lo2 := h1 / 4, h2 / 4;
    assert s[lo2] as real <= LinearAt(s, h2);
    if h1 % 4 != 0 {
      assert lo1 + 1 <= lo2;
      assert s[lo1 + 1] <= s[lo2];
      assert LinearAt(s, h1) <= s[lo1 + 1] as real;
    } else {
      assert s[lo1] <= s[lo2];
      assert LinearAt(s, h1) == s[lo1] as real;
    }
  }

  /** Four times the virtual index k / 4 * (n - 1) of quartile k in a sample of n values. */
  function VirtualIndex(n: nat, k: nat): (h: nat)
    requires n > 0 && 1 <= k <= 3
    ensures h <= 4 * (n - 1)
  {
    if k == 1 then n - 1 else if k == 2 then 2 * (n - 1) else 3 * (n - 1)
  }

  /** Quartile k (k = 1, 2, 3: probability k / 4) of a sorted sample. */
  function Quartile(s: seq<int>, k: nat): (q: real)
    requires Sorted(s) && |s| > 0 && 1 <= k <= 3
    ensures s[0] as real <= q <= s[|s| - 1] as real
  {
    var h := VirtualIndex(|s|, k);
    var q := LinearAt(s, h);
    assert s[0] <= s[h / 4];
    assert h % 4 != 0 ==> s[h / 4 + 1] <= s[|s| - 1];
    q
  }

  /** Some element of the sample is at most q: q is not below its minimum. */
  predicate AtLeastMin(values: seq<int>, q: real)
  {
    exists i :: 0 <= i < |values| && values[i] as real <= q
  }

  /** Some element of the sample is at least q: q is not above its maximum. */
  predicate AtMostMax(values: seq<int>, q: real)
  {
    exists i :: 0 <= i < |values| && q <= values[i] as real
  }

  /**
   * The first, second and third quartile of the sample: the three cut points
   * are ordered and each lies between the smallest and the largest value.
   */
  function Quartiles(values: seq<int>): (q: seq<real>)
    requires |values| > 0
    ensures |q| == 3
    ensures q[0] <= q[1] <= q[2]
    ensures AtLeastMin(values, q[0]) && AtMostMax(values, q[0])
    ensures AtLeastMin(values, q[1]) && AtMostMax(values, q[1])
    ensures AtLeastMin(values, q[2]) && AtMostMax(values, q[2])
  {
    var s := Sort(values);
    QuartilesWithinSample(values);
    [Quartile(s, 1), Quartile(s, 2), Quartile(s, 3)]
  }

  /** The quartiles of the sorted sample are ordered and lie between its minimum and maximum. */
  lemma QuartilesWithinSample(values: seq<int>)
    requires |values| > 0
    ensures var s := Sort(values);
      && Quartile(s, 1) <= Quartile(s, 2) <= Quartile(s, 3)
      && AtLeastMin(values, Quartile(s, 1)) && AtMostMax(values, Quartile(s, 1))
      && AtLeastMin(values, Quartile(s, 2)) && AtMostMax(values, Quartile(s, 2))
      && AtLeastMin(values, Quartile(s, 3)) && AtMostMax(values, Quartile(s, 3))
  {
    var s := Sort(values);
    QuartilesOrdered(s);
    SampleEnds(values, Quartile(s, 1));
    SampleEnds(values, Quartile(s, 2));
    SampleEnds(values, Quartile(s, 3));
  }

  /** The quartiles of a sorted sample are in order. */
  lemma QuartilesOrdered(s: seq<int>)
    requires Sorted(s) && |s| > 0
    ensures Quartile(s, 1) <= Quartile(s, 2) <= Quartile(s, 3)
  {
    var n := |s|;
    LinearAtMonotone(s, VirtualIndex(n, 1), VirtualIndex(n, 2));
    LinearAtMonotone(s, VirtualIndex(n, 2), VirtualIndex(n, 3));
  }

  /** A value between the sorted sample's ends lies between its minimum and maximum. */
  lemma SampleEnds(values: seq<int>, x: real)
    requires |values| > 0
    requires Sort(values)[0] as real <= x <= Sort(values)[|values| - 1] as real
    ensures AtLeastMin(values, x) && AtMostMax(values, x)
  {
    var s := Sort(values);
    assert s[0] in s && s[|s| - 1] in s;
    var lo :| 0 <= lo < |values| && values[lo] == s[0];
    var hi :| 0 <= hi < |values| && values[hi] == s[|s| - 1];
  }

  /** When every value is the same, the three cut points collapse onto it. */
  lemma AllTiesQuartiles(values: seq<int>, c: int)
    requires |values| > 0
    requires forall i :: 0 <= i < |values| ==> values[i] == c
    ensures Quartiles(values) == [c as real, c as real, c as real]
  {
    var s := Sort(values);
    forall i | 0 <= i < |s| ensures s[i] == c {
      assert s[i] in s;
      assert s[i] in values;
      var j :| 0 <= j < |values| && values[j] == s[i];
    }
  }

  /** The ten values 1..10 have the quartiles 3.25, 5.5 and 7.75. */
  lemma QuartilesOneToTen(values: seq<int>)
    requires |values| == 10 && forall i :: 0 <= i < 10 ==> values[i] == i + 1
    ensures Quartiles(values) == [3.25, 5.5, 7.75]
  {
    assert Sorted(values);
    SortOfSorted(values);
    assert Quartile(values, 1) == 3.25 by {
      assert VirtualIndex(10, 1) == 9;
      assert LinearAt(values, 9) == 3.25;
    }
    assert Quartile(values, 2) == 5.5 by {
      assert VirtualIndex(10, 2) == 18;
      assert LinearAt(values, 18) == 5.5;
    }
    assert Quartile(values, 3) == 7.75 by {
      assert VirtualIndex(10, 3) == 27;
      assert LinearAt(values, 27) == 7.75;
    }
  }
}
