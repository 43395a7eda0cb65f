/**
 * `Series.quantile(p)` with pandas' default 'linear' interpolation: the value at the
 * fractional position (n - 1) * p of the sorted column, interpolated between the two
 * order statistics around it.
 */
module Quantiles {

  predicate Sorted(s: seq<real>)
  {
    forall i, j :: 0 <= i <= j < |s| ==> s[i] <= s[j]
  }

  function Insert(x: real, s: seq<real>): (r: seq<real>)
    requires Sorted(s)
    ensures |r| == |s| + 1
    ensures Sorted(r)
    ensures multiset(r) == multiset(s) + multiset{x}
  {
    if s == [] || x <= s[0] then [x] + s
    else
      var tail := Insert(x, s[1..]);
      assert s == [s[0]] + s[1..];
      HeadBelowAll(s, x, tail);
      [s[0]] + tail
  }

  /** A sequence drawn from the tail of a sorted s plus a value above its head stays above that head. */
  lemma HeadBelowAll(s: seq<real>, x: real, t: seq<real>)
    requires Sorted(s) && s != [] && s[0] < x
    requires multiset(t) == multiset(s[1..]) + multiset{x}
    ensures forall k :: 0 <= k < |t| ==> s[0] <= t[k]
  {
    forall k | 0 <= k < |t|
      ensures s[0] <= t[k]
    {
      assert t[k] in multiset(t);
      if t[k] != x {
        assert t[k] in s[1..];
      }
    }
  }

  /** The column's values in ascending order, with their multiplicities. */
  function Sort(s: seq<real>): (r: seq<real>)
    ensures |r| == |s|
    ensures Sorted(r)
    ensures multiset(r) == multiset(s)
  {
    if s == [] then []
    else
      assert s == [s[0]] + s[1..];
      Insert(s[0], Sort(s[1..]))
  }

  /** The value at fractional position `pos` of the sorted sequence `v`. */
  function Interpolate(v: seq<real>, pos: real): real
    requires 0.0 <= pos <= (|v| - 1) as real
  {
    var lo := pos.Floor;
    var hi := if lo + 1 < |v| then lo + 1 else lo;
    v[lo] + (pos - lo as real) * (v[hi] - v[lo])
  }

  /** A fraction t of a non-negative d lies between 0 and d. */
  lemma ScaleBetween(t: real, d: real)
    requires 0.0 <= t <= 1.0 && 0.0 <= d
    ensures 0.0 <= t * d <= d
  {
    assert (1.0 - t) * d >= 0.0;
  }

  /** Scaling a non-negative d preserves the order of the factors. */
  lemma ScaleMonotone(t1: real, t2: real, d: real)
    requires t1 <= t2 && 0.0 <= d
    ensures t1 * d <= t2 * d
  {
    assert (t2 - t1) * d >= 0.0;
  }

  /** The fractional position (n - 1) * p of the p-quantile in a column of n values. */
  function Position(n: nat, p: real): (pos: real)
    requires n > 0 && 0.0 <= p <= 1.0
    ensures 0.0 <= pos <= (n - 1) as real
  {
    ScaleBetween(p, (n - 1) as real);
    (n - 1) as real * p
  }

  /** The p-quantile of a non-empty column: its sorted values interpolated at (n - 1) * p. */
  function Quantile(s: seq<real>, p: real): (q: real)
    requires |s| > 0 && 0.0 <= p <= 1.0
    ensures Sort(s)[0] <= q <= Sort(s)[|s| - 1]
  {
    var v := Sort(s);
    var pos := Position(|s|, p);
    InterpolateBetween(v, pos);
    assert v[0] <= v[pos.Floor];
    assert pos.Floor + 1 < |v| ==> v[pos.Floor + 1] <= v[|v| - 1];
    Interpolate(v, pos)
  }

  /** At a whole position the interpolated value is that order statistic. */
  lemma InterpolateAtWhole(v: seq<real>, k: nat)
    requires k < |v|
    ensures Interpolate(v, k as real) == v[k]
  {
    assert (k as real).Floor == k;
  }

  /** An interpolated value lies between the order statistics on either side of its position. */
  lemma InterpolateBetween(v: seq<real>, pos: real)
    requires Sorted(v) && 0.0 <= pos <= (|v| - 1) as real
    ensures v[pos.Floor] <= Interpolate(v, pos)
    ensures pos.Floor + 1 < |v| ==> Interpolate(v, pos) <= v[pos.Floor + 1]
    ensures pos.Floor + 1 == |v| ==> Interpolate(v, pos) == v[pos.Floor]
  {
    var lo := pos.Floor;
    var t := pos - lo as real;
    if lo + 1 < |v| {
      var d := v[lo + 1] - v[lo];
      ScaleBetween(t, d);
      assert Interpolate(v, pos) == v[lo] + t * d;
    }
  }

  /** Interpolation on a sorted sequence never decreases as the position moves right. */
  lemma {:induction false} InterpolateMonotone(v: seq<real>, p1: real, p2: real)
    requires Sorted(v)
    requires 0.0 <= p1 <= p2 <= (|v| - 1) as real
    ensures Interpolate(v, p1) <= Interpolate(v, p2)
  {
    var l1, l2 := p1.Floor, p2.Floor;
    InterpolateBetween(v, p1);
    InterpolateBetween(v, p2);
    if l1 == l2 {
      if l1 + 1 < |v| {
        var d := v[l1 + 1] - v[l1];
        var t1, t2 := p1 - l1 as real, p2 - l1 as real;
        ScaleMonotone(t1, t2, d);
        assert Interpolate(v, p1) == v[l1] + t1 * d;
        assert Interpolate(v, p2) == v[l1] + t2 * d;
      }
    } else {
      assert v[l1 + 1] <= v[l2];
    }
  }

  /** The first quartile never exceeds the third, so the interquartile range is never negative. */
  lemma {:induction false} QuartilesOrdered(s: seq<real>)
    requires |s| > 0
    ensures Quantile(s, 0.25) <= Quantile(s, 0.75)
  {
    InterpolateMonotone(Sort(s), Position(|s|, 0.25), Position(|s|, 0.75));
  }

  /** In an ascending column of five values the quartiles are the second and fourth values. */
  lemma QuartilesOfFive(s: seq<real>)
    requires |s| == 5 && Sorted(s)
    ensures Quantile(s, 0.25) == s[1] && Quantile(s, 0.75) == s[3]
  {
    SortOfSorted(s);
    assert Position(|s|, 0.25) == 1 as real;
    assert Position(|s|, 0.75) == 3 as real;
    InterpolateAtWhole(s, 1);
    InterpolateAtWhole(s, 3);
  }

  /** A closed interval of values. */
  datatype Bounds = Bounds(lower: real, upper: real)

  predicate Within(b: Bounds, x: real)
  {
    b.lower <= x <= b.upper
  }

  /** The fences of quartiles q1 and q3: one and a half interquartile ranges below q1 and above q3. */
  function Fences(q1: real, q3: real): Bounds
  {
    var iqr := q3 - q1;
    Bounds(q1 - 1.5 * iqr, q3 + 1.5 * iqr)
  }

  /** The fences of a sorted sequence, from its linear-interpolated quartiles. */
  predicate WithinFences(v: seq<real>, x: real)
    requires |v| > 0
  {
    Within(Fences(Interpolate(v, Position(|v|, 0.25)), Interpolate(v, Position(|v|, 0.75))), x)
  }

  lemma TwoValuesWithinFences(v: seq<real>)
    requires |v| == 2 && Sorted(v)
    ensures WithinFences(v, v[0])
  {
    assert Position(2, 0.25) == 0.25 && Position(2, 0.75) == 0.75;
    assert (0.25).Floor == 0 && (0.75).Floor == 0;
    var d := v[1] - v[0];
    assert Interpolate(v, 0.25) == v[0] + 0.25 * d;
    assert Interpolate(v, 0.75) == v[0] + 0.75 * d;
  }

  /** The order statistic just below the third quartile's position lies within the fences. */
  lemma {:induction false} SortedWithinFences(v: seq<real>)
    requires |v| > 0 && Sorted(v)
    ensures WithinFences(v, v[Position(|v|, 0.75).Floor])
  {
    var p1, p3 := Position(|v|, 0.25), Position(|v|, 0.75);
    var l1, l3 := p1.Floor, p3.Floor;
    InterpolateMonotone(v, p1, p3);
    InterpolateBetween(v, p1);
    InterpolateBetween(v, p3);
    if l1 < l3 {
      assert v[l1 + 1] <= v[l3];
    } else if |v| == 1 {
      assert v[l3] == Interpolate(v, p1);
    } else {
      assert p3 - p1 == (|v| - 1) as real * 0.5;
      assert |v| == 2;
      TwoValuesWithinFences(v);
    }
  }

  /** Every value of the sorted column is a value of the column. */
  lemma SortedValueOccurs(s: seq<real>, i: nat)
    requires i < |s|
    ensures Sort(s)[i] in s
  {
    var v := Sort(s);
    assert v[i] in multiset(v);
    assert v[i] in multiset(s);
  }

  /** Some value of a non-empty column lies within the fences of its quartiles. */
  lemma SomeValueWithinFences(s: seq<real>)
    requires |s| > 0
    ensures exists k :: 0 <= k < |s| && Within(Fences(Quantile(s, 0.25), Quantile(s, 0.75)), s[k])
  {
    var v := Sort(s);
    var idx := Position(|s|, 0.75).Floor;
    SortedWithinFences(v);
    assert Within(Fences(Quantile(s, 0.25), Quantile(s, 0.75)), v[idx]);
    SortedValueOccurs(s, idx);
    var k :| 0 <= k < |s| && s[k] == v[idx];
  }

  /** In an ascending column of four values both quartiles fall between two order statistics. */
  lemma QuartilesOfFour(s: seq<real>)
    requires |s| == 4 && Sorted(s)
    ensures Quantile(s, 0.25) == s[0] + 0.75 * (s[1] - s[0])
    ensures Quantile(s, 0.75) == s[2] + 0.25 * (s[3] - s[2])
  {
    SortOfSorted(s);
    assert Position(|s|, 0.25) == 0.75;
    assert Position(|s|, 0.75) == 2.25;
    assert (0.75).Floor == 0;
    assert (2.25).Floor == 2;
  }

  /** The column [1, 2, 3, 4, 100] has first quartile 2 and third quartile 4. */
  lemma QuartilesOfExample()
    ensures Quantile([1.0, 2.0, 3.0, 4.0, 100.0], 0.25) == 2.0
    ensures Quantile([1.0, 2.0, 3.0, 4.0, 100.0], 0.75) == 4.0
  {
    QuartilesOfFive([1.0, 2.0, 3.0, 4.0, 100.0]);
  }

  /** Sorting an already ascending column leaves it as it is. */
  lemma {:induction false} SortOfSorted(s: seq<real>)
    requires Sorted(s)
    ensures Sort(s) == s
  {
    if s != [] {
      SortOfSorted(s[1..]);
      assert s == [s[0]] + s[1..];
    }
  }
}
