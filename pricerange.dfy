/**
 * The price-range filter of views 1 and 4: the slider's default range from the
 * table's observed prices, and the mask `rango[0] <= price <= rango[1]`.
 */
module PriceRange {
  import opened Wrappers
  import opened Seqs
  import opened Listings

  /** Python's `int()` on a float: truncation toward zero. */
  function Trunc(x: real): (n: int)
    ensures x >= 0.0 ==> 0.0 <= n as real <= x < n as real + 1.0
    ensures x < 0.0 ==> n as real - 1.0 < x <= n as real <= 0.0
  {
    if x >= 0.0 then x.Floor else -((-x).Floor)
  }

  lemma TruncIntegral(n: int)
    ensures Trunc(n as real) == n
  {
  }

  /** `df['price'].min()` of a non-empty table. */
  function MinPrice(rows: seq<Row>): (m: real)
    requires |rows| > 0
    ensures exists i :: 0 <= i < |rows| && rows[i].price == m
    ensures forall i :: 0 <= i < |rows| ==> m <= rows[i].price
  {
    if |rows| == 1 then rows[0].price
    else
      var rest := MinPrice(rows[1..]);
      assert forall i :: 1 <= i < |rows| ==> rows[i] == rows[1..][i - 1];
      if rows[0].price <= rest then rows[0].price else rest
  }

  /** `df['price'].max()` of a non-empty table. */
  function MaxPrice(rows: seq<Row>): (m: real)
    requires |rows| > 0
    ensures exists i :: 0 <= i < |rows| && rows[i].price == m
    ensures forall i :: 0 <= i < |rows| ==> rows[i].price <= m
  {
    if |rows| == 1 then rows[0].price
    else
      var rest := MaxPrice(rows[1..]);
      assert forall i :: 1 <= i < |rows| ==> rows[i] == rows[1..][i - 1];
      if rows[0].price >= rest then rows[0].price else rest
  }

  /**
   * The truncated minimum and maximum price: the slider's bounds and initial
   * value. The minimum of an empty column is NaN, and `int(NaN)` raises: None.
   */
  function DefaultRange(rows: seq<Row>): (r: Option<(int, int)>)
    ensures r.None? <==> rows == []
    ensures r.Some? ==> r.value.0 <= r.value.1
    ensures r.Some? ==> forall i :: 0 <= i < |rows| ==>
              r.value.0 as real - 1.0 < rows[i].price < r.value.1 as real + 1.0
  {
    if rows == [] then None
    else
      var lo, hi := MinPrice(rows), MaxPrice(rows);
      assert lo <= rows[0].price <= hi;
      TruncMonotone(lo, hi);
      Some((Trunc(lo), Trunc(hi)))
  }

  /** Truncation never reverses the order of two values. */
  lemma TruncMonotone(x: real, y: real)
    requires x <= y
    ensures Trunc(x) <= Trunc(y)
  {
  }

  predicate InRange(r: Row, lo: int, hi: int)
  {
    lo as real <= r.price <= hi as real
  }

  /** The listings priced within the slider's range, bounds included, in table order. */
  function FilterByPrice(rows: seq<Row>, lo: int, hi: int): (shown: seq<Row>)
    ensures |shown| <= |rows|
    ensures forall i :: 0 <= i < |shown| ==> lo as real <= shown[i].price <= hi as real
  {
    Filter(rows, (r: Row) => InRange(r, lo, hi))
  }

  /**
   * The filter keeps exactly the rows priced within the closed range, in their order and
   * with their multiplicities; on a one-point range `[x, x]`, exactly the rows priced x.
   */
  lemma FilterByPriceExact(rows: seq<Row>, lo: int, hi: int, r: Row)
    ensures r in FilterByPrice(rows, lo, hi) <==> r in rows && lo as real <= r.price <= hi as real
    ensures multiset(FilterByPrice(rows, lo, hi))[r] ==
              if lo as real <= r.price <= hi as real then multiset(rows)[r] else 0
    ensures IsSubseq(FilterByPrice(rows, lo, hi), rows)
    ensures lo == hi ==> (r in FilterByPrice(rows, lo, hi) <==> r in rows && r.price == lo as real)
  {
    var keep := (x: Row) => InRange(x, lo, hi);
    FilterMembership(rows, keep, r);
    FilterCount(rows, keep, r);
    FilterIsSubseq(rows, keep);
  }

  /** A reversed range (`rango[0] > rango[1]`) is not rejected: it shows no listing at all. */
  lemma FilterByPriceReversed(rows: seq<Row>, lo: int, hi: int)
    requires lo > hi
    ensures FilterByPrice(rows, lo, hi) == []
  {
    FilterKeepsNone(rows, (r: Row) => InRange(r, lo, hi));
  }

  /** A row is kept by the default range exactly when its price lies between the truncated extremes. */
  lemma DefaultRangeKeeps(rows: seq<Row>, r: Row)
    requires |rows| > 0
    ensures r in FilterByPrice(rows, DefaultRange(rows).value.0, DefaultRange(rows).value.1) <==>
              r in rows && Trunc(MinPrice(rows)) as real <= r.price <= Trunc(MaxPrice(rows)) as real
  {
    var (lo, hi) := DefaultRange(rows).value;
    FilterByPriceExact(rows, lo, hi, r);
  }

  /** When every price is a whole number, the default range keeps the whole table. */
  lemma DefaultRangeKeepsIntegralPrices(rows: seq<Row>)
    requires |rows| > 0
    requires forall i :: 0 <= i < |rows| ==> rows[i].price == rows[i].price.Floor as real
    ensures FilterByPrice(rows, DefaultRange(rows).value.0, DefaultRange(rows).value.1) == rows
  {
    var (lo, hi) := DefaultRange(rows).value;
    var mn, mx := MinPrice(rows), MaxPrice(rows);
    var i :| 0 <= i < |rows| && rows[i].price == mn;
    var j :| 0 <= j < |rows| && rows[j].price == mx;
    TruncIntegral(rows[i].price.Floor);
    TruncIntegral(rows[j].price.Floor);
    assert lo as real == mn && hi as real == mx;
    FilterKeepsAll(rows, (x: Row) => InRange(x, lo, hi));
  }

  /**
   * Truncation can exclude the most expensive listing: with prices 1000 and 2500.5 the
   * default range is (1000, 2500), and the listing of 2500.5 is not shown.
   */
  lemma DefaultRangeDropsFractionalMaximum(a: Row, b: Row)
    requires a.price == 1000.0 && b.price == 2500.5
    ensures DefaultRange([a, b]) == Some((1000, 2500))
    ensures FilterByPrice([a, b], 1000, 2500) == [a]
  {
    assert MaxPrice([a, b]) == 2500.5;
    assert MinPrice([a, b]) == 1000.0;
    assert (2500.5).Floor == 2500;
    var keep := (x: Row) => InRange(x, 1000, 2500);
    assert [a, b][1..] == [b] && [b][1..] == [];
    assert Filter([b], keep) == [];
    assert Filter([a, b], keep) == [a] + Filter([b], keep);
  }
}
