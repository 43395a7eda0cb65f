/**
 * Currency normalisation: an implied MXN-per-USD rate from the paired price
 * columns, then every price not already in pesos converted with it.
 */
module Currency {
  import opened Seqs
  import opened Listings

  const Mxn := "MXN"

  /**
   * The rate as pandas computes it in float64 arithmetic: finite, or infinite/NaN.
   * A row whose two prices are both 0 gives 0/0 = NaN, which `mean()` skips; a row
   * with a zero dollar price and a non-zero peso price gives an infinity, which it
   * does not skip.
   */
  datatype Rate = Finite(value: real) | NonFinite

  /** The peso-per-dollar ratios that `mean()` averages: those of rows with a non-zero dollar price. */
  function Ratios(rows: seq<Row>): (r: seq<real>)
    ensures |r| <= |rows|
    ensures r == [] <==> forall i :: 0 <= i < |rows| ==> rows[i].priceUsd == 0.0
  {
    if rows == [] then []
    else
      assert forall i :: 1 <= i < |rows| ==> rows[i] == rows[1..][i - 1];
      (if rows[0].priceUsd != 0.0 then [rows[0].priceLocal / rows[0].priceUsd] else [])
      + Ratios(rows[1..])
  }

  predicate HasInfiniteRatio(rows: seq<Row>)
  {
    exists i :: 0 <= i < |rows| && rows[i].priceUsd == 0.0 && rows[i].priceLocal != 0.0
  }

  /**
   * The exchange rate: the mean, over the listings, of the peso price divided by the dollar
   * price. It is finite exactly when no ratio is infinite and some ratio is a number, and it
   * is then the mean of the ratios of the rows with a non-zero dollar price, in table order.
   */
  function ExchangeRate(rows: seq<Row>): (rate: Rate)
    ensures rate.Finite? <==>
              !HasInfiniteRatio(rows) && exists i :: 0 <= i < |rows| && rows[i].priceUsd != 0.0
    ensures rate.Finite? ==>
              |Filter(rows, NonZeroUsd)| > 0 && rate.value == Mean(RowRatios(Filter(rows, NonZeroUsd)))
  {
    RatiosOfNonZeroRows(rows);
    if HasInfiniteRatio(rows) then NonFinite
    else
      var ratios := Ratios(rows);
      if ratios == [] then NonFinite   // the mean of no values is NaN
      else Finite(Mean(ratios))
  }

  /** Each row's own ratio, for a table in which no dollar price is 0. */
  function RowRatios(rows: seq<Row>): seq<real>
    requires forall i :: 0 <= i < |rows| ==> rows[i].priceUsd != 0.0
  {
    seq(|rows|, i requires 0 <= i < |rows| => rows[i].priceLocal / rows[i].priceUsd)
  }

  /** Whether a row's dollar price is non-zero, so that its ratio is a number `mean()` averages. */
  predicate NonZeroUsd(r: Row)
  {
    r.priceUsd != 0.0
  }

  /** The ratios are exactly those of the rows with a non-zero dollar price, in table order. */
  lemma {:induction false} RatiosOfNonZeroRows(rows: seq<Row>)
    ensures Ratios(rows) == RowRatios(Filter(rows, NonZeroUsd))
  {
    if rows != [] {
      RatiosOfNonZeroRows(rows[1..]);
      var rest := Filter(rows[1..], NonZeroUsd);
      if NonZeroUsd(rows[0]) {
        assert Filter(rows, NonZeroUsd) == [rows[0]] + rest;
        assert RowRatios([rows[0]] + rest) == [rows[0].priceLocal / rows[0].priceUsd] + RowRatios(rest);
      }
    }
  }

  lemma {:induction false} RatiosAllDefined(rows: seq<Row>)
    requires forall i :: 0 <= i < |rows| ==> rows[i].priceUsd != 0.0
    ensures Ratios(rows) == RowRatios(rows)
  {
    if rows != [] {
      RatiosAllDefined(rows[1..]);
    }
  }

  /**
   * When no dollar price is 0 on a non-empty table, the rate is the arithmetic mean
   * over all rows of peso price divided by dollar price.
   */
  lemma RateIsMeanOfRatios(rows: seq<Row>)
    requires |rows| > 0
    requires forall i :: 0 <= i < |rows| ==> rows[i].priceUsd != 0.0
    ensures ExchangeRate(rows) == Finite(Mean(RowRatios(rows)))
  {
    RatiosAllDefined(rows);
  }

  /**
   * A row with both prices 0 gives NaN, which the mean skips: wherever it stands in the
   * table, removing it leaves the rate as it was.
   */
  lemma ZeroRowLeavesRate(a: seq<Row>, z: Row, b: seq<Row>)
    requires z.priceUsd == 0.0 && z.priceLocal == 0.0
    ensures ExchangeRate(a + [z] + b) == ExchangeRate(a + b)
  {
    ZeroRowLeavesRatios(a, z, b);
    ZeroRowLeavesInfinity(a, z, b);
  }

  /** Two tables with the same rows of non-zero dollar price have the same ratios. */
  lemma SameNonZeroRowsSameRatios(s: seq<Row>, t: seq<Row>)
    requires Filter(s, NonZeroUsd) == Filter(t, NonZeroUsd)
    ensures Ratios(s) == Ratios(t)
  {
    RatiosOfNonZeroRows(s);
    RatiosOfNonZeroRows(t);
  }

  lemma ZeroRowLeavesRatios(a: seq<Row>, z: Row, b: seq<Row>)
    requires z.priceUsd == 0.0
    ensures Ratios(a + [z] + b) == Ratios(a + b)
  {
    FilterSkip(a, z, b, NonZeroUsd);
    SameNonZeroRowsSameRatios(a + [z] + b, a + b);
  }

  lemma ZeroRowLeavesInfinity(a: seq<Row>, z: Row, b: seq<Row>)
    requires z.priceLocal == 0.0
    ensures HasInfiniteRatio(a + [z] + b) <==> HasInfiniteRatio(a + b)
  {
    var t := a + [z] + b;
    if HasInfiniteRatio(t) {
      var i :| 0 <= i < |t| && t[i].priceUsd == 0.0 && t[i].priceLocal != 0.0;
      if i < |a| {
        assert t[i] == (a + b)[i];
      } else {
        assert i > |a| && t[i] == (a + b)[i - 1];
      }
    }
    if HasInfiniteRatio(a + b) {
      var i :| 0 <= i < |a + b| && (a + b)[i].priceUsd == 0.0 && (a + b)[i].priceLocal != 0.0;
      if i < |a| {
        assert t[i] == (a + b)[i];
      } else {
        assert t[i + 1] == (a + b)[i];
      }
    }
  }

  /** One row after conversion: a peso listing keeps its prices, any other has both scaled by the rate. */
  function NormalizeRow(r: Row, rate: real): (n: Row)
    ensures r.currency == Mxn ==> n == r
    ensures r.currency != Mxn ==> n.price == r.price * rate && n.pricePerM2 == r.pricePerM2 * rate
    ensures n.(price := r.price, pricePerM2 := r.pricePerM2) == r
  {
    if r.currency == Mxn then r
    else r.(price := r.price * rate, pricePerM2 := r.pricePerM2 * rate)
  }

  /**
   * The table after both column assignments: same length and order, rows in pesos
   * untouched, every other row's two prices multiplied by the rate, no other cell changed.
   */
  function Normalized(rows: seq<Row>, rate: real): (r: seq<Row>)
    ensures |r| == |rows|
    ensures forall i :: 0 <= i < |rows| && rows[i].currency == Mxn ==> r[i] == rows[i]
    ensures forall i :: 0 <= i < |rows| && rows[i].currency != Mxn ==>
              r[i].price == rows[i].price * rate && r[i].pricePerM2 == rows[i].pricePerM2 * rate
    ensures forall i :: 0 <= i < |rows| ==>
              r[i].(price := rows[i].price, pricePerM2 := rows[i].pricePerM2) == rows[i]
  {
    seq(|rows|, i requires 0 <= i < |rows| => NormalizeRow(rows[i], rate))
  }

  /** Converting a table whose rows are all in pesos changes nothing, whatever the rate. */
  lemma NormalizedAllPesos(rows: seq<Row>, rate: real)
    requires forall i :: 0 <= i < |rows| ==> rows[i].currency == Mxn
    ensures Normalized(rows, rate) == rows
  {
  }

  /**
   * The two in-place column assignments: first the price column, then the price per m2
   * column, each a pass over the rows.
   */
  method ConvertToPesos(a: array<Row>, rate: real)
    modifies a
    ensures a[..] == Normalized(old(a[..]), rate)
  {
    var i := 0;
    while i < a.Length
      invariant 0 <= i <= a.Length
      invariant forall k :: 0 <= k < i ==>
                  a[k] == if old(a[k]).currency == Mxn then old(a[k]) else old(a[k]).(price := old(a[k]).price * rate)
      invariant forall k :: i <= k < a.Length ==> a[k] == old(a[k])
    {
      if a[i].currency != Mxn {
        a[i] := a[i].(price := a[i].price * rate);
      }
      i := i + 1;
    }
    i := 0;
    while i < a.Length
      invariant 0 <= i <= a.Length
      invariant forall k :: 0 <= k < i ==> a[k] == NormalizeRow(old(a[k]), rate)
      invariant forall k :: i <= k < a.Length ==>
                  a[k] == if old(a[k]).currency == Mxn then old(a[k]) else old(a[k]).(price := old(a[k]).price * rate)
    {
      if a[i].currency != Mxn {
        a[i] := a[i].(pricePerM2 := a[i].pricePerM2 * rate);
      }
      i := i + 1;
    }
  }

  /** A foreign listing priced 100 with a rate of 2 is priced 200 in pesos. */
  lemma ConversionExample(r: Row)
    requires r.currency == "USD" && r.price == 100.0
    ensures NormalizeRow(r, 2.0).price == 200.0
  {
  }

  /** Two listings each quoted at 200 pesos / 100 dollars give a rate of exactly 2. */
  lemma RateExample(a: Row, b: Row)
    requires a.priceLocal == 200.0 && a.priceUsd == 100.0
    requires b.priceLocal == 200.0 && b.priceUsd == 100.0
    ensures ExchangeRate([a, b]) == Finite(2.0)
  {
    RateIsMeanOfRatios([a, b]);
    var ratios := RowRatios([a, b]);
    assert ratios == [2.0, 2.0];
    assert ratios[1..] == [2.0] && ratios[1..][1..] == [];
    assert Sum(ratios[1..][1..]) == 0.0;
    assert Sum(ratios[1..]) == 2.0;
    assert Sum(ratios) == 4.0;
  }
}
