/**
 * The interquartile-range outlier filter, applied column after column, each time
 * on the table the previous column's filter left.
 */
module Outliers {
  import opened Seqs
  import opened Quantiles
  import opened Listings

  /** The columns the filter is applied to. */
  datatype NumericColumn = PricePerM2 | SurfaceTotal

  /** `numeric_cols`, in the order the loop visits them. */
  const NumericCols := [PricePerM2, SurfaceTotal]

  function Value(r: Row, c: NumericColumn): real
  {
    match c
    case PricePerM2 => r.pricePerM2
    case SurfaceTotal => r.surfaceTotal
  }

  /** The column's values, row by row. */
  function ColumnValues(rows: seq<Row>, c: NumericColumn): seq<real>
  {
    seq(|rows|, i requires 0 <= i < |rows| => Value(rows[i], c))
  }

  /**
   * The bounds of one pass: the fences of the column's first and third quartiles. Both
   * quartiles lie inside them, and the bounds are four interquartile ranges wide.
   */
  function IqrBounds(values: seq<real>): (b: Bounds)
    requires |values| > 0
    ensures b.lower <= Quantile(values, 0.25) <= Quantile(values, 0.75) <= b.upper
    ensures b.upper - b.lower == 4.0 * (Quantile(values, 0.75) - Quantile(values, 0.25))
  {
    QuartilesOrdered(values);
    Fences(Quantile(values, 0.25), Quantile(values, 0.75))
  }

  /**
   * One pass of the loop: keep the rows whose value in the column lies within the
   * fences, with the fences computed on `rows` itself. On an empty table the quartiles are NaN
   * and the mask selects nothing.
   */
  function OutlierStep(rows: seq<Row>, c: NumericColumn): (kept: seq<Row>)
    ensures IsSubseq(kept, rows)
    ensures forall i :: 0 <= i < |kept| ==> Passes(rows, c, kept[i])
  {
    if rows == [] then []
    else
      var b := IqrBounds(ColumnValues(rows, c));
      FilterIsSubseq(rows, (r: Row) => Within(b, Value(r, c)));
      Filter(rows, (r: Row) => Within(b, Value(r, c)))
  }

  /** The loop `for col in cols`, threading the table through one pass per column. */
  function FilterOutliers(rows: seq<Row>, cols: seq<NumericColumn>): (kept: seq<Row>)
    ensures IsSubseq(kept, rows)
    ensures |kept| <= |rows|
    decreases |cols|
  {
    if cols == [] then
      SubseqRefl(rows);
      rows
    else
      var next := OutlierStep(rows, cols[0]);
      var rest := FilterOutliers(next, cols[1..]);
      SubseqTrans(rest, next, rows);
      SubseqLength(rest, rows);
      rest
  }

  /**
   * The bounds of one pass as the loop body computes them: the two quartiles of the
   * column, their distance, and the fences one and a half times that distance beyond them.
   * Selecting by them is exactly the pass.
   */
  method PassBounds(rows: seq<Row>, c: NumericColumn) returns (bounds: Bounds)
    requires rows != []
    ensures bounds == IqrBounds(ColumnValues(rows, c))
    ensures OutlierStep(rows, c) == Filter(rows, (r: Row) => Within(bounds, Value(r, c)))
  {
    var values := ColumnValues(rows, c);
    var q1 := Quantile(values, 0.25);
    var q3 := Quantile(values, 0.75);
    var iqr := q3 - q1;
    bounds := Bounds(q1 - 1.5 * iqr, q3 + 1.5 * iqr);
  }

  /** The outlier loop itself, recomputing the quartiles and bounds of the current table each pass. */
  method RemoveOutliers(rows: seq<Row>, cols: seq<NumericColumn>) returns (kept: seq<Row>)
    ensures kept == FilterOutliers(rows, cols)
    ensures IsSubseq(kept, rows)
  {
    kept := rows;
    SubseqRefl(rows);
    var i := 0;
    while i < |cols|
      invariant 0 <= i <= |cols|
      invariant FilterOutliers(kept, cols[i..]) == FilterOutliers(rows, cols)
      invariant IsSubseq(kept, rows)
    {
      var col := cols[i];
      var before := kept;
      if kept != [] {
        var bounds := PassBounds(kept, col);
        kept := Filter(kept, (r: Row) => Within(bounds, Value(r, col)));
      }
      assert kept == OutlierStep(before, col);
      SubseqTrans(kept, before, rows);
      assert cols[i..][0] == col && cols[i..][1..] == cols[i + 1..];
      i := i + 1;
    }
  }

  /** `x` lies within the bounds of column `c` computed on the non-empty table `rows`. */
  predicate Passes(rows: seq<Row>, c: NumericColumn, x: Row)
  {
    rows != [] && Within(IqrBounds(ColumnValues(rows, c)), Value(x, c))
  }

  /**
   * A row survives the pass for column `c` exactly when it was in the table entering
   * the pass and its value lies within the bounds from that table's quartiles; the mask
   * works by position, so every copy of a surviving listing survives.
   */
  lemma OutlierStepKeeps(rows: seq<Row>, c: NumericColumn, r: Row)
    ensures r in OutlierStep(rows, c) <==> r in rows && Passes(rows, c, r)
    ensures multiset(OutlierStep(rows, c))[r] == if Passes(rows, c, r) then multiset(rows)[r] else 0
  {
    if rows == [] { return; }
    var b := IqrBounds(ColumnValues(rows, c));
    FilterMembership(rows, (x: Row) => Within(b, Value(x, c)), r);
    FilterCount(rows, (x: Row) => Within(b, Value(x, c)), r);
  }

  /** A pass never empties a non-empty table: some listing always lies within the fences. */
  lemma OutlierStepNonEmpty(rows: seq<Row>, c: NumericColumn)
    requires |rows| > 0
    ensures |OutlierStep(rows, c)| > 0
  {
    var values := ColumnValues(rows, c);
    SomeValueWithinFences(values);
    var k :| 0 <= k < |values| && Within(IqrBounds(values), values[k]);
    OutlierStepKeeps(rows, c, rows[k]);
  }

  /** Hence the whole loop never empties a non-empty table either. */
  lemma {:induction false} FilterOutliersNonEmpty(rows: seq<Row>, cols: seq<NumericColumn>)
    requires |rows| > 0
    ensures |FilterOutliers(rows, cols)| > 0
    decreases |cols|
  {
    if cols != [] {
      OutlierStepNonEmpty(rows, cols[0]);
      FilterOutliersNonEmpty(OutlierStep(rows, cols[0]), cols[1..]);
    }
  }

  /**
   * The two passes of the dashboard: the price-per-m2 pass on the converted table,
   * then the surface pass on what the first pass left. Each table is a subsequence of
   * the one before, and a listing survives, with all its copies, exactly when it lies
   * within both passes' bounds, the second computed on the already reduced table.
   */
  lemma TwoPasses(rows: seq<Row>, r: Row)
    ensures var t1 := OutlierStep(rows, PricePerM2);
            var t2 := OutlierStep(t1, SurfaceTotal);
            && FilterOutliers(rows, NumericCols) == t2
            && IsSubseq(t1, rows) && IsSubseq(t2, t1)
            && (r in t2 <==>
                  r in rows && Passes(rows, PricePerM2, r) && Passes(t1, SurfaceTotal, r))
            && multiset(t2)[r] ==
                 if Passes(rows, PricePerM2, r) && Passes(t1, SurfaceTotal, r) then multiset(rows)[r] else 0
  {
    var t1 := OutlierStep(rows, PricePerM2);
    var t2 := OutlierStep(t1, SurfaceTotal);
    assert NumericCols[1..] == [SurfaceTotal] && NumericCols[1..][1..] == [];
    OutlierStepKeeps(t1, SurfaceTotal, r);
    OutlierStepKeeps(rows, PricePerM2, r);
  }

  /** On five ascending values the bounds are the fences of the second and fourth values. */
  lemma FencesOfFive(values: seq<real>)
    requires |values| == 5 && Sorted(values)
    ensures IqrBounds(values) == Fences(values[1], values[3])
  {
    QuartilesOfFive(values);
  }

  /** Values 1, 2, 3, 4 and 100 give bounds [-1, 7]: the pass drops the listing with 100 and keeps the rest. */
  lemma OutlierExample(rows: seq<Row>, c: NumericColumn)
    requires |rows| == 5
    requires Value(rows[0], c) == 1.0 && Value(rows[1], c) == 2.0 && Value(rows[2], c) == 3.0
    requires Value(rows[3], c) == 4.0 && Value(rows[4], c) == 100.0
    ensures IqrBounds(ColumnValues(rows, c)) == Bounds(-1.0, 7.0)
    ensures OutlierStep(rows, c) == rows[..4]
  {
    var values := ColumnValues(rows, c);
    assert Sorted(values);
    FencesOfFive(values);
    assert IqrBounds(values) == Fences(2.0, 4.0) == Bounds(-1.0, 7.0);
    assert rows == rows[..4] + [rows[4]];
    FilterDropsLast(rows[..4], rows[4], (r: Row) => Within(Bounds(-1.0, 7.0), Value(r, c)));
  }

  /** Surfaces 0, 0, 0, 4 give quartiles 0 and 1, bounds [-1.5, 2.5]: the listing of 4 m2 is dropped. */
  lemma FourSurfacesExample(rows: seq<Row>)
    requires |rows| == 4
    requires rows[0].surfaceTotal == 0.0 && rows[1].surfaceTotal == 0.0 && rows[2].surfaceTotal == 0.0
    requires rows[3].surfaceTotal == 4.0
    ensures OutlierStep(rows, SurfaceTotal) == rows[..3]
  {
    var values := ColumnValues(rows, SurfaceTotal);
    assert Sorted(values);
    QuartilesOfFour(values);
    assert IqrBounds(values) == Bounds(-1.5, 2.5);
    assert rows == rows[..3] + [rows[3]];
    FilterDropsLast(rows[..3], rows[3], (r: Row) => Within(Bounds(-1.5, 2.5), Value(r, SurfaceTotal)));
  }

  /** Surfaces 0, 0, 0, 4, 4 give quartiles 0 and 4, bounds [-6, 10]: nothing is dropped. */
  lemma FiveSurfacesExample(rows: seq<Row>)
    requires |rows| == 5
    requires rows[0].surfaceTotal == 0.0 && rows[1].surfaceTotal == 0.0 && rows[2].surfaceTotal == 0.0
    requires rows[3].surfaceTotal == 4.0 && rows[4].surfaceTotal == 4.0
    ensures OutlierStep(rows, SurfaceTotal) == rows
  {
    var values := ColumnValues(rows, SurfaceTotal);
    assert Sorted(values);
    QuartilesOfFive(values);
    var b := IqrBounds(values);
    assert b == Bounds(-6.0, 10.0);
    FilterKeepsAll(rows, (x: Row) => Within(b, Value(x, SurfaceTotal)));
  }

  /**
   * The passes do not commute. Price per m2 1, 2, 3, 4, 100 and surface 0, 0, 0, 4, 4:
   * filtering price per m2 first drops the fifth listing, after which the surface
   * quartiles of the four left are 0 and 1 and the fourth listing goes too; filtering
   * surface first drops nothing, and price per m2 then drops only the fifth.
   */
  lemma PassOrderMatters(rows: seq<Row>)
    requires |rows| == 5
    requires rows[0].pricePerM2 == 1.0 && rows[1].pricePerM2 == 2.0 && rows[2].pricePerM2 == 3.0
    requires rows[3].pricePerM2 == 4.0 && rows[4].pricePerM2 == 100.0
    requires rows[0].surfaceTotal == 0.0 && rows[1].surfaceTotal == 0.0 && rows[2].surfaceTotal == 0.0
    requires rows[3].surfaceTotal == 4.0 && rows[4].surfaceTotal == 4.0
    ensures FilterOutliers(rows, [PricePerM2, SurfaceTotal]) == rows[..3]
    ensures FilterOutliers(rows, [SurfaceTotal, PricePerM2]) == rows[..4]
  {
    OutlierExample(rows, PricePerM2);
    FourSurfacesExample(rows[..4]);
    assert rows[..4][..3] == rows[..3];
    assert [PricePerM2, SurfaceTotal][1..] == [SurfaceTotal] && [SurfaceTotal][1..] == [];
    FiveSurfacesExample(rows);
    assert [SurfaceTotal, PricePerM2][1..] == [PricePerM2] && [PricePerM2][1..] == [];
  }
}
