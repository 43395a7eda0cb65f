/**
 * The preprocessing run once at start-up: currency conversion,
 * column pruning and the outlier filter, in that order.
 */
module Pipeline {
  import opened Wrappers
  import opened Seqs
  import opened Listings
  import opened Currency
  import opened Schema
  import opened Outliers

  /** The columns the currency conversion reads, in the order pandas reads them. */
  const ConversionColumns := [PriceLocalCol, PriceUsdCol, PriceCol, CurrencyCol, PricePerM2Col]

  /** The columns the outlier loop reads, in the order it visits them. */
  const OutlierColumns := [PricePerM2Col, SurfaceTotalCol]

  predicate HasForeignRow(rows: seq<Row>)
  {
    exists i :: 0 <= i < |rows| && rows[i].currency != Mxn
  }

  /**
   * The rows after the currency conversion. With a non-finite rate this is only used when every row
   * is already in pesos, and then there is nothing to convert.
   */
  function Converted(rows: seq<Row>): seq<Row>
  {
    match ExchangeRate(rows)
    case Finite(rate) => Normalized(rows, rate)
    case NonFinite => rows
  }

  /** The cleaned table, or the error the script stops with. */
  function Clean(t: Table): Result<Table, PipelineError>
  {
    match Need(ConversionColumns, t.columns)
    case Err(e) => Err(e)
    case Ok(_) =>
      if ExchangeRate(t.rows).NonFinite? && HasForeignRow(t.rows) then Err(NonFiniteRate)
      else
        match Prune(Table(t.columns, Converted(t.rows)))
        case Err(e) => Err(e)
        case Ok(pruned) =>
          match Need(OutlierColumns, pruned.columns)
          case Err(e) => Err(e)
          case Ok(_) => Ok(Table(pruned.columns, FilterOutliers(pruned.rows, NumericCols)))
  }

  /** The script's preprocessing, statement by statement, on a mutable copy of the rows. */
  method Preprocess(t: Table) returns (r: Result<Table, PipelineError>)
    ensures r == Clean(t)
  {
    var check := Need(ConversionColumns, t.columns);
    if check.Err? {
      return Err(check.error);
    }
    var tipoCambio := ExchangeRate(t.rows);
    if tipoCambio.NonFinite? && HasForeignRow(t.rows) {
      return Err(NonFiniteRate);
    }
    var df := new Row[|t.rows|](i requires 0 <= i < |t.rows| => t.rows[i]);
    assert df[..] == t.rows;
    if tipoCambio.Finite? {
      ConvertToPesos(df, tipoCambio.value);
    }
    var pruned := Prune(Table(t.columns, df[..]));
    if pruned.Err? {
      return Err(pruned.error);
    }
    check := Need(OutlierColumns, pruned.value.columns);
    if check.Err? {
      return Err(check.error);
    }
    var kept := RemoveOutliers(pruned.value.rows, NumericCols);
    r := Ok(Table(pruned.value.columns, kept));
  }

  /** Every column the script reads or drops. */
  const RequiredColumns: set<string> :=
    {PriceLocalCol, PriceUsdCol, PriceCol, CurrencyCol, PricePerM2Col, SurfaceTotalCol} + PrunedColumns

  lemma NeedConversionColumns(columns: set<string>)
    ensures Need(ConversionColumns, columns).Ok? <==>
              {PriceLocalCol, PriceUsdCol, PriceCol, CurrencyCol, PricePerM2Col} <= columns
  {
    var cs := ConversionColumns;
    assert cs[0] == PriceLocalCol && cs[1] == PriceUsdCol && cs[2] == PriceCol;
    assert cs[3] == CurrencyCol && cs[4] == PricePerM2Col;
  }

  lemma NeedOutlierColumns(columns: set<string>)
    ensures Need(OutlierColumns, columns).Ok? <==> PricePerM2Col in columns && SurfaceTotalCol in columns
  {
    assert OutlierColumns[0] == PricePerM2Col && OutlierColumns[1] == SurfaceTotalCol;
  }

  /** What a successful run produces: the pruned schema and the filtered converted rows. */
  lemma CleanValue(t: Table)
    requires Clean(t).Ok?
    ensures Clean(t).value == Table(t.columns - PrunedColumns, FilterOutliers(Converted(t.rows), NumericCols))
  {
    var conv := Table(t.columns, Converted(t.rows));
    PruneRemovesExactly(conv);
    var pruned := Prune(conv).value;
    assert pruned.rows == conv.rows;
    assert pruned.columns == t.columns - PrunedColumns;
    assert Clean(t) == Ok(Table(pruned.columns, FilterOutliers(pruned.rows, NumericCols)));
  }

  /**
   * Preprocessing succeeds exactly when the file has every column the script reads or
   * drops and the rate is finite or not needed; the cleaned schema then lacks exactly
   * the five pruned columns.
   */
  lemma CleanSucceeds(t: Table)
    ensures Clean(t).Ok? <==>
              RequiredColumns <= t.columns && !(ExchangeRate(t.rows).NonFinite? && HasForeignRow(t.rows))
    ensures Clean(t).Ok? ==> Clean(t).value.columns == t.columns - PrunedColumns
  {
    NeedConversionColumns(t.columns);
    RequiredColumnsSplit(t.columns);
    if Need(ConversionColumns, t.columns).Ok? && !(ExchangeRate(t.rows).NonFinite? && HasForeignRow(t.rows)) {
      var conv := Table(t.columns, Converted(t.rows));
      PruneRemovesExactly(conv);
      if Prune(conv).Ok? {
        NeedOutlierColumns(Prune(conv).value.columns);
        PruningKeepsNumeric(t.columns);
      }
    }
    if Clean(t).Ok? {
      CleanValue(t);
    }
  }

  /** The required columns are those read by the conversion, the surface column and the pruned ones. */
  lemma RequiredColumnsSplit(columns: set<string>)
    ensures RequiredColumns <= columns <==>
              {PriceLocalCol, PriceUsdCol, PriceCol, CurrencyCol, PricePerM2Col} <= columns &&
              SurfaceTotalCol in columns && PrunedColumns <= columns
  {
  }

  /** Pruning never removes the two columns the outlier loop reads. */
  lemma PruningKeepsNumeric(columns: set<string>)
    ensures PricePerM2Col in columns - PrunedColumns <==> PricePerM2Col in columns
    ensures SurfaceTotalCol in columns - PrunedColumns <==> SurfaceTotalCol in columns
  {
    assert PricePerM2Col !in PrunedColumns && SurfaceTotalCol !in PrunedColumns;
  }

  /**
   * The cleaned rows are rows of the converted table, in order, with no row added:
   * each is an input listing with its prices in pesos.
   */
  lemma CleanRows(t: Table, r: Row)
    requires Clean(t).Ok?
    ensures IsSubseq(Clean(t).value.rows, Converted(t.rows))
    ensures |Clean(t).value.rows| <= |t.rows|
    ensures r in Clean(t).value.rows && ExchangeRate(t.rows).Finite? ==>
              exists i :: 0 <= i < |t.rows| && r == NormalizeRow(t.rows[i], ExchangeRate(t.rows).value)
    ensures r in Clean(t).value.rows && ExchangeRate(t.rows).NonFinite? ==>
              r in t.rows && r.currency == Mxn
  {
    CleanValue(t);
    var conv := Converted(t.rows);
    var rows := FilterOutliers(conv, NumericCols);
    assert Clean(t).value.rows == rows;
    SubseqLength(rows, conv);
    if r in rows {
      SubseqMembership(rows, conv, r);
      ConvertedRowOrigin(t.rows, r);
    }
  }

  /** A converted row is an input listing at the rate, or, when the rate is unusable, an input peso listing. */
  lemma ConvertedRowOrigin(rows: seq<Row>, r: Row)
    requires r in Converted(rows)
    requires ExchangeRate(rows).NonFinite? ==> !HasForeignRow(rows)
    ensures ExchangeRate(rows).Finite? ==>
              exists i :: 0 <= i < |rows| && r == NormalizeRow(rows[i], ExchangeRate(rows).value)
    ensures ExchangeRate(rows).NonFinite? ==> r in rows && r.currency == Mxn
  {
    var conv := Converted(rows);
    var i :| 0 <= i < |conv| && conv[i] == r;
    if ExchangeRate(rows).Finite? {
      assert r == NormalizeRow(rows[i], ExchangeRate(rows).value);
    } else {
      assert rows[i] == r;
    }
  }

  /**
   * The invariant of the cleaned table: a converted row is kept, with all its copies,
   * exactly when its price per m2 is within the bounds of the converted table, and its
   * surface within the bounds of the table that the first pass left.
   */
  lemma CleanWithinBounds(t: Table, r: Row)
    requires Clean(t).Ok?
    ensures var t1 := OutlierStep(Converted(t.rows), PricePerM2);
            && (r in Clean(t).value.rows <==>
                  r in Converted(t.rows) && Passes(Converted(t.rows), PricePerM2, r) && Passes(t1, SurfaceTotal, r))
            && multiset(Clean(t).value.rows)[r] ==
                 if Passes(Converted(t.rows), PricePerM2, r) && Passes(t1, SurfaceTotal, r)
                 then multiset(Converted(t.rows))[r] else 0
  {
    CleanValue(t);
    TwoPasses(Converted(t.rows), r);
  }

  /**
   * A non-empty input gives a non-empty cleaned table, so the price histograms of views
   * 1 and 4 always find a minimum and a maximum price.
   */
  lemma CleanNonEmpty(t: Table)
    requires Clean(t).Ok? && |t.rows| > 0
    ensures |Clean(t).value.rows| > 0
  {
    CleanValue(t);
    FilterOutliersNonEmpty(Converted(t.rows), NumericCols);
  }
}
