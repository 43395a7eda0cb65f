/** The listings table of the Mexico City housing dashboard: its rows, its schema and its errors. */
module Listings {
  import opened Wrappers

  /**
   * One listing. Only the cells the dashboard reads are carried; every other
   * column of the input file exists in the table's schema alone.
   */
  datatype Row = Row(
    propertyType: string,   // property_type
    places: string,         // places (the borough)
    currency: string,       // currency of price and price_per_m2 before conversion
    price: real,            // price
    pricePerM2: real,       // price_per_m2
    surfaceTotal: real,     // surface_total_in_m2
    priceLocal: real,       // price_aprox_local_currency
    priceUsd: real          // price_aprox_usd
  )

  /** A DataFrame: the set of its column labels and its rows in order. */
  datatype Table = Table(columns: set<string>, rows: seq<Row>)

  const PropertyTypeCol := "property_type"
  const PlacesCol := "places"
  const CurrencyCol := "currency"
  const PriceCol := "price"
  const PricePerM2Col := "price_per_m2"
  const SurfaceTotalCol := "surface_total_in_m2"
  const PriceLocalCol := "price_aprox_local_currency"
  const PriceUsdCol := "price_aprox_usd"

  /** What makes a preprocessing stage raise. */
  datatype PipelineError =
    | MissingColumn(name: string)           // `df[name]` on an absent column: KeyError
    | MissingColumns(names: seq<string>)    // `df.drop(columns=...)` naming absent columns: KeyError
    | NonFiniteRate                         // the exchange rate is not a finite number

  /** The first of `needed`, in the order they are read, that the schema lacks. */
  function FirstMissing(needed: seq<string>, columns: set<string>): (r: Option<string>)
    ensures r.None? <==> forall i :: 0 <= i < |needed| ==> needed[i] in columns
    ensures r.Some? ==> r.value in needed && r.value !in columns
    ensures r.Some? ==> exists i :: 0 <= i < |needed| && needed[i] == r.value &&
                          forall j :: 0 <= j < i ==> needed[j] in columns
  {
    if needed == [] then None
    else if needed[0] !in columns then Some(needed[0])
    else
      var rest := FirstMissing(needed[1..], columns);
      if rest.Some? then
        ghost var i :| 0 <= i < |needed[1..]| && needed[1..][i] == rest.value &&
                       forall j :: 0 <= j < i ==> needed[1..][j] in columns;
        assert needed[i + 1] == rest.value;
        rest
      else
        assert forall i :: 1 <= i < |needed| ==> needed[i] == needed[1..][i - 1];
        rest
  }

  /** Reads the columns `needed` in order, failing on the first absent one as `df[col]` does. */
  function Need(needed: seq<string>, columns: set<string>): (r: Result<(), PipelineError>)
    ensures r.Ok? <==> forall i :: 0 <= i < |needed| ==> needed[i] in columns
    ensures r.Err? ==> r.error.MissingColumn? && r.error.name in needed && r.error.name !in columns
  {
    match FirstMissing(needed, columns)
    case None => Ok(())
    case Some(c) => Err(MissingColumn(c))
  }
}
