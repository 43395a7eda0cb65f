/**
 * The six views: the menu choice selects one, and each turns the cleaned table into
 * the data and field bindings of one chart.
 */
module Views {
  import opened Wrappers
  import opened Seqs
  import opened Listings
  import opened Menu
  import opened PriceRange
  import opened GroupBy

  datatype ChartKind = Histogram | Bar | Scatter

  /** What a chart plots: listings, one point or bar entry each, or aggregated groups. */
  datatype ChartData = ListingPoints(rows: seq<Row>) | GroupPoints(groups: seq<(string, real)>)

  /** A chart description: its kind, its data and the columns bound to x, y and colour. */
  datatype Chart = Chart(kind: ChartKind, data: ChartData, x: string, y: Option<string>, color: Option<string>)

  datatype ViewError =
    | UnknownChoice(choice: string)   // `menu[grafico]` with a label not in the menu
    | AbsentColumn(name: string)      // a column the view reads is not in the table
    | EmptyPriceColumn                // `int(df['price'].min())` of an empty table: int(NaN)

  function PointCount(d: ChartData): nat
  {
    match d
    case ListingPoints(rows) => |rows|
    case GroupPoints(groups) => |groups|
  }

  /** Fails on the first of `needed` the table lacks, else yields `chart`. */
  function Reading(needed: seq<string>, columns: set<string>, chart: Chart): (r: Result<Chart, ViewError>)
    ensures r.Ok? <==> forall i :: 0 <= i < |needed| ==> needed[i] in columns
    ensures r.Ok? ==> r.value == chart
    ensures r.Err? ==> r.error.AbsentColumn? && r.error.name in needed && r.error.name !in columns
  {
    match FirstMissing(needed, columns)
    case None => Ok(chart)
    case Some(c) => Err(AbsentColumn(c))
  }

  /**
   * Views 1 and 4: the slider's bounds come from the price column, which must exist and
   * have a minimum; then the rows priced within `rango` are plotted as a histogram.
   */
  function PriceHistogram(t: Table, rango: (int, int), x: string, color: string): Result<Chart, ViewError>
  {
    if PriceCol !in t.columns then Err(AbsentColumn(PriceCol))
    else if DefaultRange(t.rows).None? then Err(EmptyPriceColumn)
    else
      var shown := FilterByPrice(t.rows, rango.0, rango.1);
      Reading([x, color], t.columns, Chart(Histogram, ListingPoints(shown), x, None, Some(color)))
  }

  /** The chart of view `id` over the cleaned table; `rango` is the slider's value, used by views 1 and 4. */
  function Render(id: ViewId, t: Table, rango: (int, int)): Result<Chart, ViewError>
  {
    if id == 1 then
      PriceHistogram(t, rango, PriceCol, PropertyTypeCol)
    else if id == 2 then
      Reading([PropertyTypeCol, PriceLocalCol], t.columns,
              Chart(Bar, GroupPoints(GroupMeans(t.rows, ByPropertyType)), PropertyTypeCol, Some(PriceLocalCol), None))
    else if id == 3 then
      Reading([PlacesCol, PriceLocalCol], t.columns,
              Chart(Bar, GroupPoints(GroupMeans(t.rows, ByPlaces)), PlacesCol, Some(PriceLocalCol), None))
    else if id == 4 then
      PriceHistogram(t, rango, PriceLocalCol, PlacesCol)
    else if id == 5 then
      Reading([SurfaceTotalCol, PriceLocalCol], t.columns,
              Chart(Scatter, ListingPoints(t.rows), SurfaceTotalCol, Some(PriceLocalCol), None))
    else
      Reading([SurfaceTotalCol, PricePerM2Col], t.columns,
              Chart(Scatter, ListingPoints(t.rows), SurfaceTotalCol, Some(PricePerM2Col), None))
  }

  /** One interaction: the sidebar choice is looked up, then its view is drawn. */
  function Show(choice: string, t: Table, rango: (int, int)): (r: Result<Chart, ViewError>)
    ensures (forall i :: 0 <= i < |Entries| ==> Entries[i].0 != choice) ==> r == Err(UnknownChoice(choice))
    ensures forall i :: 0 <= i < |Entries| && Entries[i].0 == choice ==> r == Render(i + 1, t, rango)
  {
    assert forall i :: 0 <= i < |Entries| && Entries[i].0 == choice ==> Lookup(choice) == Ok(i + 1) by {
      forall i | 0 <= i < |Entries| && Entries[i].0 == choice ensures Lookup(choice) == Ok(i + 1) {
        LookupEntry(i);
      }
    }
    match Lookup(choice)
    case Err(_) => Err(UnknownChoice(choice))
    case Ok(id) => Render(id, t, rango)
  }

  /** The columns view `id` reads. */
  function ViewColumns(id: ViewId): set<string>
  {
    if id == 1 then {PriceCol, PropertyTypeCol}
    else if id == 2 then {PropertyTypeCol, PriceLocalCol}
    else if id == 3 then {PlacesCol, PriceLocalCol}
    else if id == 4 then {PriceCol, PriceLocalCol, PlacesCol}
    else if id == 5 then {SurfaceTotalCol, PriceLocalCol}
    else {SurfaceTotalCol, PricePerM2Col}
  }

  /**
   * A view is drawn exactly when the table has the columns it reads and, for the two
   * histograms, at least one row to take the slider's bounds from.
   */
  lemma RenderSucceeds(id: ViewId, t: Table, rango: (int, int))
    ensures Render(id, t, rango).Ok? <==>
              ViewColumns(id) <= t.columns && ((id == 1 || id == 4) ==> t.rows != [])
  {
    forall a: string, b: string, c: Chart
      ensures Reading([a, b], t.columns, c).Ok? <==> a in t.columns && b in t.columns
    {
      ReadingTwo(a, b, t.columns, c);
    }
  }

  lemma ReadingTwo(a: string, b: string, columns: set<string>, chart: Chart)
    ensures Reading([a, b], columns, chart).Ok? <==> a in columns && b in columns
  {
    assert [a, b][0] == a && [a, b][1] == b;
  }

  /** A chart never has more points than the cleaned table has listings. */
  lemma RenderBounded(id: ViewId, t: Table, rango: (int, int))
    requires Render(id, t, rango).Ok?
    ensures PointCount(Render(id, t, rango).value.data) <= |t.rows|
  {
    if id == 2 {
      GroupMeansOrdered(t.rows, ByPropertyType);
    } else if id == 3 {
      GroupMeansOrdered(t.rows, ByPlaces);
    }
  }

  /**
   * What each view plots: 1 and 4 the rows priced within the slider's range, 2 and 3 the
   * group means by property type and by borough, 5 and 6 every listing.
   */
  lemma RenderData(id: ViewId, t: Table, rango: (int, int))
    requires Render(id, t, rango).Ok?
    ensures (id == 1 || id == 4) ==>
              Render(id, t, rango).value.data == ListingPoints(FilterByPrice(t.rows, rango.0, rango.1))
    ensures id == 2 ==> Render(id, t, rango).value.data == GroupPoints(GroupMeans(t.rows, ByPropertyType))
    ensures id == 3 ==> Render(id, t, rango).value.data == GroupPoints(GroupMeans(t.rows, ByPlaces))
    ensures (id == 5 || id == 6) ==> Render(id, t, rango).value.data == ListingPoints(t.rows)
  {
  }

  /**
   * View 1 at the slider's initial value shows the whole table when every price is a
   * whole number of pesos.
   */
  lemma DefaultView1ShowsAll(t: Table)
    requires ViewColumns(1) <= t.columns && t.rows != []
    requires forall i :: 0 <= i < |t.rows| ==> t.rows[i].price == t.rows[i].price.Floor as real
    ensures Render(1, t, DefaultRange(t.rows).value).Ok?
    ensures Render(1, t, DefaultRange(t.rows).value).value.data == ListingPoints(t.rows)
  {
    RenderSucceeds(1, t, DefaultRange(t.rows).value);
    DefaultRangeKeepsIntegralPrices(t.rows);
  }

  /** View 4 filters on `price` but plots `price_aprox_local_currency`, coloured by borough. */
  lemma View4Bindings(t: Table, rango: (int, int))
    requires Render(4, t, rango).Ok?
    ensures Render(4, t, rango).value.kind == Histogram
    ensures Render(4, t, rango).value.x == PriceLocalCol && Render(4, t, rango).value.color == Some(PlacesCol)
  {
  }
}
