/** Column pruning: `df.drop(columns=[...])`, which raises when a named column is absent. */
module Schema {
  import opened Wrappers
  import opened Listings

  const GeoColumns := ["lat", "lon", "lat-lon"]
  const UsdColumns := ["price_aprox_usd", "price_usd_per_m2"]

  /** The named columns the schema lacks, in the order they were named. */
  function Absent(names: seq<string>, columns: set<string>): (r: seq<string>)
    ensures forall n :: n in r <==> n in names && n !in columns
  {
    if names == [] then []
    else (if names[0] in columns then [] else [names[0]]) + Absent(names[1..], columns)
  }

  /**
   * Drops the named columns from the schema; the rows keep their order and content.
   * Fails, listing the absent ones, when any named column is not in the table.
   */
  function DropColumns(t: Table, names: seq<string>): (r: Result<Table, PipelineError>)
    ensures r.Ok? <==> forall i :: 0 <= i < |names| ==> names[i] in t.columns
    ensures r.Ok? ==> r.value.rows == t.rows
    ensures r.Ok? ==> forall c :: c in r.value.columns <==> c in t.columns && c !in names
    ensures r.Err? ==> r.error.MissingColumns? && |r.error.names| > 0
    ensures r.Err? ==> forall n :: n in r.error.names <==> n in names && n !in t.columns
  {
    var missing := Absent(names, t.columns);
    if missing != [] then
      assert missing[0] in missing;
      Err(MissingColumns(missing))
    else Ok(Table(t.columns - set i | 0 <= i < |names| :: names[i], t.rows))
  }

  /** The two drops: the coordinate triplet, then the two dollar-denominated columns. */
  function Prune(t: Table): Result<Table, PipelineError>
  {
    match DropColumns(t, GeoColumns)
    case Err(e) => Err(e)
    case Ok(t1) => DropColumns(t1, UsdColumns)
  }

  const PrunedColumns: set<string> := {"lat", "lon", "lat-lon", "price_aprox_usd", "price_usd_per_m2"}

  /**
   * Pruning succeeds exactly when all five columns are present; it then removes those
   * five and nothing else, and leaves the rows as they were.
   */
  lemma PruneRemovesExactly(t: Table)
    ensures Prune(t).Ok? <==> PrunedColumns <= t.columns
    ensures Prune(t).Ok? ==> Prune(t).value.columns == t.columns - PrunedColumns
    ensures Prune(t).Ok? ==> Prune(t).value.rows == t.rows
  {
    var d := DropColumns(t, GeoColumns);
    if d.Ok? {
      assert "lat" in GeoColumns && "lon" in GeoColumns && "lat-lon" in GeoColumns;
      assert "price_aprox_usd" !in GeoColumns && "price_usd_per_m2" !in GeoColumns;
      assert UsdColumns[0] == "price_aprox_usd" && UsdColumns[1] == "price_usd_per_m2";
      if Prune(t).Ok? {
        assert Prune(t).value.columns == t.columns - PrunedColumns;
      }
    } else {
      var i :| 0 <= i < |GeoColumns| && GeoColumns[i] !in t.columns;
      assert GeoColumns[i] in PrunedColumns;
    }
  }

  /** A table without the column `lat` cannot be pruned, and the error names it. */
  lemma PruneWithoutLatFails(t: Table)
    requires "lat" !in t.columns
    ensures Prune(t).Err? && "lat" in Prune(t).error.names
  {
    assert GeoColumns[0] == "lat";
  }
}
