# Mexico City housing-price dashboard: a Dafny model of its data logic

The dashboard is one Streamlit script, `app.py`. At start-up it loads a table of housing
listings for Mexico City and cleans it in three stages:

1. It converts every price not quoted in pesos (MXN). The exchange rate is the mean of
   `price_aprox_local_currency / price_aprox_usd` over the rows.
2. It drops five columns: the coordinates `lat`, `lon` and `lat-lon`, and the dollar
   columns `price_aprox_usd` and `price_usd_per_m2`.
3. It removes outliers by the interquartile-range rule, first on `price_per_m2`, then on
   `surface_total_in_m2`. The second pass works on the table the first one left.

A sidebar menu then picks one of six views:

- two price histograms that the user can narrow with a price slider;
- two bar charts of mean price, one by property type and one by borough (`places`);
- two scatter plots of all listings.

This project models all of that data logic in Dafny and proves what it does.

- A table is `Listings.Table`: a set of column names plus a sequence of `Listings.Row`.
  A row carries the cells the script reads. Prices are exact `real`s standing in for
  float64.
- Any `df[col]` on a missing column, and any `drop` that names a missing column, raises
  `KeyError` in pandas. The model returns `Err` at the same point.
- Each stage is a function. The two places where the script changes state step by step
  are methods with loops, proved equal to those functions:
  - `Currency.ConvertToPesos` does the two in-place column assignments over an `array`;
  - `Outliers.RemoveOutliers` is the `for col in numeric_cols` loop.
- `Pipeline.Preprocess` runs the whole start-up sequence and is proved equal to
  `Pipeline.Clean`.
- `Views.Show` looks up the menu choice and builds the chart description:
  - the chart kind;
  - the data (listings, or key/mean pairs);
  - the columns bound to x, y and colour.

Modules, one per component: `Wrappers` (Option, Result), `Seqs` (boolean-mask selection,
subsequences, sums and means), `Listings` (the data model), `Currency`, `Schema`,
`Quantiles`, `Outliers`, `Pipeline`, `Menu`, `PriceRange`, `GroupBy`, `Views`.

Some of pandas' behaviour that the script relies on is easy to miss; the model states it:

- **Zero dollar prices.** pandas leaves out of the exchange-rate mean only the rows where
  both prices are 0 (0/0 is NaN, and `mean()` skips NaN). A non-zero peso price over 0
  dollars is an infinity, and that makes the rate non-finite (`Currency.ExchangeRate`, `Currency.ZeroRowLeavesRate`).
- **Group order.** `groupby` sorts its keys by default, so the bars come in ascending key
  order, not in the order the keys first appear, comparing strings by code
  point the way Python does (`GroupBy.LexLess`).
- **Reversed price ranges.** The price filter neither rejects nor clamps a range with low
  above high: such a range simply shows no listing
  (`PriceRange.FilterByPriceReversed`). The slider never produces one.
- **Default slider range.** The slider's default is `(int(min), int(max))`, and `int`
  truncates. So on default settings a listing priced above the truncated maximum is not
  shown (`PriceRange.DefaultRangeDropsFractionalMaximum`). Converted prices are rarely
  whole numbers. When every price is whole, the default range shows the whole table
  (`PriceRange.DefaultRangeKeepsIntegralPrices`).
- **Columns plotted.** Views 2 to 5 plot `price_aprox_local_currency`, not the converted
  `price`. View 4 filters on `price` but plots `price_aprox_local_currency`. The model
  records these bindings as the code has them (`Views.View4Bindings`).

## Model

| member | source | states |
|---|---|---|
| `Seqs.Filter` | app.py:39 | boolean-mask selection keeps at most the input's rows, and every kept row satisfies the mask |
| `Seqs.FilterMembership` | app.py:39 | a value is selected if and only if it is in the input and the mask holds for it |
| `Seqs.FilterCount` | app.py:67 | each kept value keeps its multiplicity; every other value has multiplicity 0 |
| `Seqs.FilterIsSubseq` | app.py:39 | selection returns a subsequence of its input, in the input's order |
| `Seqs.FilterKeepsAll` | app.py:39 | selection returns the whole input if and only if the mask holds for every row |
| `Seqs.FilterKeepsNone` | app.py:67 | selection returns nothing if and only if the mask holds for no row |
| `Seqs.SubseqTrans` | app.py:33-39 | a subsequence of a subsequence is a subsequence, so rows deleted in one pass never return |
| `Listings.FirstMissing` | app.py:16-22 | gives the first needed column the schema lacks, in read order; gives none exactly when all are present |
| `Listings.Need` | app.py:16-22 | reading the columns succeeds exactly when all are present; otherwise it is a KeyError naming an absent needed column |
| `Currency.Ratios` | app.py:16 | no more ratios than rows, and none exactly when every dollar price is 0; which ones is `RatiosOfNonZeroRows` |
| `Currency.RatiosOfNonZeroRows` | app.py:16 | the ratios averaged are exactly peso price over dollar price for each row with a non-zero dollar price, in table order |
| `Currency.ExchangeRate` | app.py:16 | the rate is finite if and only if no row divides a non-zero peso price by 0 dollars and some row has a non-zero dollar price; a finite rate is the mean of peso over dollar price across exactly the rows with a non-zero dollar price |
| `Currency.RateIsMeanOfRatios` | app.py:16 | on a non-empty table with no zero dollar price, the rate is the arithmetic mean over all rows of peso price divided by dollar price |
| `Currency.ZeroRowLeavesRate` | app.py:16 | a row with both prices 0 (NaN, skipped by `mean`) leaves the rate unchanged wherever it stands in the table |
| `Currency.RateExample` | app.py:16 | two listings at 200 pesos / 100 dollars give a rate of exactly 2 |
| `Currency.NormalizeRow` | app.py:19-22 | a peso row is unchanged; any other row has price and price per m2 multiplied by the rate; no other cell changes |
| `Currency.Normalized` | app.py:19-22 | same length and order; peso rows unchanged; foreign rows have both prices times the rate; every other cell unchanged |
| `Currency.NormalizedAllPesos` | app.py:19-22 | a table entirely in pesos is unchanged by conversion, whatever the rate |
| `Currency.ConvertToPesos` | app.py:19-22 | the two column passes over the array leave it equal to `Normalized` of its old contents |
| `Currency.ConversionExample` | app.py:19-20 | a foreign listing priced 100 at rate 2 is priced 200 |
| `Schema.Absent` | app.py:25 | lists exactly the named columns that the schema lacks |
| `Schema.DropColumns` | app.py:25 | succeeds if and only if every named column is present; then removes exactly those columns and keeps the rows; otherwise it is a KeyError listing exactly the absent names |
| `Schema.Prune` | app.py:25-28 | the coordinate drop followed by the dollar-column drop; specified by `PruneRemovesExactly` and `PruneWithoutLatFails` |
| `Schema.PruneRemovesExactly` | app.py:25-28 | the two drops succeed if and only if all five columns are present; they then remove exactly those five and keep the rows |
| `Schema.PruneWithoutLatFails` | app.py:25 | a table without `lat` fails to prune, and the error names `lat` |
| `Quantiles.Quantile` | app.py:34-35 | a quantile of a non-empty column at any p in [0, 1] lies between its smallest and its largest value |
| `Quantiles.Insert` | app.py:34-35 | inserting into a sorted column keeps it sorted and adds exactly one occurrence of the value |
| `Quantiles.Sort` | app.py:34-35 | the ordering used by `quantile` is sorted, the same length, and a permutation of the column |
| `Quantiles.QuartilesOrdered` | app.py:34-36 | the linear-interpolated Q1 never exceeds Q3, so the IQR is never negative |
| `Quantiles.SomeValueWithinFences` | app.py:34-38 | some value of a non-empty column lies within [Q1 - 1.5·IQR, Q3 + 1.5·IQR] |
| `Quantiles.QuartilesOfFive` | app.py:34-35 | for five sorted values, Q1 is the 2nd value and Q3 the 4th (positions (n-1)·p = 1 and 3) |
| `Quantiles.QuartilesOfFour` | app.py:34-35 | for four sorted values, Q1 interpolates at position 0.75 and Q3 at position 2.25 |
| `Quantiles.QuartilesOfExample` | app.py:34-35 | the column [1, 2, 3, 4, 100] has Q1 = 2 and Q3 = 4 |
| `Outliers.OutlierStep` | app.py:34-39 | a pass returns a subsequence of its input, and every kept row lies within the bounds from that input's quartiles; exactly which rows is `OutlierStepKeeps` |
| `Outliers.FilterOutliers` | app.py:33-39 | over the whole loop the table is a subsequence of the input: row count never grows, order is kept, and no dropped row returns |
| `Outliers.IqrBounds` | app.py:36-38 | both quartiles lie inside the bounds, and the bounds are 4·IQR wide |
| `Outliers.PassBounds` | app.py:34-38 | the quartiles, IQR and fences the loop body computes are `IqrBounds` of the current column, and selecting by them is exactly one pass |
| `Outliers.RemoveOutliers` | app.py:32-39 | the loop's result equals the fold over the columns, and it is a subsequence of its input |
| `Outliers.OutlierStepKeeps` | app.py:34-39 | a row survives a pass if and only if it was in the input and its value lies within the bounds from that input's quartiles; the number of copies of a listing is its input count if it passes and 0 otherwise |
| `Outliers.OutlierStepNonEmpty` | app.py:34-39 | a pass never empties a non-empty table |
| `Outliers.FilterOutliersNonEmpty` | app.py:33-39 | the loop never empties a non-empty table |
| `Outliers.TwoPasses` | app.py:32-39 | the loop is the `price_per_m2` pass followed by the `surface_total_in_m2` pass; each result is a subsequence of the table before it; a row survives if and only if it is within both bounds, the second computed on the reduced table, and then with all its copies |
| `Outliers.OutlierExample` | app.py:34-39 | values 1, 2, 3, 4, 100 give bounds [-1, 7]; the pass drops the row with 100 and keeps the other four |
| `Outliers.FourSurfacesExample` | app.py:34-39 | surfaces 0, 0, 0, 4 give bounds [-1.5, 2.5]; the row with 4 is dropped |
| `Outliers.FiveSurfacesExample` | app.py:34-39 | surfaces 0, 0, 0, 4, 4 give bounds [-6, 10]; nothing is dropped |
| `Outliers.PassOrderMatters` | app.py:32-33 | on one five-row table the column order gives three rows and the reverse order gives four, so the passes do not commute |
| `Pipeline.Clean` | app.py:16-39 | the start-up sequence: read, convert, prune, remove outliers; specified by `CleanSucceeds`, `CleanValue`, `CleanRows`, `CleanWithinBounds` and `CleanNonEmpty` |
| `Pipeline.Preprocess` | app.py:16-39 | running the start-up statements produces exactly `Clean` of the input table |
| `Pipeline.CleanValue` | app.py:25-39 | a successful run yields the pruned schema and the outlier-filtered converted rows |
| `Pipeline.CleanSucceeds` | app.py:16-39 | preprocessing succeeds if and only if every column read or dropped is present and the rate is finite or unused; the final schema is then the input's minus the five pruned columns |
| `Pipeline.CleanRows` | app.py:16-39 | cleaned rows are a subsequence of the converted rows, no more than the input; each is an input listing with prices in pesos |
| `Pipeline.CleanWithinBounds` | app.py:32-39 | a converted row is in the cleaned table if and only if its price per m2 is within the first pass's bounds and its surface within the second's; it keeps all its copies if so, and none otherwise |
| `Pipeline.CleanNonEmpty` | app.py:16-39 | a non-empty input gives a non-empty cleaned table |
| `Menu.Find` | app.py:58 | gives none if and only if no entry carries the label; otherwise the identifier of an entry that carries it |
| `Menu.Lookup` | app.py:58 | succeeds if and only if the label is one of the menu's; it then gives that entry's identifier; otherwise it is a KeyError for that label |
| `Menu.LookupEntry` | app.py:46-53 | the i-th label selects view i + 1 |
| `Menu.LookupInjective` | app.py:46-58 | distinct labels never select the same view |
| `Menu.LookupOnto` | app.py:46-53 | every identifier from 1 to 6 has a label that selects it |
| `Menu.LookupUnknown` | app.py:58 | any string that no menu entry carries is a KeyError for that string, never a default view |
| `PriceRange.Trunc` | app.py:63-64 | `int()` truncates toward zero: the result lies within one of x, on x's side of 0 |
| `PriceRange.MinPrice` | app.py:63 | the minimum is the price of some row and no row is cheaper |
| `PriceRange.MaxPrice` | app.py:64 | the maximum is the price of some row and no row is dearer |
| `PriceRange.DefaultRange` | app.py:63-64 | the slider default exists exactly when the table is non-empty; its low end never exceeds its high end, and every price lies strictly within one of the range |
| `PriceRange.FilterByPrice` | app.py:67 | never shows more rows than the table has, and every shown row is priced within the range; exactly which rows is `FilterByPriceExact` |
| `PriceRange.FilterByPriceExact` | app.py:67 | keeps exactly the rows with `rango[0] <= price <= rango[1]`, with their multiplicities and in order; on `[x, x]`, exactly the rows priced x |
| `PriceRange.FilterByPriceReversed` | app.py:67 | a range with low above high shows nothing |
| `PriceRange.DefaultRangeKeeps` | app.py:63-67 | with the default slider value, a row is shown if and only if its price lies between the truncated minimum and maximum |
| `PriceRange.DefaultRangeKeepsIntegralPrices` | app.py:63-67 | when every price is whole, the default slider value shows the whole table |
| `PriceRange.DefaultRangeDropsFractionalMaximum` | app.py:63-67 | prices 1000 and 2500.5 give default range (1000, 2500), which hides the listing at 2500.5 |
| `GroupBy.LexLessTrans` | app.py:81-82 | Python's string order is transitive |
| `GroupBy.LexLessTotal` | app.py:81-82 | any two distinct strings are ordered one way or the other |
| `GroupBy.InsertKey` | app.py:81-82 | inserting into strictly ascending keys keeps them strictly ascending and adds exactly that key |
| `GroupBy.SortedKeys` | app.py:81-82 | the group keys are strictly ascending, are exactly the keys present in the table, and number at most the rows |
| `GroupBy.GroupRowsMembership` | app.py:81-82 | a listing is in a key's group if and only if it is in the table with that key; the group holds all its copies if so, and none otherwise |
| `GroupBy.GroupMeans` | app.py:81-82 | the mean aggregation of `groupby(...).mean().reset_index()`; specified by `GroupMeansOrdered`, `GroupMeansCoversKeys`, `GroupMeansRow` and `SingleGroup` |
| `GroupBy.GroupMeansOrdered` | app.py:81-82 | no more aggregated rows than listings; keys strictly ascending (pandas' `sort=True`), so each appears once |
| `GroupBy.GroupMeansCoversKeys` | app.py:81-82 | every key present in the table has an aggregated row |
| `GroupBy.GroupMeansRow` | app.py:81-82 | every aggregated row's key occurs in the table, and its value is the mean of `price_aprox_local_currency` over exactly the listings with that key |
| `GroupBy.GroupMeanBetween` | app.py:81-82 | each group's mean lies within any bounds on the peso prices |
| `GroupBy.SingleGroup` | app.py:94-95 | a table with a single key aggregates to that key alone, with the overall mean |
| `Views.Render` | app.py:60-147 | the six view branches; specified by `RenderSucceeds`, `RenderData`, `RenderBounded` and `View4Bindings` |
| `Views.Reading` | app.py:83-85 | a chart's columns are read in order; the chart is drawn exactly when all are present; otherwise the error names an absent one |
| `Views.Show` | app.py:55-60 | a choice that is not a menu label is rejected; the i-th label draws view i + 1 |
| `Views.RenderSucceeds` | app.py:60-147 | a view is drawn if and only if its columns are present and, for views 1 and 4, the table is non-empty (`int(NaN)` raises) |
| `Views.RenderBounded` | app.py:60-147 | no chart has more points than the cleaned table has listings |
| `Views.RenderData` | app.py:60-147 | views 1 and 4 plot the price-filtered rows; 2 and 3 the group means by type and by borough; 5 and 6 every listing |
| `Views.DefaultView1ShowsAll` | app.py:60-71 | view 1 at its initial slider value shows the whole table when prices are whole |
| `Views.View4Bindings` | app.py:104-114 | view 4 is a histogram that filters on `price` but plots `price_aprox_local_currency`, coloured by `places` |

## Left out

- Loading the CSV file (app.py:13) is file I/O. The raw table is the input of `Pipeline.Clean`.
- The Plotly template setting (app.py:8) and all chart drawing are left out:
  - `px.histogram`, `px.bar` and `px.scatter`;
  - `nbins=50`, titles and axis or legend texts;
  - `range_x`, and the pixel `width` and `height` set through `update_layout`.

  A chart is modelled only as its kind, its data and its column bindings.
- Streamlit widgets (`st.title`, `st.subheader`, `st.sidebar.radio`, `st.slider`,
  `st.plotly_chart`) are UI plumbing. The radio's answer is the `choice` argument of
  `Views.Show`. The slider's answer is the `rango` pair. The slider's own rules are not
  modelled: `step=1000`, `format`, keeping its value within its bounds, and refusing equal
  bounds.
- Streamlit reruns the whole script on every interaction. The model keeps preprocessing
  (`Pipeline.Clean`) apart from each interaction (`Views.Show`).
- Exact float64 rounding is left out; the model uses exact reals.
- NaN and infinity are not propagated:
  - when the rate is non-finite but some row needs converting, the model stops with
    `NonFiniteRate`; pandas would go on and write infinite or NaN prices;
  - the model has no missing cells, so the NaN-skipping of `quantile` and the way a
    comparison mask drops NaN rows are not modelled.
- Pipeline.Clean: reports the KeyErrors in pandas' order, first an absent column read, then
  the absent names of the first `drop`, then those of the second. The one divergence is the
  `NonFiniteRate` stop: pandas raises nothing there and carries on, so with a non-finite rate
  and a foreign row it may instead raise a later KeyError from a `drop` or from reading
  `surface_total_in_m2`, where the model reports `NonFiniteRate`.
- Columns the script never reads (the coordinates and `price_usd_per_m2`) exist only as
  names in the schema; rows carry no cells for them. Conversely, rows keep their `price_aprox_usd`
  cell after that column is dropped: the schema, not the row, records which columns the table
  still has, and nothing after the drop reads that cell. The schema is a set, so the column
  order of the DataFrame is not modelled.
- Quantiles.Quantile: numpy computes the interpolation as `b - (b - a)(1 - t)` when
  t ≥ 0.5. With exact reals this equals the single formula used here.
