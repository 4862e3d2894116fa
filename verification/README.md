# CO2-per-GDP reconciliation and forecasting pipeline, modelled in Dafny

This project models the core of a batch script that forecasts CO2 emissions per unit of GDP
per country (`DSMLCompetitionCode.py`). The script:

- reconciles two tables (a competition spreadsheet and the supplementary OWID table) into one
  per-country series;
- fits a Prophet trend model per country Code;
- draws a choropleth of the forecast trend for one year.

The model covers the deterministic data logic in that file:

- **Reconciler** (`Reconcile`, `PrepareData` and `remove_outliers_std`):
  - both sources are projected onto one schema (`Frames.Row`: Country, Code, Year, metric);
  - the cutover split keeps supplementary rows before 2000 and competition rows from 2000 on;
  - the two parts are concatenated and stably sorted by (Country, Year);
  - `replace(0, NaN)` applies to the whole frame, so a Year of 0 is masked as well as a zero metric;
  - rows without a metric or a Code are dropped;
  - a global k-sigma outlier filter runs, with bounds computed on the table it filters;
  - Year becomes `ds` (January 1), and the metric is renamed `y`.
- **Forecaster** (`Forecast`, `forcaster`):
  - each distinct Code is processed once, in first-appearance order;
  - each fit sees exactly that Code's `(ds, y)` rows in their original order;
  - a fit raises when its series has fewer than two non-NaN y values, or when the library
    fails, and the first such fit aborts the run;
  - the predictions are tagged with the Code and concatenated in iteration order, and the
    concatenation raises when there is nothing to concatenate (an empty frame).
- **Visualizer** (`MapPlot`, `plot_map_for_year`):
  - the joined table is filtered to one year;
  - the axes are left untouched when no row matches;
  - otherwise they are cleared and hold one choropleth, a hidden frame and a title naming the year.

Modelling conventions:

- Dataframes are `seq`s of immutable rows.
- A nullable cell (NaN / NaT) is an `Option`.
- The metric is a `real`.
- Every comparison with NaN is false, as in pandas.
- Two external computations are function parameters:
  - `stats` is pandas' `mean()` and `std()` of a column. `None` stands for NaN, as for an
    empty or single-value column.
  - `predict` is the Prophet fit and prediction. `None` stands for the library raising.
- `Seqs` holds the generic sequence facts everything rests on: `Filter` (a boolean mask),
  `IsSubseq`, `SelectsExactly` (multiset-exact selection), `Distinct` (`Series.unique()`)
  and `Pairwise`.

Two behaviours of the code are worth knowing, and the model states them:

- The pipeline does **not** deduplicate. Identical rows all survive
  (`Scenarios.DuplicatesKept`), and nothing guarantees one observation per (Code, Year).
- `remove_outliers_std` is **not** idempotent. A second application recomputes the mean and
  standard deviation on the filtered rows and can remove more
  (`Scenarios.OutlierFilterNotIdempotent`).

Two pandas behaviours are assumed:

- `sort_values` on several columns is a stable lexicographic sort. Country is compared by
  code point, and a NaN Year sorts last.
- `pd.to_datetime` raises for a year whose January 1 lies outside the nanosecond Timestamp
  range. That range runs from 1677-09-21 to 2262-04-11, so Years 1678 to 2262 convert.

## Model

| member | source | states |
|---|---|---|
| Frames.CompetitionFrame | DSMLCompetitionCode.py:48-49 | the competition table in the common schema, row for row, each field carried over unchanged |
| Frames.SupplementaryFrame | DSMLCompetitionCode.py:50-53 | the supplementary table renamed onto the common schema (iso_code becomes Code, co2_per_gdp the metric), row for row |
| Frames.KeyLeTotalPreorder | DSMLCompetitionCode.py:58-59 | the (Country, Year) sort order is reflexive, total and transitive, and two rows tie exactly when Country and Year agree |
| Frames.SortByCountryYear | DSMLCompetitionCode.py:58-59 | the sorted table is a permutation of its input and ascending by (Country, Year) at every pair of positions |
| Frames.SortStable | DSMLCompetitionCode.py:58-59 | the sort is stable: the rows sharing any one (Country, Year) key appear in the same order as in the input |
| Reconcile.SupplementaryBeforeCutover | DSMLCompetitionCode.py:56 | an order-preserving subsequence of the supplementary table holding exactly its rows dated before 2000, each as often as the table does |
| Reconcile.CompetitionFromCutover | DSMLCompetitionCode.py:57 | an order-preserving subsequence of the competition table holding exactly its rows dated 2000 or later, each as often as the table does |
| Reconcile.CombineAndSort | DSMLCompetitionCode.py:58-59 | the combined table is sorted by (Country, Year), is a permutation of the two cutover partitions concatenated, and holds each row exactly as often as its own source holds it on its side of the cutover |
| Reconcile.CutoverProvenance | DSMLCompetitionCode.py:56-58 | every combined row has a Year; one dated before 2000 is a supplementary row, one dated 2000 or later is a competition row |
| Reconcile.CombineStable | DSMLCompetitionCode.py:58-59 | rows sharing a (Country, Year) key keep concatenation order: supplementary ones first, each source's in file order |
| Reconcile.ReplaceZeros | DSMLCompetitionCode.py:62 | a zero Year or a zero metric becomes NaN; every non-zero cell and the Country and Code columns are unchanged |
| Reconcile.DropMissing | DSMLCompetitionCode.py:63 | an order-preserving subsequence keeping exactly the rows that have both a metric and a Code |
| Reconcile.ZeroAsMissingDrop | DSMLCompetitionCode.py:62-63 | after the zero mask and the drop no row has a missing or zero metric or a missing Code, and every row with a Code and a non-zero metric survives |
| Reconcile.OutlierBounds | DSMLCompetitionCode.py:29-32 | the bounds exist exactly when mean and std are both defined, and form the interval centred on the mean with half-width num_std times std |
| Reconcile.BoundsOrdered | DSMLCompetitionCode.py:31-32 | with std >= 0 and num_std >= 0 the bounds exist and lower <= mean <= upper |
| Reconcile.RemoveOutliersStd | DSMLCompetitionCode.py:17-33 | the kept rows form an order-preserving subsequence, no longer than the input, whose every metric lies within bounds computed from the input table's column; every in-bounds row is kept as often as it occurs |
| Reconcile.UndefinedMomentsDropAll | DSMLCompetitionCode.py:29-33 | when the mean or std is NaN every comparison fails and no row is kept |
| Reconcile.AllWithinBoundsKept | DSMLCompetitionCode.py:33 | a table whose rows all lie within its own bounds passes the filter unchanged |
| Reconcile.ToProphetFrame | DSMLCompetitionCode.py:67-68 | conversion succeeds exactly when every Year is representable; then each row's ds is January 1 of its Year (NaT for a NaN Year), y is its metric and nothing else changes; otherwise it fails naming an unrepresentable Year of the input |
| Reconcile.ToProphetFrameRoundTrip | DSMLCompetitionCode.py:67-68 | dropping ds and renaming y back recovers the input table exactly |
| Reconcile.CleanedRowsValid | DSMLCompetitionCode.py:62-64 | every cleaned row has a Code and a non-zero metric inside the 3-sigma bounds of the dropped table |
| Reconcile.CleanedSelects | DSMLCompetitionCode.py:62-64 | the null drop and the outlier filter together keep, in order, exactly the zero-masked rows that have a Code and an in-bounds metric |
| Reconcile.PrepareData | DSMLCompetitionCode.py:48-68 | succeeds exactly when every cleaned Year converts; then every output row has a Code, a non-zero metric inside the 3-sigma bounds of the dropped table, and ds equal to January 1 of its Year |
| Reconcile.PrepareDataSubsequence | DSMLCompetitionCode.py:58-68 | the prepared frame, without ds, is an order-preserving subsequence of the zero-masked combined table selecting exactly its rows with a Code and an in-bounds metric |
| Reconcile.PrepareDataProvenance | DSMLCompetitionCode.py:56-68 | each prepared row came from the supplementary table if dated before 2000 (a NaN Year being a masked 0) and from the competition table otherwise |
| Reconcile.MaskKeepsOrder | DSMLCompetitionCode.py:58-62 | after the zero mask the table is still ordered by Country, and by Year wherever both Years are present |
| Reconcile.PrepareDataOrdered | DSMLCompetitionCode.py:58-68 | the prepared frame is ordered by Country, and by Year within a Country wherever both Years are present |
| Forecast.UniqueCodes | DSMLCompetitionCode.py:86 | the iterated codes are exactly the Codes of the frame, each once, in strictly increasing order of first appearance |
| Forecast.CodeSlice | DSMLCompetitionCode.py:91 | a Code's slice holds exactly that Code's rows, in original order; a NaN code selects nothing |
| Forecast.CodeSeries | DSMLCompetitionCode.py:91 | the fitted series is the slice's ds and y columns, row for row |
| Forecast.Tag | DSMLCompetitionCode.py:99 | every prediction is kept in order and carries the Code in its country column |
| Forecast.FitCode | DSMLCompetitionCode.py:92-96 | a Code's fit succeeds exactly when its series has at least two non-NaN y values and the library returns a forecast; otherwise it raises, naming the Code |
| Forecast.NaNCodeCannotFit | DSMLCompetitionCode.py:91-93 | a NaN code selects no row, so its fit raises for too few observations |
| Forecast.Collect | DSMLCompetitionCode.py:89-97 | the loop completes exactly when every fit succeeded; otherwise it raises the error of the first fit that failed, and every collected row is tagged with an iterated code |
| Forecast.ForecastCodes | DSMLCompetitionCode.py:89-97 | the loop completes exactly when every iterated code can be fitted; otherwise it raises the error of the first code, in iteration order, that cannot |
| Forecast.CollectInOrder | DSMLCompetitionCode.py:89-99 | over distinct codes the forecasts appear as blocks in iteration order: no row follows one whose tag is iterated later |
| Forecast.Forecaster | DSMLCompetitionCode.py:86-99 | an empty frame raises at the concatenation; otherwise the run completes exactly when every Code of the frame can be fitted and raises the first failing Code's error in first-appearance order; a completed run's rows are tagged with Codes of the frame, in blocks ordered by each Code's first appearance |
| Forecast.CollectByTag | DSMLCompetitionCode.py:89-99 | over distinct codes, when the loop completes, the rows tagged c are exactly c's fitted forecast, whole and in order, and no row carries a tag that was not iterated |
| Forecast.ForecastCodesByTag | DSMLCompetitionCode.py:89-99 | over distinct codes, when the loop completes, the rows tagged c are exactly c's own forecast, whole and in order, or nothing if c was not iterated |
| Forecast.CodeIterated | DSMLCompetitionCode.py:86-89 | a value is iterated exactly when it occurs in the Code column |
| Forecast.ForecasterByCode | DSMLCompetitionCode.py:86-99 | when the run completes, each Code of the frame was fitted and contributes exactly its own forecast once; no other value tags any row |
| Forecast.MissingCodeAborts | DSMLCompetitionCode.py:86-93 | a frame with a NaN Code can never be forecast, because the NaN code's fit raises |
| Forecast.SlicesPartitionRows | DSMLCompetitionCode.py:86-91 | a row with a Code has its Code iterated and lies in that Code's slice and in no other |
| MapPlot.YearRows | DSMLCompetitionCode.py:114 | the year's rows are an order-preserving subsequence holding exactly the rows whose ds falls in that year |
| MapPlot.PlotMapForYear | DSMLCompetitionCode.py:114-120 | with no row in the year the axes are unchanged; otherwise they hold one non-empty choropleth of exactly the year's rows, in order and with their multiplicity, the frame hidden and a title naming the year |
| MapPlot.YearRowsEmpty | DSMLCompetitionCode.py:114-115 | the filtered table is empty exactly when no row's ds falls in the year |
| MapPlot.PlotTwiceIsPlotOnce | DSMLCompetitionCode.py:115-120 | because the axes are cleared first, drawing the same year twice leaves the modelled axes state (layers, frame, title) as drawing it once does |
| Scenarios.TwoSourcesCombined | DSMLCompetitionCode.py:56-59 | a 1995 supplementary row and a 2005 competition row of one country both appear, 1995 first |
| Scenarios.TwoSourcesOneCountry | DSMLCompetitionCode.py:48-68 | with pandas' moments of 0.5 and 0.7, both rows reach the prepared frame dated January 1 of 1995 and 2005 |
| Scenarios.ZeroMetricExcluded | DSMLCompetitionCode.py:62-63 | a competition row whose metric is 0 never reaches the prepared frame |
| Scenarios.DuplicatesKept | DSMLCompetitionCode.py:56-59 | a row listed twice appears twice in the combined table: there is no deduplication |
| Scenarios.OutlierFilterNotIdempotent | DSMLCompetitionCode.py:29-33 | with bounds recomputed on the filtered rows, a second application can remove more rows |

## Left out

- File loading (`pd.read_excel`, `pd.read_csv`, `gpd.read_file`) and the CSV export of
  forecasts (lines 44-45, 100, 135) are I/O. The loaded tables are the arguments of
  `PrepareData`.
- Only the four selected columns of each source are represented. The other columns of the
  raw tables are discarded by the projection and carry no behaviour.
- The Prophet fit, the 40-period year-start future frame and the prediction (lines 92-96)
  belong to an external library. They are the `predict` parameter of `Forecast.Forecaster`,
  so the row counts and timestamps Prophet produces are not modelled. The one refusal the
  model spells out is Prophet's rule that a series needs at least two non-NaN y values;
  every other way the library can raise (a NaT in `ds`, a numerical failure) is `predict`
  returning `None`.
- The floating-point computation of the mean and of the sample standard deviation (square
  root, `ddof=1`, NaN for fewer than two values) is the `stats` parameter. The metric is an
  exact `real`, so floating-point rounding is not modelled.
- The GeoJSON merge on `iso3` (lines 136-137), figure creation, colour map, legend styling,
  title font, backend selection, `plt.draw()` and `plt.show()` are rendering. A choropleth
  is the rows it shows, and the title is the year it names.
- The path constants and `YEAR` (lines 11-14) and the module-level invocation (lines
  145-147) are configuration glue.
- The dataframe index (`ignore_index`, `reset_index`) is not represented. Positions in a
  `seq` play its role.
- Country is modelled as a non-null string, so the NaN-last placement of a missing Country
  in the sort is not modelled.
- A masked Year turns pandas' Year column into floats. The model converts a NaN Year to NaT
  and does not model how the `%Y` format treats the other, now fractional-typed, Years.
- `Data Cleaner.py` is an earlier copy of the same script and is not part of this model.
- MapPlot.PlotTwiceIsPlotOnce: holds for the modelled axes state only. With `legend=True`
  (lines 117-118) each call also adds a colorbar axes to the figure and shrinks `ax` to make
  room for it, and `ax.clear()` (line 116) removes neither; the figure's colorbars are not
  modelled.
