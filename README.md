# Dashboard core: dataset assembly and animated outlier chart

This project models the logic of a country-indicator dashboard.

It charts an outcome indicator against GDP per capita. There are two outcomes: the universal health coverage index and the learning poverty rate. The model covers two parts.

- **Dataset assembly** (`queries.py`, `get_health_data` and `get_edu_data`), in `queries.dfy`, module `Queries`.
  1. Inner-join the indicator table to the GDP table on (country code, year).
  2. Drop rows with a null GDP or a null outcome.
  3. Inner-join the country metadata on the country code.
  4. Drop the `INX` ("not classified") income level.
  5. The health index is divided by 100. The education dataset keeps only the years covered by at least 45 distinct countries.

  Every pandas frame is a sequence of rows, and every pandas step is a function over sequences. An inner merge is the cross product of the rows whose keys match.
- **The animated chart** (`plot.py`, `make_plot` and its inner `build_graph_and_table`), in `regression.dfy` (module `Regression`) and `plot.dfy` (module `Plot`).
  - For every year and every income level, in the order LIC, LMC, UMC, HIC:
    - the rows of that slice are sorted by GDP;
    - an ordinary least-squares line is fitted;
    - a row whose |residual| / std(residuals) exceeds the threshold is flagged as an outlier;
    - each non-empty slice contributes three traces: the trend line, the non-outlier markers and the outlier markers.
  - The flagged rows form a table. It is sorted by (year, income level label, deviation from the line) and coloured green or red by the sign of the deviation.
  - `make_plot` builds one frame and one slider step per distinct year, in ascending order. The initial traces come from the latest year.

`wrappers.dfy` holds the `Option` and `Result` types.

The two loops of `plot.py` are methods proved against pure functions that define their results:
- `Plot.CollectLevels` and `Plot.BuildGraphAndTable` model the loop over income levels;
- `Plot.CollectFrames` and `Plot.MakePlot` model the loop over years.

Everything else is pure functions and lemmas about them.

The following modelling choices apply throughout:

- **Exact arithmetic.** Values are exact `real`s.
  - The slope is Sxy / Sxx. When Sxx = 0 it is 0, which is the minimum-norm least-squares answer, so the fitted line is the mean of the outcome.
  - The intercept is mean(y) − slope · mean(x).
  - The outlier test is written in squared form: residual² > t² · variance, only when the variance is positive. `Regression.MaskMatchesSourceTest` proves this equal to numpy's |r / std| > t for every t ≥ 0. That includes the 0/0 NaN case, which flags nothing, and r/0 = ∞.
- **Threshold.** The threshold `t` is a parameter. The code passes 2 (plot.py:45).
- **Plottable rows.** `make_plot` receives the dataset as a sequence of `Plot.Point`s, which are rows whose GDP and outcome are both present. `Plot.DatasetsArePlottable` shows that every row produced by either query has both.
- **No level, no table.** The table frame is created at plot.py:25 with `dataset.columns + ['fitted_y']`. That expression appends `fitted_y` to every column name instead of adding a column, so the frame has no `income_level` column until a slice is concatenated into it (plot.py:94). When a year has no row in the four income levels, nothing is concatenated and plot.py:96 raises `KeyError`. An empty dataset fails the same way. The model returns `Failure(KeyError)` in exactly those cases; see `Plot.BuildGraphAndTable` and `Plot.MakePlot`.
- **Frame widths vary.** A year gets three traces per non-empty income level, plus the table, so frames of different years can have different trace counts. `Plot.FrameWidthsCanDiffer` exhibits two years whose frames have 4 and 7 traces.
- **Empty tables.** A year with no outliers gets a table with no rows.

## Model

| member | source | states |
|---|---|---|
| Queries.MergeIndicator | queries.py:44 | a merged row exists exactly when a GDP row and an indicator row share (country_code, year); it carries the GDP of the one and the value of the other; each matching pair gives one row, so a merged row occurs as often as its GDP row times as often as its indicator row |
| Queries.KeepObserved | queries.py:45 | keeps exactly the merged rows whose GDP and outcome are both non-null, each as often as in the input, never more rows than given |
| Queries.MergeCountry | queries.py:46 | a joined row exists exactly when a merged row and a country row share the country code, with the country's name and income level attached; it occurs as often as its merged row times as often as its country row |
| Queries.ExcludeUnclassified | queries.py:47 | keeps exactly the rows whose income level is not "INX", each as often as in the input (a null income level is kept, as pandas' `!=` keeps it) |
| Queries.Assemble | queries.py:44-47 | a row is in the joined, filtered dataset exactly when some GDP, indicator and country row share their keys, carry a GDP and an outcome, and the country is not "INX"; such a row occurs once per (GDP, indicator, country) triple that makes it, and any other row not at all |
| Queries.RescaleAll | queries.py:48 | one output row per input row, and row k of the output is row k of the input with its index divided by 100 |
| Queries.Rescale | queries.py:48 | no contract of its own: `Queries.RescaleAll` applies it to every row, and `Queries.HealthIndexOf85` shows a raw index of 85 becoming 0.85 while every other column is kept |
| Queries.GetHealthData | queries.py:42-49 | a row is returned exactly when it is an admissible join of a GDP, a health and a country row, with the index divided by 100; row k is row k of the assembled dataset rescaled, so copies and order are those of the join |
| Queries.CountriesIn | queries.py:60 | no contract of its own: `Queries.ComparableYears` proves a year comparable exactly when this set of distinct country codes has at least 45 members, and `Queries.EduYearsHaveEnoughCountries` that the output keeps every country of a kept year |
| Queries.HealthRowsObserved | queries.py:45-47 | every returned health row has a GDP, an index, and an income level other than "INX" |
| Queries.HealthRowProvenance | queries.py:44-48 | every returned health row comes from rows present in all three input tables with matching keys, and its index is the raw value / 100 |
| Queries.HealthIndexOf85 | queries.py:48 | a raw index of 85 comes out as 0.85 |
| Queries.ComparableYears | queries.py:60-61 | a year of the dataset is comparable exactly when it has at least 45 distinct country codes |
| Queries.KeepYears | queries.py:62 | keeps exactly the rows whose year is in the given set, each as often as in the input |
| Queries.GetEduData | queries.py:52-64 | a row is returned exactly when it is in the joined, filtered dataset and its year has at least 45 distinct countries there, and then as often as it occurs in that dataset; no row is invented |
| Queries.EduYearsHaveEnoughCountries | queries.py:60-62 | every year present in the output keeps all of its countries, and there are at least 45 of them: whole years are dropped, never single rows |
| Queries.EduRowProvenance | queries.py:54-57 | every returned education row comes from rows present in all three tables, with the learning poverty rate passed through unscaled |
| Queries.NoCommonKeyMeansEmpty | queries.py:44-64 | when no GDP row shares a key with an indicator row, both functions return the empty dataset instead of failing |
| Regression.Variance | plot.py:44 | the population variance (divisor n) of the residuals is never negative |
| Regression.Slope | plot.py:38-42 | no contract of its own: `Plot.FittedRow` proves the fitted values are intercept + slope · x, `Regression.ResidualsSumToZero` that the resulting residuals sum to zero, and `Regression.FlatGdpFitsMean` that the slope is 0 when every x is the same |
| Regression.Intercept | plot.py:38-42 | no contract of its own: with the slope it gives a line through (mean x, mean y), which `Regression.ResidualsSumToZero` turns into residuals summing to zero |
| Regression.Fitted | plot.py:42 | one fitted value per row, the k-th being intercept + slope · x_k; `Plot.FittedRow` ties it to each row of a slice |
| Regression.Residuals | plot.py:43 | one residual per row, the k-th being y_k minus the k-th fitted value; `Regression.ResidualsSumToZero` proves they sum to zero and `Plot.FittedRow` ties each to outcome − fitted of its slice row |
| Regression.OutlierMask | plot.py:43-45 | one flag per row, set exactly when the row's residual exceeds t standard deviations; `Regression.MaskMatchesSourceTest` proves this equal to numpy's \|r / std(r)\| > t |
| Regression.ResidualsSumToZero | plot.py:42-43 | the residuals of the least-squares line sum to zero |
| Regression.ResidualsMeanIsZero | plot.py:42-44 | the mean residual is zero, so the variance at plot.py:44 is the mean squared residual |
| Regression.FlatGdpFitsMean | plot.py:39-42 | when every GDP of a slice is the same, the slope is 0 and every fitted value is the mean outcome |
| Regression.ZeroVarianceMeansExactFit | plot.py:42-44 | zero residual variance means every residual is zero and the line passes through every point |
| Regression.MaskMatchesSourceTest | plot.py:43-45 | the squared-form mask agrees with numpy's \|r / std(r)\| > t for every row, including 0/0 (not flagged) and r/0 (flagged) |
| Regression.ScaledTestIsSquaredTest | plot.py:44-45 | for a positive standard deviation s, \|r\| / s > t exactly when r² > t²·s² |
| Regression.SingleRowIsNeverOutlier | plot.py:42-45 | a one-row slice is fitted exactly and its row is not flagged |
| Regression.ExceedsIsNonZero | plot.py:45 | a flagged residual is never zero |
| Plot.Select | plot.py:26-29 | a row is in a slice exactly when it is a dataset row of that year and income level, and it occurs there as often as in the dataset |
| Plot.SortByGdp | plot.py:29 | the result is in ascending GDP order and is a permutation of its input |
| Plot.Slice | plot.py:26-29 | no contract of its own: `Plot.SliceContents` proves it sorted by GDP and holding exactly the dataset's rows of that year and level, each as often as in the dataset |
| Plot.SliceContents | plot.py:26-29 | a slice is sorted by GDP and holds exactly the dataset's rows of that year and level, each row as often as in the dataset and no other row |
| Plot.FittedRow | plot.py:42-45 | row k of a fitted slice carries the least-squares fitted value, its residual is outcome − fitted, and it is flagged exactly when that residual exceeds t standard deviations |
| Plot.Split | plot.py:62-80 | the non-outlier (or outlier) part holds exactly the rows of the slice with that flag, each as often as in the slice |
| Plot.SplitKeepsOrder | plot.py:62-80 | a part of a slice in ascending GDP order is itself in ascending GDP order |
| Plot.FitSlice | plot.py:33-45 | one annotated row per slice row, row k carrying the slice's row k; `Plot.FittedRow` gives its fitted value and flag |
| Plot.SplitPartitions | plot.py:62-80 | the non-outlier and outlier markers together are the slice: each row lands in exactly one |
| Plot.SliceTraces | plot.py:49-91 | a non-empty slice contributes exactly three traces of its level: trend line, non-outliers, outliers, in that order |
| Plot.TrendlineAscends | plot.py:29-51 | the trend line's x values are exactly the slice's GDPs, in ascending order, and its y values are exactly the least-squares fitted values of the slice |
| Plot.MarkersAscend | plot.py:62-80 | both marker traces have one y, one label (and for outliers one text position) per x, and their x values ascend |
| Plot.MarkerShowsRow | plot.py:62-80 | marker k of the non-outlier (outlier) trace shows the GDP, outcome and country name of a slice row with that flag; an outlier's label is on top exactly when that row lies above the line |
| Plot.RowShownByMarker | plot.py:62-80 | every slice row is shown, with its GDP, outcome and country name, by a marker of the trace of its flag |
| Plot.PositionOf | plot.py:77 | no contract of its own: `Plot.MarkerShowsRow` and `Plot.OutlierColour` prove the label is on top exactly when y > fitted |
| Plot.SingleRowSliceHasNoOutlier | plot.py:42-45 | a one-row slice has its row on the line and an empty outlier trace |
| Plot.RowOf | plot.py:93-97 | a table row's deviation is its outcome minus its fitted value; `Plot.FlaggedRowFacts` proves it non-zero for a flagged row |
| Plot.RowsOf | plot.py:93-94 | one table row per annotated row it is given, in the same order, the k-th being that row with its level and fitted value (it is applied to the flagged part of a slice); `Plot.TableRows` counts them in the table |
| Plot.Fill | plot.py:101 | no contract of its own: `Plot.OutlierColour` and `Plot.FrameTable` prove a row green exactly when its deviation is positive, red otherwise |
| Plot.TableTrace | plot.py:101-109 | a table trace showing exactly the given rows, with one fill per row; `Plot.FrameTable` proves each fill green exactly when the row's deviation is positive, red otherwise |
| Plot.OutlierColour | plot.py:77-101 | an outlier's label sits on top exactly when its row is green, green exactly when y > fitted and red exactly when y < fitted |
| Plot.LabelOrderIsRankOrder | plot.py:19-99 | sorting by the income level label string is sorting by the order LIC, LMC, UMC, HIC, and distinct levels have distinct labels |
| Plot.SortRows | plot.py:99 | the table rows are ordered by (year, level, deviation) and are a permutation of the collected rows |
| Plot.CollectLevels | plot.py:27-94 | the loop over income levels appends exactly the traces and the flagged rows of each non-empty level, in the order LIC, LMC, UMC, HIC |
| Plot.BuildGraphAndTable | plot.py:23-121 | fails with KeyError exactly when no level has a row in the year; otherwise returns those traces, the sorted outlier rows and their table, whose concatenation is the frame's data |
| Plot.LevelTraces | plot.py:30-91 | no contract of its own: `Plot.TraceLayout` proves it is the j-th block of three traces of the year, and `Plot.SliceTraces` that it is the trend, non-outlier and outlier traces of the level |
| Plot.LevelOutliers | plot.py:93-94 | no contract of its own: `Plot.TableRows` and `Plot.FlaggedRowFacts` prove the table holds exactly these rows of every level |
| Plot.TraceCount | plot.py:30-91 | a year has exactly 3 traces per non-empty income level |
| Plot.TraceLayout | plot.py:27-91 | traces 3j..3j+2 are the trend, non-outlier and outlier traces of the j-th non-empty level |
| Plot.LevelsInOrder | plot.py:19-31 | the non-empty levels appear once each, in the order LIC, LMC, UMC, HIC, and a level appears exactly when its slice has rows |
| Plot.LastTraceIsOutlierScatter | plot.py:116 | when a year has any scatter trace, the last one is an outlier scatter |
| Plot.TableRows | plot.py:93-99 | the table holds exactly the flagged rows of the year's non-empty slices, each as often as its own level's flagged rows hold it |
| Plot.FlaggedRowFacts | plot.py:93-101 | a flagged row comes from the dataset, carries its year and level, is off its trend line, and is green exactly when y > fitted |
| Plot.FrameData | plot.py:195 | no contract of its own: `Plot.BuildGraphAndTable` proves it is the traces plus the table, and `Plot.FrameTable` what that table holds |
| Plot.FrameTable | plot.py:93-195 | a frame is 3 traces per non-empty level plus a table whose rows are sorted, belong to the year, are off the line, and are green when the deviation is positive and red otherwise |
| Plot.FrameWidthsCanDiffer | plot.py:189-197 | two years of the same dataset can have frames of 4 and of 7 traces |
| Plot.NonEmptyIffLevelRow | plot.py:26-31 | a year's traces are non-empty exactly when one of its rows has one of the four income levels |
| Plot.DistinctYears | plot.py:16 | the years are strictly ascending and are exactly the years of the dataset |
| Plot.MaxYear | plot.py:15 | the latest year is a year of the dataset and no row is later |
| Plot.MaxGdp | plot.py:17 | the largest GDP is a GDP of the dataset and no row's GDP is larger |
| Plot.LatestIsLastYear | plot.py:15-16 | the latest year is the last entry of the ascending list of years |
| Plot.BuildFrame | plot.py:192-197 | a year's frame is named by the year and holds its traces plus the table; it fails exactly when no row of the year has one of the four levels |
| Plot.CollectFrames | plot.py:189-209 | the loop over years yields one frame and one slider step per year, in order, and fails exactly when some year fails |
| Plot.MakePlot | plot.py:13-214 | succeeds exactly when the dataset is non-empty and every year has a row in the four levels; then frames and steps follow the years, the initial traces are the latest year's frame, the active step is the last and shows that frame, x spans [-50, max GDP + 100] and y spans [0, 1] |
| Plot.LastFrameIsLatest | plot.py:189-209 | the last of the frames built over the ascending years is named by the latest year and holds that year's traces |
| Plot.FigureLayout | plot.py:189-209 | one frame and one step per year, frames named by strictly ascending years, each step labelled by its frame's year and animating to it |
| Plot.FrameOfYear | plot.py:194-197 | the i-th frame holds the traces and the table of the i-th year |
| Plot.DatasetsArePlottable | queries.py:45-55 | every row of either dataset has a GDP and an outcome, so it can be plotted |

## Left out

- `execute_query` and the table fetchers (queries.py:9-39) are Databricks queries over the network. The model takes the GDP, indicator and country tables as parameters instead.
- app.py and pages/ are not part of this model. They hold the Dash app, the layout, the callbacks and static page declarations.
- Plotly figure construction is not modelled. That covers subplots, styling, play/pause buttons, marker colours and opacities, legend groups, hover settings, the header fill and the constant "investigate" link column. A `Trace` keeps only the data each trace carries.
- The selection and click handlers (plot.py:112-120) are left out. They only print and are never triggered server-side.
- `make_health_plot` and `make_edu_plot` (plot.py:217-223) are one-line glue and are left out. So are the unused `gdp` and `country` parameters of `make_plot`.
- `all_outliers` (plot.py:190, 193) is collected and never read, so it is left out.
- scikit-learn's solver and floating-point rounding are replaced by exact real arithmetic. The commented-out Huber and RANSAC models are dead code.
- `pd.merge` is modelled on non-null join keys. Row order follows the left frame.
- Plot.SortByGdp: ties in GDP keep their dataset order. pandas' default sort does not promise any order among ties, so the model fixes one.
- Plot.SortRows: rows equal in year, level and deviation keep their collection order, for the same reason.
- Plot.SortRows compares income levels by their place in LIC, LMC, UMC, HIC rather than by their label string. Plot.LabelOrderIsRankOrder proves the two orders equal.
- Regression.MaskMatchesSourceTest requires t ≥ 0. The code's threshold is 2.
- Plot.FitSlice, Plot.FittedRow, Plot.BuildGraphAndTable and Plot.MakePlot accept any real threshold t. For t < 0 their squared test is not numpy's |r / std| > t: numpy flags every row once std > 0. What they state about "exceeding t standard deviations" matches the source only for t ≥ 0, which includes the code's 2.
- Typed records replace pandas frames, so the model has no missing columns. `pd.merge` on an absent join column (queries.py:44, 46) and indexing an absent column (queries.py:45, 48, 62) raise KeyError in pandas; the model has no such failures.
- Plot.MakePlot: when the dataset is empty, the source raises KeyError only after taking the NaN maximum of an empty column. The model returns the same failure without computing that maximum.
- Regression.Slope: only the first normal equation (residuals sum to zero) is proved. The second, Σ(x − mean x)·residual = 0, is what singles out Sxy / Sxx, and it is not proved. So the residual lemmas also hold for any other line through (mean x, mean y), and the slope is pinned down only by its definition.
