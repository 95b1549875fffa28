# Temperature analysis dashboard — a Dafny model

This project models the core of a small Streamlit dashboard that analyses
historical city temperatures and compares them with the current weather from
OpenWeatherMap. It covers:

- **the upload pipeline** (`app.py`, `utils/analysis.py`):
  - a parsed CSV table is tagged with seasons;
  - each city's rows, sorted by timestamp, get a centred 30-row rolling mean
    and a rolling sample standard deviation (`calculate_moving_stats`);
  - every row is labelled positive, negative or normal against the band
    mean ± 2σ (`detect_anomalies`);
  - every city gets a least-squares trend through its yearly means, with a
    five-way classification (`calculate_long_term_trends`);
  - the session state is replaced all at once, or left as it was when any
    step raises.
- **the dashboard tabs** (`app.py`):
  - the anomaly counts of the city tab;
  - the trend metrics of the comparison tab (average slope, strongest
    warming, strongest cooling, warmest city);
  - the single-city and multi-city monitoring of the current-weather tab.
- **the monitoring modules** (`utils/sync_monitoring.py`,
  `utils/async_monitoring.py`):
  - building the request;
  - shaping the response into the `(temperature, status, description)`
    triple;
  - `analyze_temperature_anomaly`, which compares a live reading with the
    city's rows for the current season (2σ anomaly flag and type, 1σ zone).

Modules and files:

| file | module | models |
|---|---|---|
| `wrappers.dfy` | `Wrappers` | `Option` and `Result` |
| `sequences.dfy` | `Sequences` | small sequence facts used by the proofs |
| `seasons.dfy` | `Seasons` | the month → season dictionary |
| `records.dfy` | `Records` | table rows, season tagging, `unique()`, city filtering |
| `sorting.dfy` | `Sorting` | `sort_values` by a numeric key |
| `stats.dfy` | `Stats` | sum, mean, min, max, sample variance and standard deviation, least-squares slope |
| `rolling.dfy` | `RollingStats` | `calculate_moving_stats` |
| `anomalies.dfy` | `AnomalyDetection` | `detect_anomalies` |
| `trends.dfy` | `Trends` | `calculate_long_term_trends` |
| `sync_monitoring.dfy` | `SyncMonitoring` | `get_current_temperature_sync` |
| `async_monitoring.dfy` | `AsyncMonitoring` | `get_current_temperature_async`, `_process_response` |
| `live.dfy` | `LiveAnomaly` | `analyze_temperature_anomaly` (identical in both monitoring modules) |
| `app.dfy` | `App` | session state, upload, tab computations, monitoring flow |

Modelling choices:

- **Numbers.**
  - Temperatures and all statistics are exact reals.
  - pandas' NaN is `None` in an `Option<real>`, and a comparison against a
    missing value is false, as it is for NaN.
  - The square root is a parameter `sqrt`. Every member that needs it
    requires `IsSqrt(sqrt)`: a non-negative result whose square is the
    argument.
- **Rolling window.** pandas' centred window of `w` rows ends `(w - 1) / 2`
  rows after its row, so 14 rows for `w = 30`. With the default
  `min_periods` a value exists only where the whole window fits inside the
  city's series. The standard deviation also needs at least two rows.
- **`np.polyfit` with a single year.** It does not raise. The rank-deficient
  least-squares problem gets its minimum-norm solution after numpy scales the
  year column, giving the slope `mean / (2 · year)`. The model follows the
  code here.
- **Effects become parameters.**
  - The HTTP call is a function `get` from the request parameters to either
    a response or a raised exception.
  - The current month (`datetime.now().month`) is a parameter.
  - The parsed CSV is `None` when reading it or its timestamps raised.

## Model

| member | source | states |
|---|---|---|
| `Seasons.MonthsOf` | app.py:67-72 | the months the table sends to a season are exactly those with that entry, three per season |
| `Seasons.SeasonOf` | utils/sync_monitoring.py:54-60 | `get(month, 'winter')`: the table's season for months 1–12, winter for any other value |
| `Seasons.TablePartitionsYear` | app.py:67-73 | the table is defined exactly on months 1–12, the four seasons' months are pairwise disjoint, and each month lies in its own season's months |
| `Records.Tag` | app.py:62-73 | the season column is the table's season for the row's month; city, timestamp, temperature, year and month are kept |
| `Records.TagAll` | app.py:61-73 | every row is tagged, in place and order |
| `Records.Distinct` | utils/analysis.py:12 | `unique()`: the same set of values, no value twice |
| `Records.DistinctFirstAppearance` | utils/analysis.py:12 | `unique()` lists the values in the order of their first appearance |
| `Records.Cities` | utils/analysis.py:12 | the cities are exactly those of some row, each once, and there are none only for an empty table |
| `Records.CityRows` | utils/analysis.py:13 | `df[df['city'] == city]`: every row of the city with its multiplicity, and no other row |
| `Sorting.SortBy` | utils/analysis.py:13 | `sort_values`: the result is sorted by the key and is a permutation of the input |
| `Stats.Mean` | utils/analysis.py:91 | the mean lies between the minimum and the maximum |
| `Stats.SampleVariance` | utils/analysis.py:20-23 | the ddof = 1 variance is never negative |
| `Stats.SampleStd` | utils/analysis.py:20-23 | the standard deviation is non-negative and its square is the sample variance |
| `Stats.OlsSlopeOfConstant` | utils/analysis.py:70 | a constant series has a least-squares slope of 0 |
| `Stats.MeanOfConstant` | utils/analysis.py:91 | the mean of a constant column is that constant |
| `RollingStats.Window` | utils/analysis.py:15-18 | the centred window of a row is the `window` consecutive rows ending `ahead` rows after it |
| `RollingStats.RollingMeanAt` | utils/analysis.py:15-18 | a rolling mean exists exactly when the whole window fits; it is the window's mean and lies between its minimum and maximum |
| `RollingStats.RollingStdAt` | utils/analysis.py:20-23 | a rolling deviation exists exactly when the window fits and has two rows; it is non-negative and squares to the window's sample variance |
| `RollingStats.Roll` | utils/analysis.py:15-23 | each row keeps its observation and gets the rolling mean and deviation of its own position |
| `RollingStats.CityFrame` | utils/analysis.py:13-23 | a city's frame holds exactly its rows (as a multiset), sorted by timestamp, all of that city, with the rolling columns of their sorted positions |
| `RollingStats.Concat` | utils/analysis.py:27 | concatenating no frames is an error |
| `RollingStats.Frames` | utils/analysis.py:12-25 | one frame per city, in the order of the city list |
| `RollingStats.CalculateMovingStats` | utils/analysis.py:6-27 | the loop builds the specified table, and fails exactly for an empty input |
| `RollingStats.MovingStatsPermutation` | utils/analysis.py:6-27 | the output holds exactly the input rows: none lost, none duplicated |
| `RollingStats.MovingStatsOrder` | utils/analysis.py:12-27 | the output is grouped by city in first-appearance order, and sorted by timestamp inside each city |
| `RollingStats.FilterCity` | app.py:134-136 | filtering the output by city keeps exactly the rows of that city |
| `RollingStats.RollingIsPerCity` | utils/analysis.py:12-25 | the output rows of a city equal the frame computed from that city's rows alone, so rolling values never mix cities |
| `RollingStats.CityFrameOfSameRows` | utils/analysis.py:13-23 | a city's frame depends on the table only through that city's rows |
| `RollingStats.OutputRowInCityFrame` | utils/analysis.py:12-27 | every output row sits in the frame computed from its own city's rows |
| `RollingStats.ShortCityGetsNulls` | utils/analysis.py:15-23 | every row of a city with fewer rows than the window gets nulls in both rolling columns |
| `RollingStats.RollingStdNonNegative` | utils/analysis.py:20-23 | every rolling deviation in the output is non-negative |
| `AnomalyDetection.UpperBound` | utils/analysis.py:34 | the upper bound exists exactly when mean and deviation do, and lies 2σ above the mean |
| `AnomalyDetection.LowerBound` | utils/analysis.py:35 | the lower bound exists exactly when mean and deviation do, and lies 2σ below the mean |
| `AnomalyDetection.Label` | utils/analysis.py:34-46 | positive exactly above the upper bound; negative exactly when not above it but below the lower bound; flagged exactly when not normal; never flagged without bounds |
| `AnomalyDetection.DetectAnomalies` | utils/analysis.py:30-48 | one labelled row per input row, in order |
| `AnomalyDetection.DetectAnomaliesKeepsRows` | utils/analysis.py:30-48 | labelling adds columns and changes no row and no order |
| `AnomalyDetection.BandOrdered` | utils/analysis.py:34-35 | with σ ≥ 0, lower bound ≤ mean ≤ upper bound |
| `AnomalyDetection.NegativeIffBelow` | utils/analysis.py:38-46 | with σ ≥ 0, a row is negative exactly when below the band, and flagged exactly when outside it |
| `AnomalyDetection.DetectAnomaliesLabelsAgree` | utils/analysis.py:38-46 | every labelled row's flag agrees with its type |
| `AnomalyDetection.PipelineBandsOrdered` | utils/analysis.py:34-35 | in the pipeline's output every defined band is ordered |
| `Trends.ClassifyTrend` | utils/analysis.py:76-85 | each of the five classes holds exactly on its slope interval |
| `Trends.ClassifyAtThresholds` | utils/analysis.py:76-85 | the threshold values themselves fall into the milder class |
| `Trends.ClassifyMonotone` | utils/analysis.py:76-85 | a larger slope never gets a class further towards cooling |
| `Trends.YearsOf` | utils/analysis.py:61-63 | the group keys are exactly the years present, strictly ascending |
| `Trends.YearRows` | utils/analysis.py:61-63 | a year's group holds every row of that year with its multiplicity and no other row |
| `Trends.YearlyMeans` | utils/analysis.py:61-63 | one mean per year, in year order, each the mean of the temperatures of all that year's rows |
| `Trends.PolyfitSlope` | utils/analysis.py:70 | with one year the slope times twice the year is that year's mean |
| `Trends.CityTrend` | utils/analysis.py:57-93 | the row is for that city; its slope is the polyfit slope through the yearly means; its class is the classification of that slope; its average is the mean of the yearly means and lies between the smallest and largest of them; its range is their difference and is non-negative |
| `Trends.LongTermTrends` | utils/analysis.py:51-95 | one row per city, in first-appearance order, row k being that city's trend row |
| `Trends.CalculateLongTermTrends` | utils/analysis.py:51-95 | the loop builds exactly the specified table |
| `Trends.ConstantCityIsStable` | utils/analysis.py:61-93 | a city whose yearly means are all one temperature, over two or more years, has slope 0, class "Стабильный", that temperature as average, and range 0 |
| `Trends.ConstantReadingsGiveConstantMeans` | utils/analysis.py:61-63 | when every reading of a city is one temperature, so is each of its yearly means |
| `SyncMonitoring.BuildParams` | utils/sync_monitoring.py:16-20 | the key and metric units are sent, and `q` starts with the city |
| `SyncMonitoring.SplitQuery` | utils/sync_monitoring.py:17 | splitting `q` at its first comma gives the parts around it, or the whole of `q` when it has no comma |
| `SyncMonitoring.QueryRoundTrip` | utils/sync_monitoring.py:17 | for a city without a comma, `q` splits back into the city and the country code, with an empty code reading as none |
| `SyncMonitoring.GetCurrentTemperatureSync` | utils/sync_monitoring.py:6-36 | a temperature and description exactly for status 200 with a readable body; a status exactly when a response arrived and did not raise while being read |
| `SyncMonitoring.TemperatureMeansOk` | utils/sync_monitoring.py:26-32 | a temperature comes only with status 200; any other status comes without one |
| `AsyncMonitoring.ProcessResponse` | utils/async_monitoring.py:44-55 | it raises exactly for status 200 with an unreadable body; it gives the triple for 200 and the status alone otherwise |
| `AsyncMonitoring.GetCurrentTemperatureAsync` | utils/async_monitoring.py:7-41 | the all-`None` triple exactly when the call or the response processing raised |
| `AsyncMonitoring.AsyncAgreesWithSync` | utils/async_monitoring.py:7-55 | the asynchronous fetch returns the same triple as the synchronous one for every outcome of the call |
| `LiveAnomaly.SeasonFilter` | utils/sync_monitoring.py:63 | the season filter keeps every row of that season with its multiplicity, and no other row |
| `LiveAnomaly.SeasonRows` | utils/sync_monitoring.py:48-63 | the rows used are the city's rows of the season, each with its multiplicity in the table, and no other row |
| `LiveAnomaly.SeasonStd` | utils/sync_monitoring.py:70 | `std()` exists exactly for two or more rows; it is non-negative and squares to the sample variance |
| `LiveAnomaly.Offset` | utils/sync_monitoring.py:73-74 | a bound exists exactly when the deviation does, and is then mean + k·σ |
| `LiveAnomaly.AnalyzeTemperatureAnomaly` | utils/sync_monitoring.py:39-105 | the error exactly when the city has no rows in the season; otherwise city and reading are echoed, the season is the table's, the mean is the mean of the season's temperatures (so between their extremes), σ is the season's deviation, deviation + mean is the reading, and the range is mean ± 2σ |
| `LiveAnomaly.TwoSigmaRule` | utils/sync_monitoring.py:72-84 | anomalous exactly outside mean ± 2σ; negative exactly below it, positive exactly above it, no type otherwise; never anomalous without σ |
| `LiveAnomaly.ZoneRule` | utils/sync_monitoring.py:86-92 | the zone is "below average" exactly under mean − σ, "above average" exactly over mean + σ, "within norm" otherwise and always without σ |
| `LiveAnomaly.AnomalyTypeMatchesZone` | utils/sync_monitoring.py:77-92 | a positive anomaly is always above average, and a negative one always below |
| `LiveAnomaly.NormalRangeOrdered` | utils/sync_monitoring.py:72-74 | the normal range is never inverted and contains the mean |
| `LiveAnomaly.VerdictUsesOnlySeasonRows` | utils/sync_monitoring.py:47-66 | the verdict depends only on the city's rows of the current season |
| `App.Session.constructor` | app.py:37-44 | a new session has no tables and an empty key |
| `App.Session.Upload` | app.py:58-95 | the tables are replaced exactly for a parsed, non-empty table, and then by the pipeline's outputs; otherwise nothing changes; the key is untouched and the session stays consistent |
| `App.Session.SetApiKey` | app.py:100-111 | a non-empty key is stored and an empty one leaves the stored key; the tables are untouched |
| `App.ConsistentLabelsAgree` | app.py:79-90 | in a consistent session every processed row's flag agrees with its type |
| `App.CountAnomalies` | app.py:155-167 | all anomalies, positive ones and negative ones are the numbers of positions of the city's anomalous rows, of any type, positive and negative; positive + negative ≤ all ≤ rows |
| `App.CountsAddUp` | app.py:155-167 | when flags agree with types, positive + negative = all anomalies |
| `App.SessionCountsAddUp` | app.py:155-167 | the counts shown for any city of an uploaded table add up |
| `App.Progress` | app.py:526-536 | the bar value is in [0, 1], full from +10° up and empty from −10° down |
| `App.ProgressMonotone` | app.py:526-536 | on each side of the mean the bar moves monotonically with the deviation |
| `App.ProgressAtTheMean` | app.py:526-536 | the bar is full at deviation 0 and nearly empty just above it, at 0.1 |
| `App.MonitorCity` | app.py:471-563 | the data guard, then the key guard, then "invalid key" exactly for status 401, then "failed" exactly without a temperature (with the status); otherwise the analysis error exactly when the analysis fails, and the verdict with the description and bar exactly when it succeeds |
| `App.InvalidKeyNeverAnalysed` | app.py:497-506 | a 401 response is reported as an invalid key and never reaches the analysis; a shown bar is in range and the verdict is for that city |
| `App.CompareCity` | app.py:586-608 | a row exactly when the fetch gives a temperature and the analysis succeeds; it carries the reading, deviation and season, "Аномалия" exactly for an anomaly, "Норма" exactly otherwise, "Нет" as type exactly otherwise, and the verdict's anomaly type for an anomaly |
| `App.Comparison` | app.py:584-608 | the table has at most one row per selected city |
| `App.CompareCities` | app.py:584-608 | the loop produces exactly the specified table |
| `App.ComparisonConcat` | app.py:586-608 | the table of a concatenated selection is the concatenation of the tables, so cities do not affect each other's rows |
| `App.FailedCityLeavesOthers` | app.py:593-608 | removing a city whose fetch or analysis failed leaves the table unchanged |
| `App.ComparisonMembership` | app.py:586-608 | a row is in the table exactly when it is some selected city's row |
| `App.SortedTrends` | app.py:369 | the descending slope sort is a permutation of the trends with non-increasing slopes |
| `App.StrongestWarming` | app.py:441-446 | exists exactly for a non-empty table, and is a row with the greatest slope |
| `App.StrongestCooling` | app.py:449-454 | exists exactly for a non-empty table, and is a row with the least slope |
| `App.HottestCity` | app.py:394-462 | exists exactly for a non-empty table, and is a row with the greatest average temperature |
| `App.AverageTrend` | app.py:433 | exists exactly for a non-empty table, is the mean of the slopes, and lies between the least and greatest slope |
| `App.TrendMetricsOrdered` | app.py:433-454 | strongest cooling ≤ average trend ≤ strongest warming |

## Left out

- Plotting, widgets and layout (`plot_city_analysis`, `plot_comparative_trends`, the tab figures, messages and `st.metric` formatting) produce no values that the rest uses.
- The tab-1 mean, maximum and minimum metrics, and the tab-2 display table with its rounding, renaming and user-chosen sort, are presentation of columns already modelled.
- The `test_sync_monitoring` and `test_async_monitoring` print harnesses, and the `print` calls in the monitoring modules, only print.
- The HTTP transport is the parameter `get`. This covers the base URL, the 10-second timeout, aiohttp's shared or fresh session, `asyncio.gather`, and what OpenWeatherMap answers. A JSON body whose `main.temp` is `null` is not modelled.
- CSV parsing and `pd.to_datetime` are not modelled. The upload receives the parsed rows, with year and month already derived, or `None` when parsing raised. Timestamps are ordered integers.
- `datetime.now()` is the parameter `month`.
- Floating point is not modelled: all arithmetic is exact. The `round(..., 2)` calls are omitted, as are the f-string formats.
- `detect_anomalies` adds its columns in place, on the same frame it returns. The model returns a new sequence. No caller uses the argument afterwards, so the difference cannot be seen.
- `Sorting.SortBy`: pandas' default sort is not stable, so the order of rows with equal keys is unspecified. The model keeps equal keys in input order, and no stated property depends on that choice.
- `Trends.PolyfitSlope`: for two or more years it is the exact least-squares slope, not numpy's floating-point `lstsq` result. The contract states only the single-year case; the least-squares case is covered by `Trends.ConstantCityIsStable`.
- `LiveAnomaly.AnalyzeTemperatureAnomaly`: mean, σ, range and deviation are stated before `round(..., 2)`. This is weaker than the source's rounded values.
- `App.MonitorCity`: the bar is computed from the unrounded deviation. The source uses the deviation rounded to two decimals.
- The `except` branches of the upload, the comparison tab and the monitoring tab are covered as follows:
  - The upload's `except` is the `Option` or `Result` failure of parsing or of the concatenation.
  - The comparison tab's and the monitoring tab's catch nothing the model can raise.
