/**
 * The decision points of the Streamlit application: the session state and
 * its all-or-nothing update on upload, the anomaly counts of the city tab,
 * the trend statistics of the comparison tab, and the single- and
 * multi-city monitoring of the current-weather tab. Widgets, plots and
 * formatting are not modelled; the CSV parsing is a parameter that either
 * produced rows or raised.
 */
module App {
  import opened Wrappers
  import opened Stats
  import opened Seasons
  import opened Records
  import opened Sorting
  import opened RollingStats
  import opened AnomalyDetection
  import opened Trends
  import opened LiveAnomaly
  import opened SyncMonitoring
  import opened Sequences

  /** The upload computes rolling statistics over 30 rows. */
  const RollingWindow: nat := 30
  /** A centred pandas window of 30 rows reaches (30 - 1) / 2 = 14 rows ahead of its row. */
  const RollingAhead: nat := 14

  const Unauthorized := 401

  /** `st.session_state` with its four keys. */
  class Session {
    var df: Option<seq<Observation>>
    var processedDf: Option<seq<LabelledRow>>
    var trendsDf: Option<seq<TrendRow>>
    var apiKey: string

    /**
     * The three tables are either all missing or all present, and then the
     * processed table and the trends are those the pipeline computes from
     * the raw table.
     */
    predicate Consistent(sqrt: real -> real)
      reads this
      requires IsSqrt(sqrt)
    {
      (df.Some? <==> processedDf.Some?) && (df.Some? <==> trendsDf.Some?) &&
      (df.Some? ==>
        MovingStats(df.value, RollingWindow, RollingAhead, sqrt).Ok? &&
        processedDf.value == DetectAnomalies(MovingStats(df.value, RollingWindow, RollingAhead, sqrt).value) &&
        trendsDf.value == LongTermTrends(Observations(processedDf.value)))
    }

    constructor()
      ensures df.None? && processedDf.None? && trendsDf.None? && apiKey == ""
    {
      df := None;
      processedDf := None;
      trendsDf := None;
      apiKey := "";
    }

    /**
     * The upload handler. `parsed` is `None` when reading the CSV or its
     * timestamps raised. The three tables are replaced together only when
     * the whole pipeline succeeds; an empty table makes the concatenation
     * raise, and then the session keeps its previous tables.
     */
    method Upload(parsed: Option<seq<RawRow>>, sqrt: real -> real) returns (loaded: bool)
      requires IsSqrt(sqrt) && Consistent(sqrt)
      modifies this
      ensures loaded <==> parsed.Some? && parsed.value != []
      ensures loaded ==>
        df == Some(TagAll(parsed.value)) &&
        processedDf == Some(DetectAnomalies(MovingStats(TagAll(parsed.value), RollingWindow, RollingAhead, sqrt).value)) &&
        trendsDf == Some(LongTermTrends(Observations(processedDf.value)))
      ensures !loaded ==> df == old(df) && processedDf == old(processedDf) && trendsDf == old(trendsDf)
      ensures apiKey == old(apiKey)
      ensures Consistent(sqrt)
    {
      if parsed.None? {
        return false;
      }
      var rows := TagAll(parsed.value);
      var stats := CalculateMovingStats(rows, RollingWindow, RollingAhead, sqrt);
      if stats.Err? {
        return false;
      }
      var labelled := DetectAnomalies(stats.value);
      var trends := CalculateLongTermTrends(Observations(labelled));
      df := Some(rows);
      processedDf := Some(labelled);
      trendsDf := Some(trends);
      return true;
    }

    /** The key entered in the sidebar is stored only when it is not empty. */
    method SetApiKey(key: string) returns (saved: bool)
      modifies this
      ensures saved <==> key != ""
      ensures apiKey == if saved then key else old(apiKey)
      ensures df == old(df) && processedDf == old(processedDf) && trendsDf == old(trendsDf)
    {
      saved := key != "";
      if saved {
        apiKey := key;
      }
    }
  }

  /** Every row of a consistent session's processed table has agreeing anomaly flag and type. */
  lemma ConsistentLabelsAgree(s: Session, sqrt: real -> real)
    requires IsSqrt(sqrt) && s.Consistent(sqrt) && s.processedDf.Some?
    ensures LabelsAgree(s.processedDf.value)
  {
    DetectAnomaliesLabelsAgree(MovingStats(s.df.value, RollingWindow, RollingAhead, sqrt).value);
  }

  /** The three numbers of the city tab: all anomalies, positive ones, negative ones. */
  datatype AnomalyCounts = AnomalyCounts(total: nat, positive: nat, negative: nat)

  /** Whether a row is an anomaly of the city, of the given type when one is given. */
  predicate IsCounted(r: LabelledRow, city: string, kind: Option<AnomalyType>) {
    r.stat.obs.city == city && r.isAnomaly && (kind.None? || r.anomalyType == kind.value)
  }

  /** Whether each row is counted. */
  function Marks(rows: seq<LabelledRow>, city: string, kind: Option<AnomalyType>): (bs: seq<bool>)
    ensures |bs| == |rows|
    ensures forall i :: 0 <= i < |rows| ==> bs[i] == IsCounted(rows[i], city, kind)
  {
    seq(|rows|, i requires 0 <= i < |rows| => IsCounted(rows[i], city, kind))
  }

  /** The positions of the rows `IsCounted` selects. */
  ghost function CountedIndices(rows: seq<LabelledRow>, city: string, kind: Option<AnomalyType>): set<nat> {
    TrueIndices(Marks(rows, city, kind))
  }

  /**
   * `len(anomalies)`, `len(positive_anomalies)` and `len(negative_anomalies)`
   * for the city's rows: each is the number of positions of the city's
   * anomalous rows, of any type, positive and negative respectively.
   */
  function CountAnomalies(rows: seq<LabelledRow>, city: string): (c: AnomalyCounts)
    ensures c.total == |CountedIndices(rows, city, None)|
    ensures c.positive == |CountedIndices(rows, city, Some(Positive))|
    ensures c.negative == |CountedIndices(rows, city, Some(Negative))|
    ensures c.positive + c.negative <= c.total <= |rows|
  {
    if rows == [] then
      assert CountedIndices(rows, city, None) == {};
      assert CountedIndices(rows, city, Some(Positive)) == {};
      assert CountedIndices(rows, city, Some(Negative)) == {};
      AnomalyCounts(0, 0, 0)
    else
      var n := |rows| - 1;
      var c := CountAnomalies(rows[..n], city);
      var r := rows[n];
      CountedStep(rows, city, None);
      CountedStep(rows, city, Some(Positive));
      CountedStep(rows, city, Some(Negative));
      if r.stat.obs.city == city && r.isAnomaly then
        AnomalyCounts(c.total + 1,
                      c.positive + if r.anomalyType == Positive then 1 else 0,
                      c.negative + if r.anomalyType == Negative then 1 else 0)
      else c
  }

  lemma CountedStep(rows: seq<LabelledRow>, city: string, kind: Option<AnomalyType>)
    requires |rows| > 0
    ensures |CountedIndices(rows, city, kind)|
      == |CountedIndices(rows[..|rows| - 1], city, kind)| + if IsCounted(rows[|rows| - 1], city, kind) then 1 else 0
  {
    var n := |rows| - 1;
    assert Marks(rows, city, kind)[..n] == Marks(rows[..n], city, kind);
    TrueIndicesStep(Marks(rows, city, kind));
  }

  /** When every row's flag agrees with its type, the positive and negative anomalies make up all of them. */
  lemma {:induction false} CountsAddUp(rows: seq<LabelledRow>, city: string)
    requires LabelsAgree(rows)
    ensures CountAnomalies(rows, city).positive + CountAnomalies(rows, city).negative
      == CountAnomalies(rows, city).total
  {
    if rows != [] {
      var n := |rows| - 1;
      assert LabelsAgree(rows[..n]) by {
        forall i | 0 <= i < n ensures (rows[..n][i].isAnomaly <==> rows[..n][i].anomalyType != Normal) {
          assert rows[..n][i] == rows[i];
        }
      }
      CountsAddUp(rows[..n], city);
    }
  }

  /** The counts shown for any city of an uploaded table add up. */
  lemma SessionCountsAddUp(s: Session, sqrt: real -> real, city: string)
    requires IsSqrt(sqrt) && s.Consistent(sqrt) && s.processedDf.Some?
    ensures CountAnomalies(s.processedDf.value, city).positive + CountAnomalies(s.processedDf.value, city).negative
      == CountAnomalies(s.processedDf.value, city).total
  {
    ConsistentLabelsAgree(s, sqrt);
    CountsAddUp(s.processedDf.value, city);
  }

  /** The progress bar: above the mean it fills with the deviation, at or below the mean it empties with it. */
  function Progress(deviation: real): (p: real)
    ensures 0.0 <= p <= 1.0
    ensures deviation >= 10.0 ==> p == 1.0
    ensures deviation <= -10.0 ==> p == 0.0
  {
    if deviation > 0.0 then
      (if deviation / 10.0 < 1.0 then deviation / 10.0 else 1.0)
    else
      (if 1.0 + deviation / 10.0 > 0.0 then 1.0 + deviation / 10.0 else 0.0)
  }

  /** On each side of the mean the bar moves monotonically with the deviation. */
  lemma ProgressMonotone(d1: real, d2: real)
    requires d1 <= d2 && (d1 > 0.0 || d2 <= 0.0)
    ensures Progress(d1) <= Progress(d2)
  {
  }

  /** The bar is full at the mean itself and close to empty just above it. */
  lemma ProgressAtTheMean()
    ensures Progress(0.0) == 1.0
    ensures Progress(0.1) == 0.01
  {
  }

  /** What the current-weather tab shows for one city. */
  datatype MonitorView =
    | NeedData
    | NeedKey
    | InvalidKey
    | FetchFailed(status: Option<int>)
    | AnalysisError(message: string)
    | Shown(verdict: Verdict, description: string, progress: real)

  /**
   * The single-city monitoring: the data and key guards, then status 401,
   * then the presence of a temperature, then the verdict. `month` is the
   * current month and `get` the HTTP call.
   */
  function MonitorCity(processed: Option<seq<LabelledRow>>, apiKey: string, city: string,
                       get: RequestParams -> Outcome, month: int, sqrt: real -> real): (v: MonitorView)
    requires IsSqrt(sqrt)
    ensures v.NeedData? <==> processed.None?
    ensures v.NeedKey? <==> processed.Some? && apiKey == ""
    ensures var reading := GetCurrentTemperatureSync(city, apiKey, None, get);
      processed.Some? && apiKey != "" ==>
        (v.InvalidKey? <==> reading.status == Some(Unauthorized)) &&
        (v.FetchFailed? <==> reading.status != Some(Unauthorized) && reading.temperature.None?) &&
        (v.FetchFailed? ==> v.status == reading.status) &&
        (v.Shown? <==>
          reading.status != Some(Unauthorized) && reading.temperature.Some? &&
          AnalyzeTemperatureAnomaly(city, reading.temperature.value, Observations(processed.value), month, sqrt).Ok?) &&
        (v.AnalysisError? <==>
          reading.status != Some(Unauthorized) && reading.temperature.Some? &&
          AnalyzeTemperatureAnomaly(city, reading.temperature.value, Observations(processed.value), month, sqrt).Err?) &&
        (v.Shown? ==>
          reading.temperature.Some? && reading.description == Some(v.description) &&
          AnalyzeTemperatureAnomaly(city, reading.temperature.value, Observations(processed.value), month, sqrt)
            == Ok(v.verdict) &&
          v.progress == Progress(v.verdict.deviationFromMean))
    ensures v.AnalysisError? ==> v.message == NoHistory
  {
    if processed.None? then NeedData
    else if apiKey == "" then NeedKey
    else
      var reading := GetCurrentTemperatureSync(city, apiKey, None, get);
      if reading.status == Some(Unauthorized) then InvalidKey
      else if reading.temperature.Some? then
        match AnalyzeTemperatureAnomaly(city, reading.temperature.value, Observations(processed.value), month, sqrt)
        case Err(message) => AnalysisError(message)
        case Ok(verdict) => Shown(verdict, reading.description.value, Progress(verdict.deviationFromMean))
      else FetchFailed(reading.status)
  }

  /** A rejected key is reported as such and never reaches the analysis; a shown bar is always in range. */
  lemma InvalidKeyNeverAnalysed(processed: Option<seq<LabelledRow>>, apiKey: string, city: string,
                                get: RequestParams -> Outcome, month: int, sqrt: real -> real)
    requires IsSqrt(sqrt) && processed.Some? && apiKey != ""
    ensures var reading := GetCurrentTemperatureSync(city, apiKey, None, get);
      reading.status == Some(Unauthorized) ==> MonitorCity(processed, apiKey, city, get, month, sqrt) == InvalidKey
    ensures var v := MonitorCity(processed, apiKey, city, get, month, sqrt);
      v.Shown? ==> 0.0 <= v.progress <= 1.0 && v.verdict.city == city
  {
  }

  /** One row of the multi-city table. */
  datatype ComparisonRow = ComparisonRow(
    city: string,
    temperature: real,
    deviation: real,
    season: Season,
    status: string,
    anomalyType: string)

  const AnomalyStatus := "Аномалия"
  const NormalStatus := "Норма"
  const NoAnomalyType := "Нет"

  lemma StatusNamesDiffer()
    ensures Positive.Name() != NoAnomalyType && Negative.Name() != NoAnomalyType
    ensures AnomalyStatus != NormalStatus
  {
  }

  /** The row for one selected city, or `None` when its fetch gave no temperature or its analysis an error. */
  function CompareCity(city: string, apiKey: string, get: RequestParams -> Outcome,
                       hist: seq<Observation>, month: int, sqrt: real -> real): (row: Option<ComparisonRow>)
    requires IsSqrt(sqrt)
    ensures var reading := GetCurrentTemperatureSync(city, apiKey, None, get);
      row.Some? <==>
        reading.temperature.Some? &&
        AnalyzeTemperatureAnomaly(city, reading.temperature.value, hist, month, sqrt).Ok?
    ensures row.Some? ==>
      var reading := GetCurrentTemperatureSync(city, apiKey, None, get);
      var v := AnalyzeTemperatureAnomaly(city, reading.temperature.value, hist, month, sqrt).value;
      row.value.city == city && row.value.temperature == reading.temperature.value &&
      row.value.deviation == v.deviationFromMean && row.value.season == v.season &&
      (row.value.status == AnomalyStatus <==> v.isAnomaly) &&
      (row.value.status == NormalStatus <==> !v.isAnomaly) &&
      (row.value.anomalyType == NoAnomalyType <==> !v.isAnomaly) &&
      (v.isAnomaly ==> v.anomalyType.Some? && row.value.anomalyType == v.anomalyType.value.Name())
  {
    var reading := GetCurrentTemperatureSync(city, apiKey, None, get);
    if reading.temperature.None? then None
    else
      match AnalyzeTemperatureAnomaly(city, reading.temperature.value, hist, month, sqrt)
      case Err(_) => None
      case Ok(v) =>
        AnomalyHasType(city, reading.temperature.value, hist, month, sqrt);
        StatusNamesDiffer();
        Some(ComparisonRow(city, reading.temperature.value, v.deviationFromMean, v.season,
                           if v.isAnomaly then AnomalyStatus else NormalStatus,
                           if v.isAnomaly then v.anomalyType.value.Name() else NoAnomalyType))
  }

  /** The present values of `xs`, in order. */
  function Somes<T>(xs: seq<Option<T>>): (ys: seq<T>)
    ensures |ys| <= |xs|
  {
    if xs == [] then []
    else
      var n := |xs| - 1;
      Somes(xs[..n]) + if xs[n].Some? then [xs[n].value] else []
  }

  lemma {:induction false} SomesConcat<T>(a: seq<Option<T>>, b: seq<Option<T>>)
    ensures Somes(a + b) == Somes(a) + Somes(b)
  {
    if b != [] {
      var n := |b| - 1;
      assert (a + b)[..|a| + n] == a + b[..n];
      SomesConcat(a, b[..n]);
    } else {
      assert a + b == a;
    }
  }

  lemma {:induction false} SomesMembership<T>(xs: seq<Option<T>>, y: T)
    ensures y in Somes(xs) <==> Some(y) in xs
  {
    if xs != [] {
      var n := |xs| - 1;
      SomesMembership(xs[..n], y);
      assert xs == xs[..n] + [xs[n]];
    }
  }

  /** The outcome of each selected city, in selection order. */
  function Attempts(cities: seq<string>, apiKey: string, get: RequestParams -> Outcome,
                    hist: seq<Observation>, month: int, sqrt: real -> real): (xs: seq<Option<ComparisonRow>>)
    requires IsSqrt(sqrt)
    ensures |xs| == |cities|
    ensures forall i :: 0 <= i < |cities| ==> xs[i] == CompareCity(cities[i], apiKey, get, hist, month, sqrt)
  {
    seq(|cities|, i requires 0 <= i < |cities| => CompareCity(cities[i], apiKey, get, hist, month, sqrt))
  }

  /** The rows of the multi-city table for the selected cities, in selection order. */
  function Comparison(cities: seq<string>, apiKey: string, get: RequestParams -> Outcome,
                      hist: seq<Observation>, month: int, sqrt: real -> real): (rows: seq<ComparisonRow>)
    requires IsSqrt(sqrt)
    ensures |rows| <= |cities|
  {
    Somes(Attempts(cities, apiKey, get, hist, month, sqrt))
  }

  /** The "compare cities" loop: each selected city is fetched and analysed in turn. */
  method CompareCities(cities: seq<string>, apiKey: string, get: RequestParams -> Outcome,
                       processed: seq<LabelledRow>, month: int, sqrt: real -> real)
    returns (results: seq<ComparisonRow>)
    requires IsSqrt(sqrt)
    ensures results == Comparison(cities, apiKey, get, Observations(processed), month, sqrt)
  {
    var hist := Observations(processed);
    results := [];
    for k := 0 to |cities|
      invariant results == Comparison(cities[..k], apiKey, get, hist, month, sqrt)
    {
      var row := CompareCity(cities[k], apiKey, get, hist, month, sqrt);
      if row.Some? {
        results := results + [row.value];
      }
      ComparisonStep(cities, k, apiKey, get, hist, month, sqrt);
    }
    assert cities[..|cities|] == cities;
  }

  lemma ComparisonStep(cities: seq<string>, k: nat, apiKey: string, get: RequestParams -> Outcome,
                        hist: seq<Observation>, month: int, sqrt: real -> real)
    requires IsSqrt(sqrt) && k < |cities|
    ensures var row := CompareCity(cities[k], apiKey, get, hist, month, sqrt);
      Comparison(cities[..k + 1], apiKey, get, hist, month, sqrt)
        == Comparison(cities[..k], apiKey, get, hist, month, sqrt) + if row.Some? then [row.value] else []
  {
    var xs := Attempts(cities[..k + 1], apiKey, get, hist, month, sqrt);
    assert xs[..k] == Attempts(cities[..k], apiKey, get, hist, month, sqrt);
  }

  /** The table of a concatenated selection is the concatenation of the tables: cities do not affect each other's rows. */
  lemma ComparisonConcat(a: seq<string>, b: seq<string>, apiKey: string,
                         get: RequestParams -> Outcome, hist: seq<Observation>,
                         month: int, sqrt: real -> real)
    requires IsSqrt(sqrt)
    ensures Comparison(a + b, apiKey, get, hist, month, sqrt)
      == Comparison(a, apiKey, get, hist, month, sqrt) + Comparison(b, apiKey, get, hist, month, sqrt)
  {
    AttemptsConcat(a, b, apiKey, get, hist, month, sqrt);
    SomesConcat(Attempts(a, apiKey, get, hist, month, sqrt), Attempts(b, apiKey, get, hist, month, sqrt));
  }

  lemma AttemptsConcat(a: seq<string>, b: seq<string>, apiKey: string,
                        get: RequestParams -> Outcome, hist: seq<Observation>,
                        month: int, sqrt: real -> real)
    requires IsSqrt(sqrt)
    ensures Attempts(a + b, apiKey, get, hist, month, sqrt)
      == Attempts(a, apiKey, get, hist, month, sqrt) + Attempts(b, apiKey, get, hist, month, sqrt)
  {
    var xs := Attempts(a + b, apiKey, get, hist, month, sqrt);
    var ys := Attempts(a, apiKey, get, hist, month, sqrt) + Attempts(b, apiKey, get, hist, month, sqrt);
    forall k | 0 <= k < |xs| ensures xs[k] == ys[k] {
      if k < |a| {
        assert (a + b)[k] == a[k];
      } else {
        assert (a + b)[k] == b[k - |a|];
      }
    }
  }

  /** Removing a city whose fetch or analysis failed leaves the table unchanged. */
  lemma FailedCityLeavesOthers(cities: seq<string>, i: nat, apiKey: string, get: RequestParams -> Outcome,
                               hist: seq<Observation>, month: int, sqrt: real -> real)
    requires IsSqrt(sqrt) && i < |cities|
    requires CompareCity(cities[i], apiKey, get, hist, month, sqrt).None?
    ensures Comparison(cities[..i] + cities[i + 1..], apiKey, get, hist, month, sqrt)
      == Comparison(cities, apiKey, get, hist, month, sqrt)
  {
    var before := Attempts(cities[..i], apiKey, get, hist, month, sqrt);
    var failed := Attempts([cities[i]], apiKey, get, hist, month, sqrt);
    var after := Attempts(cities[i + 1..], apiKey, get, hist, month, sqrt);
    assert failed == [failed[0]];
    assert cities == cities[..i] + [cities[i]] + cities[i + 1..];
    AttemptsConcat(cities[..i], [cities[i]], apiKey, get, hist, month, sqrt);
    AttemptsConcat(cities[..i] + [cities[i]], cities[i + 1..], apiKey, get, hist, month, sqrt);
    AttemptsConcat(cities[..i], cities[i + 1..], apiKey, get, hist, month, sqrt);
    SomesDropNone(before, failed[0], after);
  }

  lemma SomesDropNone<T>(before: seq<Option<T>>, x: Option<T>, after: seq<Option<T>>)
    requires x.None?
    ensures Somes(before + [x] + after) == Somes(before + after)
  {
    SomesConcat(before + [x], after);
    SomesConcat(before, [x]);
    SomesConcat(before, after);
    assert Somes([x]) == [] by {
      assert [x][..0] == [];
    }
  }

  /** A row is in the table exactly when it is the row of some selected city. */
  lemma ComparisonMembership(cities: seq<string>, apiKey: string, get: RequestParams -> Outcome,
                             hist: seq<Observation>, month: int, sqrt: real -> real, row: ComparisonRow)
    requires IsSqrt(sqrt)
    ensures row in Comparison(cities, apiKey, get, hist, month, sqrt) <==>
      exists i :: 0 <= i < |cities| && CompareCity(cities[i], apiKey, get, hist, month, sqrt) == Some(row)
  {
    var xs := Attempts(cities, apiKey, get, hist, month, sqrt);
    SomesMembership(xs, row);
    if Some(row) in xs {
      var i :| 0 <= i < |xs| && xs[i] == Some(row);
    }
  }

  /** Sort keys for the descending sorts of the comparison tab. */
  function NegatedSlope(t: TrendRow): real { -t.trendSlope }
  function NegatedAverage(t: TrendRow): real { -t.avgTemperature }

  /** `trends_df.sort_values('trend_slope', ascending=False)`. */
  function SortedTrends(trends: seq<TrendRow>): (s: seq<TrendRow>)
    ensures multiset(s) == multiset(trends) && |s| == |trends|
    ensures forall i, j :: 0 <= i < j < |s| ==> s[j].trendSlope <= s[i].trendSlope
  {
    var s := SortBy(trends, NegatedSlope);
    assert forall i, j :: 0 <= i < j < |s| ==> NegatedSlope(s[i]) <= NegatedSlope(s[j]);
    s
  }

  /** The first row of the descending slope sort: the city with the greatest slope. */
  function StrongestWarming(trends: seq<TrendRow>): (w: Option<TrendRow>)
    ensures w.Some? <==> |trends| > 0
    ensures w.Some? ==> w.value in trends && forall t :: t in trends ==> t.trendSlope <= w.value.trendSlope
  {
    var s := SortedTrends(trends);
    if |s| == 0 then None
    else
      assert s[0] in multiset(trends);
      assert forall t :: t in trends ==> t in multiset(s);
      Some(s[0])
  }

  /** The last row of the descending slope sort: the city with the least slope. */
  function StrongestCooling(trends: seq<TrendRow>): (c: Option<TrendRow>)
    ensures c.Some? <==> |trends| > 0
    ensures c.Some? ==> c.value in trends && forall t :: t in trends ==> c.value.trendSlope <= t.trendSlope
  {
    var s := SortedTrends(trends);
    if |s| == 0 then None
    else
      assert s[|s| - 1] in multiset(trends);
      assert forall t :: t in trends ==> t in multiset(s);
      Some(s[|s| - 1])
  }

  /** The first row of `trends_df.sort_values('avg_temperature', ascending=False)`: the warmest city. */
  function HottestCity(trends: seq<TrendRow>): (h: Option<TrendRow>)
    ensures h.Some? <==> |trends| > 0
    ensures h.Some? ==> h.value in trends && forall t :: t in trends ==> t.avgTemperature <= h.value.avgTemperature
  {
    var s := SortBy(trends, NegatedAverage);
    if |s| == 0 then None
    else
      SortedFirstIsLeast(s, NegatedAverage);
      assert s[0] in multiset(trends);
      assert forall t :: t in trends ==> t in multiset(s);
      Some(s[0])
  }

  function Slopes(trends: seq<TrendRow>): (xs: seq<real>)
    ensures |xs| == |trends|
    ensures forall k :: 0 <= k < |trends| ==> xs[k] == trends[k].trendSlope
  {
    seq(|trends|, k requires 0 <= k < |trends| => trends[k].trendSlope)
  }

  /** `trends_df['trend_slope'].mean()`, missing for an empty table. */
  function AverageTrend(trends: seq<TrendRow>): (a: Option<real>)
    ensures a.Some? <==> |trends| > 0
    ensures a.Some? ==> a.value == Mean(Slopes(trends))
    ensures a.Some? ==> Min(Slopes(trends)) <= a.value <= Max(Slopes(trends))
  {
    if |trends| == 0 then None else Some(Mean(Slopes(trends)))
  }

  /** The four metrics of the comparison tab are ordered: coolest slope ≤ average slope ≤ warmest slope. */
  lemma TrendMetricsOrdered(trends: seq<TrendRow>)
    requires |trends| > 0
    ensures StrongestCooling(trends).value.trendSlope <= AverageTrend(trends).value
    ensures AverageTrend(trends).value <= StrongestWarming(trends).value.trendSlope
  {
    var xs := Slopes(trends);
    var lo := StrongestCooling(trends).value;
    var hi := StrongestWarming(trends).value;
    assert Min(xs) in xs && Max(xs) in xs;
    var i :| 0 <= i < |xs| && xs[i] == Min(xs);
    var j :| 0 <= j < |xs| && xs[j] == Max(xs);
    assert trends[i] in trends && trends[j] in trends;
    var a :| 0 <= a < |trends| && trends[a] == lo;
    var b :| 0 <= b < |trends| && trends[b] == hi;
    assert Min(xs) <= xs[a] && xs[b] <= Max(xs);
  }
}
