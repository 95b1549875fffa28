/**
 * `analyze_temperature_anomaly`, whose text is the same in the synchronous
 * and the asynchronous monitoring modules: a live reading of a city is
 * compared with that city's historical rows for the current season. The 2σ
 * band decides the anomaly flag and type; a separate 1σ band decides a
 * three-way zone. The current month is a parameter (the source reads the
 * clock); a season with a single row has an undefined (NaN) standard
 * deviation, which makes every comparison against it false.
 */
module LiveAnomaly {
  import opened Wrappers
  import opened Stats
  import opened Seasons
  import opened Records
  import opened AnomalyDetection
  import opened Sequences

  datatype Zone = BelowAverage | AboveAverage | WithinNorm {
    function Name(): string {
      match this
      case BelowAverage => "Ниже среднего"
      case AboveAverage => "Выше среднего"
      case WithinNorm => "В пределах нормы"
    }
  }

  /** The fields of the dictionary returned for a city with history (before rounding). */
  datatype Verdict = Verdict(
    city: string,
    currentTemperature: real,
    season: Season,
    historicalMean: real,
    historicalStd: Option<real>,
    normalRange: (Option<real>, Option<real>),
    isAnomaly: bool,
    anomalyType: Option<AnomalyType>,
    temperatureZone: Zone,
    deviationFromMean: real)

  const NoHistory := "Нет исторических данных для анализа"

  /** The rows of season `s`, in table order. */
  function SeasonFilter(rows: seq<Observation>, s: Season): (r: seq<Observation>)
    ensures forall o :: o in r <==> o in rows && o.season == s
    ensures forall o :: multiset(r)[o] == if o.season == s then multiset(rows)[o] else 0
  {
    if rows == [] then []
    else
      var n := |rows| - 1;
      assert rows == rows[..n] + [rows[n]];
      SeasonFilter(rows[..n], s) + if rows[n].season == s then [rows[n]] else []
  }

  /** `city_data[city_data['season'] == current_season]` for `city_data = historical_df[historical_df['city'] == city_name]`. */
  function SeasonRows(hist: seq<Observation>, city: string, s: Season): (r: seq<Observation>)
    ensures forall o :: o in r <==> o in hist && o.city == city && o.season == s
    ensures forall o :: multiset(r)[o] == if o.city == city && o.season == s then multiset(hist)[o] else 0
  {
    var cityData := CityRows(hist, city);
    forall o | o in hist && o.city == city ensures o in cityData {
      assert o in multiset(hist);
    }
    SeasonFilter(cityData, s)
  }

  /** pandas' `std()` (ddof = 1) of the season's temperatures: missing for a single row. */
  function SeasonStd(ts: seq<real>, sqrt: real -> real): (s: Option<real>)
    requires |ts| > 0 && IsSqrt(sqrt)
    ensures s.Some? <==> |ts| >= 2
    ensures s.Some? ==> 0.0 <= s.value && s.value * s.value == SampleVariance(ts)
  {
    if |ts| >= 2 then Some(SampleStd(ts, sqrt)) else None
  }

  /** `mean + k * std`, missing when the standard deviation is. */
  function Offset(mean: real, std: Option<real>, k: real): (b: Option<real>)
    ensures b.Some? <==> std.Some?
    ensures b.Some? ==> b.value == mean + k * std.value
  {
    if std.Some? then Some(mean + k * std.value) else None
  }

  function AnalyzeTemperatureAnomaly(city: string, currentTemp: real, hist: seq<Observation>, month: int, sqrt: real -> real)
    : (r: Result<Verdict, string>)
    requires IsSqrt(sqrt)
    ensures r.Err? <==> SeasonRows(hist, city, SeasonOf(month)) == []
    ensures r.Err? ==> r.error == NoHistory
    ensures r.Ok? ==> r.value.city == city && r.value.currentTemperature == currentTemp
    ensures r.Ok? ==> SeasonTable(month).GetOr(Winter) == r.value.season
    ensures r.Ok? ==>
      var ts := Temperatures(SeasonRows(hist, city, r.value.season));
      |ts| > 0 &&
      r.value.historicalMean == Mean(ts) &&
      Min(ts) <= r.value.historicalMean <= Max(ts) &&
      r.value.historicalStd == SeasonStd(ts, sqrt)
    ensures r.Ok? ==> r.value.deviationFromMean + r.value.historicalMean == currentTemp
    ensures r.Ok? ==>
      r.value.normalRange ==
        (Offset(r.value.historicalMean, r.value.historicalStd, -2.0),
         Offset(r.value.historicalMean, r.value.historicalStd, 2.0))
  {
    var season := SeasonOf(month);
    Assess(city, currentTemp, season, SeasonRows(hist, city, season), sqrt)
  }

  /** The verdict on a reading given the season's historical rows of the city. */
  function Assess(city: string, currentTemp: real, season: Season, seasonData: seq<Observation>, sqrt: real -> real)
    : Result<Verdict, string>
    requires IsSqrt(sqrt)
  {
    if |seasonData| == 0 then Err(NoHistory)
    else
      var ts := Temperatures(seasonData);
      var mean := Mean(ts);
      var std := SeasonStd(ts, sqrt);
      var lower := Offset(mean, std, -2.0);
      var upper := Offset(mean, std, 2.0);
      var isAnomaly := Below(currentTemp, lower) || Above(currentTemp, upper);
      var anomalyType :=
        if !isAnomaly then None
        else if Below(currentTemp, lower) then Some(Negative)
        else Some(Positive);
      var zone :=
        if Below(currentTemp, Offset(mean, std, -1.0)) then BelowAverage
        else if Above(currentTemp, Offset(mean, std, 1.0)) then AboveAverage
        else WithinNorm;
      Ok(Verdict(city, currentTemp, season, mean, std, (lower, upper),
                 isAnomaly, anomalyType, zone, currentTemp - mean))
  }

  /**
   * The 2σ rule: the reading is anomalous exactly when it lies outside
   * mean ± 2σ; it is negative below the band, positive above it, and has no
   * type otherwise. A single-row season (no σ) is never anomalous.
   */
  lemma TwoSigmaRule(city: string, currentTemp: real, hist: seq<Observation>, month: int, sqrt: real -> real)
    requires IsSqrt(sqrt)
    requires AnalyzeTemperatureAnomaly(city, currentTemp, hist, month, sqrt).Ok?
    ensures var v := AnalyzeTemperatureAnomaly(city, currentTemp, hist, month, sqrt).value;
      var m := v.historicalMean;
      (v.isAnomaly <==>
        v.historicalStd.Some? &&
        (currentTemp < m - 2.0 * v.historicalStd.value || currentTemp > m + 2.0 * v.historicalStd.value)) &&
      (v.anomalyType == Some(Negative) <==> v.historicalStd.Some? && currentTemp < m - 2.0 * v.historicalStd.value) &&
      (v.anomalyType == Some(Positive) <==> v.historicalStd.Some? && currentTemp > m + 2.0 * v.historicalStd.value) &&
      (v.anomalyType.None? <==> !v.isAnomaly) &&
      (v.historicalStd.None? ==> !v.isAnomaly)
  {
    var v := AnalyzeTemperatureAnomaly(city, currentTemp, hist, month, sqrt).value;
    if v.historicalStd.Some? {
      assert 0.0 <= v.historicalStd.value;
    }
  }

  /** An anomalous verdict always carries its type. */
  lemma AnomalyHasType(city: string, currentTemp: real, hist: seq<Observation>, month: int, sqrt: real -> real)
    requires IsSqrt(sqrt)
    requires AnalyzeTemperatureAnomaly(city, currentTemp, hist, month, sqrt).Ok?
    ensures var v := AnalyzeTemperatureAnomaly(city, currentTemp, hist, month, sqrt).value;
      v.isAnomaly ==> v.anomalyType.Some?
  {
  }

  /**
   * The 1σ zone: below mean − σ, else above mean + σ, else within the norm.
   * A single-row season always lands within the norm.
   */
  lemma ZoneRule(city: string, currentTemp: real, hist: seq<Observation>, month: int, sqrt: real -> real)
    requires IsSqrt(sqrt)
    requires AnalyzeTemperatureAnomaly(city, currentTemp, hist, month, sqrt).Ok?
    ensures var v := AnalyzeTemperatureAnomaly(city, currentTemp, hist, month, sqrt).value;
      var m := v.historicalMean;
      (v.temperatureZone == BelowAverage <==>
        v.historicalStd.Some? && currentTemp < m - v.historicalStd.value) &&
      (v.temperatureZone == AboveAverage <==>
        v.historicalStd.Some? && currentTemp > m + v.historicalStd.value) &&
      (v.temperatureZone == WithinNorm <==>
        v.historicalStd.None? ||
        (m - v.historicalStd.value <= currentTemp <= m + v.historicalStd.value))
  {
    var v := AnalyzeTemperatureAnomaly(city, currentTemp, hist, month, sqrt).value;
    if v.historicalStd.Some? {
      assert 0.0 <= v.historicalStd.value;
    }
  }

  /** Because σ ≥ 0, a positive anomaly is always above average and a negative one below. */
  lemma AnomalyTypeMatchesZone(city: string, currentTemp: real, hist: seq<Observation>, month: int, sqrt: real -> real)
    requires IsSqrt(sqrt)
    requires AnalyzeTemperatureAnomaly(city, currentTemp, hist, month, sqrt).Ok?
    ensures var v := AnalyzeTemperatureAnomaly(city, currentTemp, hist, month, sqrt).value;
      (v.anomalyType == Some(Positive) ==> v.temperatureZone == AboveAverage) &&
      (v.anomalyType == Some(Negative) ==> v.temperatureZone == BelowAverage)
  {
    TwoSigmaRule(city, currentTemp, hist, month, sqrt);
    ZoneRule(city, currentTemp, hist, month, sqrt);
  }

  /** The normal range is never inverted and always contains the mean. */
  lemma NormalRangeOrdered(city: string, currentTemp: real, hist: seq<Observation>, month: int, sqrt: real -> real)
    requires IsSqrt(sqrt)
    requires AnalyzeTemperatureAnomaly(city, currentTemp, hist, month, sqrt).Ok?
    requires AnalyzeTemperatureAnomaly(city, currentTemp, hist, month, sqrt).value.historicalStd.Some?
    ensures var v := AnalyzeTemperatureAnomaly(city, currentTemp, hist, month, sqrt).value;
      v.normalRange.0.Some? && v.normalRange.1.Some? &&
      v.normalRange.0.value <= v.historicalMean <= v.normalRange.1.value
  {
  }

  lemma {:induction false} CityRowsOfOneCity(rows: seq<Observation>, c: string)
    requires forall i :: 0 <= i < |rows| ==> rows[i].city == c
    ensures CityRows(rows, c) == rows
  {
    if rows != [] {
      var n := |rows| - 1;
      CityRowsOfOneCity(rows[..n], c);
      InitLast(rows);
    }
  }

  lemma {:induction false} SeasonFilterOfOneSeason(rows: seq<Observation>, s: Season)
    requires forall i :: 0 <= i < |rows| ==> rows[i].season == s
    ensures SeasonFilter(rows, s) == rows
  {
    if rows != [] {
      var n := |rows| - 1;
      SeasonFilterOfOneSeason(rows[..n], s);
      InitLast(rows);
    }
  }

  /**
   * Only the requested city's rows of the current season matter: the verdict
   * computed from those rows alone equals the verdict computed from the whole
   * table, so rows of other cities or seasons cannot change it.
   */
  lemma VerdictUsesOnlySeasonRows(city: string, currentTemp: real, hist: seq<Observation>, month: int, sqrt: real -> real)
    requires IsSqrt(sqrt)
    ensures AnalyzeTemperatureAnomaly(city, currentTemp, SeasonRows(hist, city, SeasonOf(month)), month, sqrt)
      == AnalyzeTemperatureAnomaly(city, currentTemp, hist, month, sqrt)
  {
    var s := SeasonOf(month);
    var own := SeasonRows(hist, city, s);
    assert SeasonRows(own, city, s) == own by {
      assert forall i :: 0 <= i < |own| ==> own[i] in own;
      CityRowsOfOneCity(own, city);
      SeasonFilterOfOneSeason(own, s);
    }
  }
}
