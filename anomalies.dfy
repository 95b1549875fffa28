/**
 * `detect_anomalies`: every row gets the band rolling_mean ± 2·rolling_std and
 * is labelled positive above the band, negative below it and normal otherwise.
 * A missing rolling value (pandas' NaN) makes the bounds missing too, and a
 * comparison with a missing bound is false.
 */
module AnomalyDetection {
  import opened Wrappers
  import opened Stats
  import opened Records
  import opened RollingStats

  datatype AnomalyType = Positive | Negative | Normal {
    function Name(): string {
      match this
      case Positive => "positive"
      case Negative => "negative"
      case Normal => "normal"
    }
  }

  datatype LabelledRow = LabelledRow(
    stat: StatRow,
    upperBound: Option<real>,
    lowerBound: Option<real>,
    isAnomaly: bool,
    anomalyType: AnomalyType)

  /** `t > b` where a missing `b` compares false. */
  predicate Above(t: real, b: Option<real>) {
    b.Some? && t > b.value
  }

  /** `t < b` where a missing `b` compares false. */
  predicate Below(t: real, b: Option<real>) {
    b.Some? && t < b.value
  }

  function UpperBound(s: StatRow): (u: Option<real>)
    ensures u.Some? <==> s.rollingMean.Some? && s.rollingStd.Some?
    ensures u.Some? ==> u.value - s.rollingMean.value == 2.0 * s.rollingStd.value
  {
    if s.rollingMean.Some? && s.rollingStd.Some? then Some(s.rollingMean.value + 2.0 * s.rollingStd.value) else None
  }

  function LowerBound(s: StatRow): (l: Option<real>)
    ensures l.Some? <==> s.rollingMean.Some? && s.rollingStd.Some?
    ensures l.Some? ==> s.rollingMean.value - l.value == 2.0 * s.rollingStd.value
  {
    if s.rollingMean.Some? && s.rollingStd.Some? then Some(s.rollingMean.value - 2.0 * s.rollingStd.value) else None
  }

  /** One row of `detect_anomalies`' output. */
  function Label(s: StatRow): (r: LabelledRow)
    ensures r.stat == s && r.upperBound == UpperBound(s) && r.lowerBound == LowerBound(s)
    ensures r.anomalyType == Positive <==> Above(s.obs.temperature, r.upperBound)
    ensures r.anomalyType == Negative <==>
      !Above(s.obs.temperature, r.upperBound) && Below(s.obs.temperature, r.lowerBound)
    ensures r.isAnomaly <==> r.anomalyType != Normal
    ensures r.upperBound.None? ==> !r.isAnomaly && r.anomalyType == Normal
  {
    var t := s.obs.temperature;
    var upper := UpperBound(s);
    var lower := LowerBound(s);
    var isAnomaly := Above(t, upper) || Below(t, lower);
    var anomalyType := if Above(t, upper) then Positive else if Below(t, lower) then Negative else Normal;
    LabelledRow(s, upper, lower, isAnomaly, anomalyType)
  }

  function DetectAnomalies(rows: seq<StatRow>): (out: seq<LabelledRow>)
    ensures |out| == |rows|
    ensures forall i :: 0 <= i < |rows| ==> out[i] == Label(rows[i])
  {
    seq(|rows|, i requires 0 <= i < |rows| => Label(rows[i]))
  }

  /** The rows of a labelled table without the anomaly columns. */
  function Observations(rows: seq<LabelledRow>): (os: seq<Observation>)
    ensures |os| == |rows|
    ensures forall i :: 0 <= i < |rows| ==> os[i] == rows[i].stat.obs
  {
    seq(|rows|, i requires 0 <= i < |rows| => rows[i].stat.obs)
  }

  /** Labelling adds columns and keeps every row, in place and order. */
  lemma DetectAnomaliesKeepsRows(rows: seq<StatRow>)
    ensures Observations(DetectAnomalies(rows)) == Obs(rows)
  {
  }

  /** With a non-negative standard deviation the band is never inverted. */
  lemma BandOrdered(s: StatRow)
    requires s.rollingStd.Some? ==> 0.0 <= s.rollingStd.value
    requires s.rollingMean.Some? && s.rollingStd.Some?
    ensures LowerBound(s).value <= s.rollingMean.value <= UpperBound(s).value
  {
  }

  /**
   * With a non-negative standard deviation a row is negative exactly when it
   * lies below the lower bound (it cannot be above the upper bound as well).
   */
  lemma NegativeIffBelow(s: StatRow)
    requires s.rollingStd.Some? ==> 0.0 <= s.rollingStd.value
    ensures Label(s).anomalyType == Negative <==> Below(s.obs.temperature, LowerBound(s))
    ensures Label(s).isAnomaly <==>
      Below(s.obs.temperature, LowerBound(s)) || Above(s.obs.temperature, UpperBound(s))
  {
    if s.rollingMean.Some? && s.rollingStd.Some? {
      BandOrdered(s);
    }
  }

  /** The rows of a labelled table whose flag and type agree, as `detect_anomalies` leaves them. */
  predicate LabelsAgree(rows: seq<LabelledRow>) {
    forall i :: 0 <= i < |rows| ==> (rows[i].isAnomaly <==> rows[i].anomalyType != Normal)
  }

  lemma DetectAnomaliesLabelsAgree(rows: seq<StatRow>)
    ensures LabelsAgree(DetectAnomalies(rows))
  {
  }

  /** Every band of the pipeline's output is ordered: lower ≤ mean ≤ upper wherever defined. */
  lemma PipelineBandsOrdered(rows: seq<Observation>, window: nat, ahead: nat, sqrt: real -> real, i: nat)
    requires 1 <= window && ahead < window && IsSqrt(sqrt)
    requires MovingStats(rows, window, ahead, sqrt).Ok?
    requires i < |MovingStats(rows, window, ahead, sqrt).value|
    ensures var r := DetectAnomalies(MovingStats(rows, window, ahead, sqrt).value)[i];
      r.upperBound.Some? ==> r.lowerBound.Some? && r.lowerBound.value <= r.upperBound.value
  {
    var s := MovingStats(rows, window, ahead, sqrt).value[i];
    if s.rollingStd.Some? {
      RollingStdNonNegative(rows, window, ahead, sqrt, i);
    }
    if s.rollingMean.Some? && s.rollingStd.Some? {
      BandOrdered(s);
    }
  }
}
