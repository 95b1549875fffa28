/**
 * `calculate_long_term_trends`: for every city, the temperatures are averaged
 * per calendar year, a straight line is fitted through the yearly means by
 * least squares (`np.polyfit(x, y, 1)`), and its slope, in degrees per year,
 * is classified by fixed thresholds.
 */
module Trends {
  import opened Wrappers
  import opened Stats
  import opened Records
  import opened Sequences

  datatype TrendClass = StrongGrowth | ModerateGrowth | StrongDecline | ModerateDecline | Stable {
    function Name(): string {
      match this
      case StrongGrowth => "Сильный рост"
      case ModerateGrowth => "Умеренный рост"
      case StrongDecline => "Сильное снижение"
      case ModerateDecline => "Умеренное снижение"
      case Stable => "Стабильный"
    }

    /** Position of the class on the scale from strongest cooling to strongest warming. */
    function Rank(): nat {
      match this
      case StrongDecline => 0
      case ModerateDecline => 1
      case Stable => 2
      case ModerateGrowth => 3
      case StrongGrowth => 4
    }
  }

  /** The first-match threshold chain: every slope gets exactly one class. */
  function ClassifyTrend(slope: real): (c: TrendClass)
    ensures c == StrongGrowth <==> slope > 0.1
    ensures c == ModerateGrowth <==> 0.01 < slope <= 0.1
    ensures c == StrongDecline <==> slope < -0.1
    ensures c == ModerateDecline <==> -0.1 <= slope < -0.01
    ensures c == Stable <==> -0.01 <= slope <= 0.01
  {
    if slope > 0.1 then StrongGrowth
    else if slope > 0.01 then ModerateGrowth
    else if slope < -0.1 then StrongDecline
    else if slope < -0.01 then ModerateDecline
    else Stable
  }

  /** The thresholds themselves fall into the milder class. */
  lemma ClassifyAtThresholds()
    ensures ClassifyTrend(0.1) == ModerateGrowth
    ensures ClassifyTrend(0.01) == Stable
    ensures ClassifyTrend(-0.01) == Stable
    ensures ClassifyTrend(-0.1) == ModerateDecline
  {
  }

  /** A steeper slope never gets a class further towards cooling. */
  lemma ClassifyMonotone(s1: real, s2: real)
    requires s1 <= s2
    ensures ClassifyTrend(s1).Rank() <= ClassifyTrend(s2).Rank()
  {
  }

  predicate StrictlyIncreasing(ys: seq<Year>) {
    forall i, j :: 0 <= i < j < |ys| ==> ys[i] < ys[j]
  }

  function InsertYear(y: Year, ys: seq<Year>): (r: seq<Year>)
    requires StrictlyIncreasing(ys)
    ensures StrictlyIncreasing(r)
    ensures forall z :: z in r <==> z in ys || z == y
  {
    if ys == [] then [y]
    else if y < ys[0] then [y] + ys
    else if y == ys[0] then ys
    else
      var rest := InsertYear(y, ys[1..]);
      assert forall z :: z in ys[1..] ==> ys[0] < z by {
        forall z | z in ys[1..] ensures ys[0] < z {
          var k :| 0 <= k < |ys[1..]| && ys[1..][k] == z;
          assert ys[k + 1] == z;
        }
      }
      assert ys == [ys[0]] + ys[1..];
      ConsIncreasing(ys[0], rest);
      [ys[0]] + rest
  }

  lemma ConsIncreasing(h: Year, rest: seq<Year>)
    requires StrictlyIncreasing(rest)
    requires forall z :: z in rest ==> h < z
    ensures StrictlyIncreasing([h] + rest)
  {
    var r := [h] + rest;
    forall i, j | 0 <= i < j < |r| ensures r[i] < r[j] {
      assert r[j] == rest[j - 1];
      if i > 0 {
        assert r[i] == rest[i - 1];
      } else {
        assert rest[j - 1] in rest;
      }
    }
  }

  /** The distinct years of the rows in ascending order (`groupby('year')` sorts its keys). */
  function YearsOf(rows: seq<Observation>): (ys: seq<Year>)
    ensures StrictlyIncreasing(ys)
    ensures forall y :: y in ys <==> exists i :: 0 <= i < |rows| && rows[i].year == y
  {
    if rows == [] then []
    else
      var n := |rows| - 1;
      var prefix := YearsOf(rows[..n]);
      assert forall i :: 0 <= i < n ==> rows[..n][i] == rows[i];
      InsertYear(rows[n].year, prefix)
  }

  /** The rows of one year. */
  function YearRows(rows: seq<Observation>, y: Year): (s: seq<Observation>)
    ensures forall o :: o in s ==> o.year == y
    ensures forall o :: multiset(s)[o] == if o.year == y then multiset(rows)[o] else 0
    ensures (exists i :: 0 <= i < |rows| && rows[i].year == y) ==> |s| > 0
  {
    if rows == [] then []
    else
      var n := |rows| - 1;
      var init := YearRows(rows[..n], y);
      assert forall i :: 0 <= i < n ==> rows[..n][i] == rows[i];
      assert rows == rows[..n] + [rows[n]];
      if rows[n].year == y then init + [rows[n]] else init
  }

  /** `groupby('year')['temperature'].mean()`: one mean per year, in year order. */
  function YearlyMeans(rows: seq<Observation>): (ms: seq<real>)
    ensures |ms| == |YearsOf(rows)|
    ensures forall k :: 0 <= k < |ms| ==>
      |YearRows(rows, YearsOf(rows)[k])| > 0 &&
      ms[k] == Mean(Temperatures(YearRows(rows, YearsOf(rows)[k])))
  {
    var ys := YearsOf(rows);
    assert forall k :: 0 <= k < |ys| ==> |YearRows(rows, ys[k])| > 0 by {
      forall k | 0 <= k < |ys| ensures |YearRows(rows, ys[k])| > 0 {
        assert ys[k] in ys;
      }
    }
    seq(|ys|, k requires 0 <= k < |ys| => Mean(Temperatures(YearRows(rows, ys[k]))))
  }

  function YearColumn(ys: seq<Year>): (xs: seq<real>)
    ensures |xs| == |ys|
    ensures forall k :: 0 <= k < |ys| ==> xs[k] == ys[k] as real
  {
    seq(|ys|, k requires 0 <= k < |ys| => ys[k] as real)
  }

  lemma IncreasingVaries(ys: seq<Year>)
    requires StrictlyIncreasing(ys) && |ys| >= 2
    ensures Varies(YearColumn(ys))
  {
    assert YearColumn(ys)[0] != YearColumn(ys)[1];
  }

  /**
   * The slope `np.polyfit(x, y, 1)` returns. With two or more distinct years it
   * is the least-squares slope. With a single year numpy does not fail: the
   * rank-deficient system gets its minimum-norm solution, after scaling the
   * year column to unit length, whose slope is `y / (2 * year)`.
   */
  function PolyfitSlope(ys: seq<Year>, ms: seq<real>): (slope: real)
    requires |ys| == |ms| >= 1 && StrictlyIncreasing(ys)
    ensures |ys| == 1 ==> slope * (2.0 * ys[0] as real) == ms[0]
  {
    if |ys| == 1 then
      SingleYearSlope(ms[0], 2.0 * ys[0] as real);
      ms[0] / (2.0 * ys[0] as real)
    else
      IncreasingVaries(ys);
      OlsSlope(YearColumn(ys), ms)
  }

  lemma SingleYearSlope(m: real, d: real)
    requires d != 0.0
    ensures (m / d) * d == m
  {
  }

  datatype TrendRow = TrendRow(
    city: string,
    trendSlope: real,
    trendClass: TrendClass,
    avgTemperature: real,
    temperatureRange: real)

  lemma CityRowsNonEmpty(rows: seq<Observation>, c: string)
    requires exists i :: 0 <= i < |rows| && rows[i].city == c
    ensures |CityRows(rows, c)| > 0
  {
    var i :| 0 <= i < |rows| && rows[i].city == c;
    assert rows[i] in multiset(rows);
    assert multiset(CityRows(rows, c))[rows[i]] > 0;
  }

  lemma YearsNonEmpty(rows: seq<Observation>)
    requires |rows| > 0
    ensures |YearsOf(rows)| > 0
  {
    assert rows[0].year in YearsOf(rows);
  }

  /** The trend table's row for one city. */
  function CityTrend(rows: seq<Observation>, c: string): (t: TrendRow)
    requires |CityRows(rows, c)| > 0
    ensures t.city == c
    ensures t.trendClass == ClassifyTrend(t.trendSlope)
    ensures |YearlyMeans(CityRows(rows, c))| > 0
    ensures t.trendSlope == PolyfitSlope(YearsOf(CityRows(rows, c)), YearlyMeans(CityRows(rows, c)))
    ensures t.avgTemperature == Mean(YearlyMeans(CityRows(rows, c)))
    ensures Min(YearlyMeans(CityRows(rows, c))) <= t.avgTemperature <= Max(YearlyMeans(CityRows(rows, c)))
    ensures t.temperatureRange >= 0.0
    ensures t.temperatureRange == Max(YearlyMeans(CityRows(rows, c))) - Min(YearlyMeans(CityRows(rows, c)))
  {
    var cityRows := CityRows(rows, c);
    YearsNonEmpty(cityRows);
    var ys := YearsOf(cityRows);
    var ms := YearlyMeans(cityRows);
    var slope := PolyfitSlope(ys, ms);
    TrendRow(c, slope, ClassifyTrend(slope), Mean(ms), Max(ms) - Min(ms))
  }

  lemma CitiesHaveRows(rows: seq<Observation>)
    ensures forall k :: 0 <= k < |Cities(rows)| ==> |CityRows(rows, Cities(rows)[k])| > 0
  {
    forall k | 0 <= k < |Cities(rows)| ensures |CityRows(rows, Cities(rows)[k])| > 0 {
      assert Cities(rows)[k] in Cities(rows);
      CityRowsNonEmpty(rows, Cities(rows)[k]);
    }
  }

  /** What `calculate_long_term_trends(df)` returns: one row per city, in first-appearance order. */
  function LongTermTrends(rows: seq<Observation>): (table: seq<TrendRow>)
    ensures |table| == |Cities(rows)|
    ensures forall k :: 0 <= k < |table| ==> table[k].city == Cities(rows)[k]
    ensures forall k :: 0 <= k < |table| ==>
      |CityRows(rows, Cities(rows)[k])| > 0 && table[k] == CityTrend(rows, Cities(rows)[k])
  {
    var cs := Cities(rows);
    CitiesHaveRows(rows);
    seq(|cs|, k requires 0 <= k < |cs| => CityTrend(rows, cs[k]))
  }

  method CalculateLongTermTrends(rows: seq<Observation>) returns (table: seq<TrendRow>)
    ensures table == LongTermTrends(rows)
  {
    var cities := Cities(rows);
    CitiesHaveRows(rows);
    var trendData: seq<TrendRow> := [];
    for k := 0 to |cities|
      invariant trendData == LongTermTrends(rows)[..k]
    {
      var row := CityTrend(rows, cities[k]);
      TrendsStep(rows, k);
      trendData := trendData + [row];
    }
    table := trendData;
  }

  lemma TrendsStep(rows: seq<Observation>, k: nat)
    requires k < |Cities(rows)|
    ensures |CityRows(rows, Cities(rows)[k])| > 0
    ensures LongTermTrends(rows)[..k + 1] == LongTermTrends(rows)[..k] + [CityTrend(rows, Cities(rows)[k])]
  {
    CitiesHaveRows(rows);
    TakeStep(LongTermTrends(rows), k + 1);
  }

  /**
   * A city whose yearly means are all the same temperature `t`, over at least
   * two years, has slope 0, is classed stable, averages `t` and has a range
   * of 0, however its readings vary inside each year.
   */
  lemma ConstantCityIsStable(rows: seq<Observation>, c: string, t: real)
    requires |CityRows(rows, c)| > 0
    requires |YearsOf(CityRows(rows, c))| >= 2
    requires forall k :: 0 <= k < |YearlyMeans(CityRows(rows, c))| ==> YearlyMeans(CityRows(rows, c))[k] == t
    ensures CityTrend(rows, c).trendSlope == 0.0
    ensures CityTrend(rows, c).trendClass == Stable
    ensures CityTrend(rows, c).avgTemperature == t
    ensures CityTrend(rows, c).temperatureRange == 0.0
  {
    var ys := YearsOf(CityRows(rows, c));
    var ms := YearlyMeans(CityRows(rows, c));
    IncreasingVaries(ys);
    OlsSlopeOfConstant(YearColumn(ys), ms, t);
    MeanOfConstant(ms, t);
    assert Min(ms) == t && Max(ms) == t;
  }

  /** When every reading of a city is `t`, so is every yearly mean. */
  lemma ConstantReadingsGiveConstantMeans(rows: seq<Observation>, c: string, t: real)
    requires forall i :: 0 <= i < |rows| && rows[i].city == c ==> rows[i].temperature == t
    ensures forall k :: 0 <= k < |YearlyMeans(CityRows(rows, c))| ==> YearlyMeans(CityRows(rows, c))[k] == t
  {
    var cityRows := CityRows(rows, c);
    var ys := YearsOf(cityRows);
    var ms := YearlyMeans(cityRows);
    forall k | 0 <= k < |ms| ensures ms[k] == t {
      var yr := YearRows(cityRows, ys[k]);
      forall i | 0 <= i < |yr| ensures Temperatures(yr)[i] == t {
        assert yr[i] in multiset(yr);
        assert yr[i] in multiset(cityRows);
        assert yr[i] in multiset(rows);
      }
      MeanOfConstant(Temperatures(yr), t);
    }
  }
}
