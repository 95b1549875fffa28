/**
 * `calculate_moving_stats`: every city's rows, sorted by timestamp, receive a
 * centred rolling mean and rolling sample standard deviation over a fixed
 * number of rows; the per-city frames are then concatenated in the order the
 * cities first appear.
 *
 * pandas' centred window for row `i` of a series of `n` rows ends `ahead` rows
 * after `i` (for a window of `w` rows, `ahead` is `(w - 1) / 2`, so 14 for the
 * 30-row window the application uses) and starts `w - 1` rows before its end.
 * With the default `min_periods` (the window size) a value exists only where
 * that whole window lies inside the series; the standard deviation, with one
 * degree of freedom removed, needs at least two rows as well.
 */
module RollingStats {
  import opened Wrappers
  import opened Stats
  import opened Records
  import opened Sorting
  import opened Sequences

  datatype StatRow = StatRow(obs: Observation, rollingMean: Option<real>, rollingStd: Option<real>)

  /** The message pandas raises when asked to concatenate no frames at all. */
  const NoObjectsToConcatenate := "No objects to concatenate"

  function TimestampKey(o: Observation): real {
    o.timestamp as real
  }

  /** The centred window of row `i` lies inside a series of `n` rows. */
  predicate WindowFits(n: nat, i: nat, window: nat, ahead: nat) {
    window <= i + ahead + 1 && i + ahead < n
  }

  function Window(temps: seq<real>, i: nat, window: nat, ahead: nat): (ws: seq<real>)
    requires WindowFits(|temps|, i, window, ahead)
    ensures |ws| == window
    ensures forall k :: 0 <= k < window ==> ws[k] == temps[i + ahead + 1 - window + k]
  {
    temps[i + ahead + 1 - window .. i + ahead + 1]
  }

  /** `rolling(window, center=True).mean()` at row `i`. */
  function RollingMeanAt(temps: seq<real>, i: nat, window: nat, ahead: nat): (m: Option<real>)
    requires 1 <= window && ahead < window
    ensures m.Some? <==> WindowFits(|temps|, i, window, ahead)
    ensures m.Some? ==> m.value == Mean(Window(temps, i, window, ahead))
    ensures m.Some? ==>
      Min(Window(temps, i, window, ahead)) <= m.value <= Max(Window(temps, i, window, ahead))
  {
    if WindowFits(|temps|, i, window, ahead) then
      Some(Mean(Window(temps, i, window, ahead)))
    else None
  }

  /** `rolling(window, center=True).std()` at row `i`. */
  function RollingStdAt(temps: seq<real>, i: nat, window: nat, ahead: nat, sqrt: real -> real): (s: Option<real>)
    requires 1 <= window && ahead < window && IsSqrt(sqrt)
    ensures s.Some? <==> WindowFits(|temps|, i, window, ahead) && 2 <= window
    ensures s.Some? ==> 0.0 <= s.value
    ensures s.Some? ==> s.value * s.value == SampleVariance(Window(temps, i, window, ahead))
  {
    if WindowFits(|temps|, i, window, ahead) && 2 <= window then
      Some(SampleStd(Window(temps, i, window, ahead), sqrt))
    else None
  }

  /** The rolling columns of one city's sorted rows. */
  function Roll(g: seq<Observation>, window: nat, ahead: nat, sqrt: real -> real): (f: seq<StatRow>)
    requires 1 <= window && ahead < window && IsSqrt(sqrt)
    ensures |f| == |g|
    ensures forall i :: 0 <= i < |g| ==> f[i].obs == g[i]
    ensures forall i :: 0 <= i < |g| ==> f[i].rollingMean == RollingMeanAt(Temperatures(g), i, window, ahead)
    ensures forall i :: 0 <= i < |g| ==> f[i].rollingStd == RollingStdAt(Temperatures(g), i, window, ahead, sqrt)
  {
    var temps := Temperatures(g);
    seq(|g|, i requires 0 <= i < |g| =>
      StatRow(g[i], RollingMeanAt(temps, i, window, ahead), RollingStdAt(temps, i, window, ahead, sqrt)))
  }

  function Obs(f: seq<StatRow>): (os: seq<Observation>)
    ensures |os| == |f|
    ensures forall i :: 0 <= i < |f| ==> os[i] == f[i].obs
  {
    seq(|f|, i requires 0 <= i < |f| => f[i].obs)
  }

  /** One city's frame: its rows sorted by timestamp, with the rolling columns added. */
  function CityFrame(rows: seq<Observation>, c: string, window: nat, ahead: nat, sqrt: real -> real): (f: seq<StatRow>)
    requires 1 <= window && ahead < window && IsSqrt(sqrt)
    ensures multiset(Obs(f)) == multiset(CityRows(rows, c))
    ensures SortedBy(Obs(f), TimestampKey)
    ensures forall i :: 0 <= i < |f| ==> f[i].obs.city == c
    ensures |f| == |CityRows(rows, c)|
    ensures forall i :: 0 <= i < |f| ==>
      f[i].rollingMean == RollingMeanAt(Temperatures(Obs(f)), i, window, ahead)
    ensures forall i :: 0 <= i < |f| ==>
      f[i].rollingStd == RollingStdAt(Temperatures(Obs(f)), i, window, ahead, sqrt)
  {
    var g := SortBy(CityRows(rows, c), TimestampKey);
    var f := Roll(g, window, ahead, sqrt);
    assert Obs(f) == g;
    assert forall i :: 0 <= i < |f| ==> f[i].obs in multiset(CityRows(rows, c));
    assert |multiset(Obs(f))| == |multiset(CityRows(rows, c))|;
    f
  }

  /** `pd.concat` of a list of frames, by appending the frames one after another. */
  function Flatten(fs: seq<seq<StatRow>>): seq<StatRow> {
    if fs == [] then [] else Flatten(fs[..|fs| - 1]) + fs[|fs| - 1]
  }

  function Concat(fs: seq<seq<StatRow>>): (r: Result<seq<StatRow>, string>)
    ensures r.Err? <==> |fs| == 0
  {
    if |fs| == 0 then Err(NoObjectsToConcatenate) else Ok(Flatten(fs))
  }

  function Frames(rows: seq<Observation>, cs: seq<string>, window: nat, ahead: nat, sqrt: real -> real): (fs: seq<seq<StatRow>>)
    requires 1 <= window && ahead < window && IsSqrt(sqrt)
    ensures |fs| == |cs|
    ensures forall k :: 0 <= k < |cs| ==> fs[k] == CityFrame(rows, cs[k], window, ahead, sqrt)
  {
    seq(|cs|, k requires 0 <= k < |cs| => CityFrame(rows, cs[k], window, ahead, sqrt))
  }

  /** What `calculate_moving_stats(df, window)` returns, or the error it raises. */
  function MovingStats(rows: seq<Observation>, window: nat, ahead: nat, sqrt: real -> real): Result<seq<StatRow>, string>
    requires 1 <= window && ahead < window && IsSqrt(sqrt)
  {
    Concat(Frames(rows, Cities(rows), window, ahead, sqrt))
  }

  method CalculateMovingStats(rows: seq<Observation>, window: nat, ahead: nat, sqrt: real -> real)
    returns (result: Result<seq<StatRow>, string>)
    requires 1 <= window && ahead < window && IsSqrt(sqrt)
    ensures result == MovingStats(rows, window, ahead, sqrt)
    ensures result.Err? <==> rows == []
  {
    var cities := Cities(rows);
    var resultDfs: seq<seq<StatRow>> := [];
    ghost var frames := Frames(rows, cities, window, ahead, sqrt);
    for k := 0 to |cities|
      invariant resultDfs == frames[..k]
    {
      var cityDf := SortBy(CityRows(rows, cities[k]), TimestampKey);
      var framed := Roll(cityDf, window, ahead, sqrt);
      assert framed == frames[k];
      TakeStep(frames, k + 1);
      resultDfs := resultDfs + [framed];
    }
    assert resultDfs == frames;
    result := Concat(resultDfs);
  }

  // ---------------------------------------------------------------------------
  // Properties of the concatenated table

  lemma FlattenStep(fs: seq<seq<StatRow>>, k: nat)
    requires k < |fs|
    ensures Flatten(fs[..k + 1]) == Flatten(fs[..k]) + fs[k]
  {
    assert fs[..k + 1][..k] == fs[..k];
  }

  lemma ObsConcat(a: seq<StatRow>, b: seq<StatRow>)
    ensures Obs(a + b) == Obs(a) + Obs(b)
  {
  }

  /** Index of a city in the distinct city list: its rank in the output. */
  lemma RankOfDistinct(cs: seq<string>, p: nat)
    requires p < |cs|
    requires forall i, j :: 0 <= i < j < |cs| ==> cs[i] != cs[j]
    ensures FirstIndex(cs, cs[p]) == p
  {
  }

  predicate NoDuplicates(cs: seq<string>) {
    forall i, j :: 0 <= i < j < |cs| ==> cs[i] != cs[j]
  }

  /** Frame `k` holds only rows of city `cs[k]`. */
  predicate CityTagged(fs: seq<seq<StatRow>>, cs: seq<string>) {
    |fs| == |cs| && forall k, i :: 0 <= k < |fs| && 0 <= i < |fs[k]| ==> fs[k][i].obs.city == cs[k]
  }

  lemma FramesTagged(rows: seq<Observation>, cs: seq<string>, window: nat, ahead: nat, sqrt: real -> real)
    requires 1 <= window && ahead < window && IsSqrt(sqrt)
    ensures CityTagged(Frames(rows, cs, window, ahead, sqrt), cs)
  {
  }

  lemma FramesHoldCityRows(rows: seq<Observation>, cs: seq<string>, window: nat, ahead: nat, sqrt: real -> real)
    requires 1 <= window && ahead < window && IsSqrt(sqrt)
    ensures forall k, o :: 0 <= k < |cs| ==>
      multiset(Obs(Frames(rows, cs, window, ahead, sqrt)[k]))[o] == if o.city == cs[k] then multiset(rows)[o] else 0
  {
    forall k, o | 0 <= k < |cs|
      ensures multiset(Obs(Frames(rows, cs, window, ahead, sqrt)[k]))[o] == if o.city == cs[k] then multiset(rows)[o] else 0
    {
      assert multiset(Obs(Frames(rows, cs, window, ahead, sqrt)[k])) == multiset(CityRows(rows, cs[k]));
    }
  }

  lemma FramesSorted(rows: seq<Observation>, cs: seq<string>, window: nat, ahead: nat, sqrt: real -> real)
    requires 1 <= window && ahead < window && IsSqrt(sqrt)
    ensures forall k :: 0 <= k < |cs| ==>
      SortedBy(Obs(Frames(rows, cs, window, ahead, sqrt)[k]), TimestampKey)
  {
  }

  /** The first `k` frames hold only rows of the first `k` cities. */
  lemma {:induction false} PrefixCities(fs: seq<seq<StatRow>>, cs: seq<string>, k: nat)
    requires CityTagged(fs, cs) && k <= |fs|
    ensures forall i :: 0 <= i < |Flatten(fs[..k])| ==> Flatten(fs[..k])[i].obs.city in cs[..k]
  {
    if k > 0 {
      PrefixCities(fs, cs, k - 1);
      FlattenStep(fs, k - 1);
      var before := Flatten(fs[..k - 1]);
      assert cs[..k] == cs[..k - 1] + [cs[k - 1]];
      forall i | 0 <= i < |Flatten(fs[..k])| ensures Flatten(fs[..k])[i].obs.city in cs[..k] {
        if i >= |before| {
          assert Flatten(fs[..k])[i] == fs[k - 1][i - |before|];
        } else {
          assert Flatten(fs[..k])[i] == before[i];
        }
      }
    }
  }

  /** One city's rows added to the rows of the cities before it. */
  lemma CountStep(before: multiset<Observation>, frame: multiset<Observation>, rows: multiset<Observation>,
                  earlier: seq<string>, c: string, o: Observation)
    requires c !in earlier
    requires before[o] == if o.city in earlier then rows[o] else 0
    requires frame[o] == if o.city == c then rows[o] else 0
    ensures (before + frame)[o] == if o.city in earlier + [c] then rows[o] else 0
  {
  }

  /** The first `k` frames hold exactly the rows of the first `k` cities. */
  lemma {:induction false} PrefixMultiset(pool: multiset<Observation>, fs: seq<seq<StatRow>>, cs: seq<string>, k: nat)
    requires NoDuplicates(cs) && |fs| == |cs| && k <= |fs|
    requires forall p, o :: 0 <= p < |cs| ==> multiset(Obs(fs[p]))[o] == if o.city == cs[p] then pool[o] else 0
    ensures forall o :: multiset(Obs(Flatten(fs[..k])))[o] == if o.city in cs[..k] then pool[o] else 0
  {
    if k > 0 {
      var before := multiset(Obs(Flatten(fs[..k - 1])));
      var frame := multiset(Obs(fs[k - 1]));
      var earlier := cs[..k - 1];
      var c := cs[k - 1];
      assert multiset(Obs(Flatten(fs[..k]))) == before + frame by {
        FlattenStep(fs, k - 1);
        ObsConcat(Flatten(fs[..k - 1]), fs[k - 1]);
      }
      TakeStep(cs, k);
      assert c !in earlier;
      assert forall o :: before[o] == if o.city in earlier then pool[o] else 0 by {
        PrefixMultiset(pool, fs, cs, k - 1);
      }
      forall o ensures (before + frame)[o] == if o.city in earlier + [c] then pool[o] else 0 {
        CountStep(before, frame, pool, earlier, c, o);
      }
    }
  }

  /** Appending the frame of city `cs[k - 1]` to rows of earlier cities keeps the output order. */
  lemma OrderedAppend(cs: seq<string>, before: seq<StatRow>, frame: seq<StatRow>, k: nat)
    requires NoDuplicates(cs) && 0 < k <= |cs|
    requires forall i :: 0 <= i < |before| ==> before[i].obs.city in cs[..k - 1]
    requires forall i :: 0 <= i < |before| ==> before[i].obs.city in cs
    requires forall i, j :: 0 <= i < j < |before| ==> OrderedPair(cs, before[i].obs, before[j].obs)
    requires forall i :: 0 <= i < |frame| ==> frame[i].obs.city == cs[k - 1]
    requires SortedBy(Obs(frame), TimestampKey)
    ensures forall i :: 0 <= i < |before + frame| ==> (before + frame)[i].obs.city in cs
    ensures forall i, j :: 0 <= i < j < |before + frame| ==>
      OrderedPair(cs, (before + frame)[i].obs, (before + frame)[j].obs)
  {
    var out := before + frame;
    RankOfDistinct(cs, k - 1);
    forall i | 0 <= i < |out| ensures out[i].obs.city in cs {
      if |before| <= i {
        assert out[i] == frame[i - |before|];
      } else {
        assert out[i] == before[i];
      }
    }
    forall i, j | 0 <= i < j < |out| ensures OrderedPair(cs, out[i].obs, out[j].obs) {
      if |before| <= i {
        assert Obs(frame)[i - |before|] == out[i].obs && Obs(frame)[j - |before|] == out[j].obs;
      } else if |before| <= j {
        assert out[i] == before[i] && out[j] == frame[j - |before|];
        assert out[i].obs.city in cs[..k - 1];
        assert FirstIndex(cs, out[i].obs.city) < k - 1 by {
          var p' :| 0 <= p' < k - 1 && cs[p'] == out[i].obs.city;
          RankOfDistinct(cs, p');
        }
      } else {
        assert out[i] == before[i] && out[j] == before[j];
      }
    }
  }

  /** The first `k` frames are ordered by city rank, then by timestamp. */
  lemma {:induction false} PrefixOrdered(fs: seq<seq<StatRow>>, cs: seq<string>, k: nat)
    requires NoDuplicates(cs) && CityTagged(fs, cs) && k <= |fs|
    requires forall p :: 0 <= p < |cs| ==> SortedBy(Obs(fs[p]), TimestampKey)
    ensures forall i :: 0 <= i < |Flatten(fs[..k])| ==> Flatten(fs[..k])[i].obs.city in cs
    ensures forall i, j :: 0 <= i < j < |Flatten(fs[..k])| ==>
      OrderedPair(cs, Flatten(fs[..k])[i].obs, Flatten(fs[..k])[j].obs)
  {
    if k == 0 {
      assert fs[..0] == [];
    } else {
      PrefixOrdered(fs, cs, k - 1);
      PrefixCities(fs, cs, k - 1);
      FlattenStep(fs, k - 1);
      OrderedAppend(cs, Flatten(fs[..k - 1]), fs[k - 1], k);
    }
  }

  /**
   * Row `a` may precede row `b` in the output: its city comes earlier in the
   * city list, or the two share a city and `a`'s timestamp is not later.
   */
  predicate OrderedPair(cs: seq<string>, a: Observation, b: Observation)
    requires a.city in cs && b.city in cs
  {
    FirstIndex(cs, a.city) < FirstIndex(cs, b.city)
    || (a.city == b.city && a.timestamp <= b.timestamp)
  }

  /** The output holds exactly the input rows: none lost, none duplicated. */
  lemma MovingStatsPermutation(rows: seq<Observation>, window: nat, ahead: nat, sqrt: real -> real)
    requires 1 <= window && ahead < window && IsSqrt(sqrt)
    requires MovingStats(rows, window, ahead, sqrt).Ok?
    ensures multiset(Obs(MovingStats(rows, window, ahead, sqrt).value)) == multiset(rows)
  {
    var cs := Cities(rows);
    var fs := Frames(rows, cs, window, ahead, sqrt);
    FramesHoldCityRows(rows, cs, window, ahead, sqrt);
    PrefixMultiset(multiset(rows), fs, cs, |cs|);
    assert fs[..|cs|] == fs;
    assert cs[..|cs|] == cs;
    var out := Obs(Flatten(fs));
    forall o ensures multiset(out)[o] == multiset(rows)[o] {
      if o.city !in cs {
        assert o !in rows;
      }
    }
  }

  /**
   * The output is grouped by city, the cities in the order they first appear
   * in the input, and sorted by timestamp inside each city.
   */
  lemma MovingStatsOrder(rows: seq<Observation>, window: nat, ahead: nat, sqrt: real -> real)
    requires 1 <= window && ahead < window && IsSqrt(sqrt)
    requires MovingStats(rows, window, ahead, sqrt).Ok?
    ensures var out := MovingStats(rows, window, ahead, sqrt).value;
      forall i, j :: 0 <= i < j < |out| ==>
        out[i].obs.city in CityColumn(rows) && out[j].obs.city in CityColumn(rows) &&
        (FirstIndex(CityColumn(rows), out[i].obs.city) < FirstIndex(CityColumn(rows), out[j].obs.city)
         || (out[i].obs.city == out[j].obs.city && out[i].obs.timestamp <= out[j].obs.timestamp))
  {
    var cs := Cities(rows);
    var fs := Frames(rows, cs, window, ahead, sqrt);
    FramesTagged(rows, cs, window, ahead, sqrt);
    FramesSorted(rows, cs, window, ahead, sqrt);
    PrefixOrdered(fs, cs, |cs|);
    assert fs[..|cs|] == fs;
    var out := Flatten(fs);
    DistinctFirstAppearance(CityColumn(rows));
    assert cs == Distinct(CityColumn(rows));
    forall i, j | 0 <= i < j < |out|
      ensures out[i].obs.city in CityColumn(rows) && out[j].obs.city in CityColumn(rows) &&
        (FirstIndex(CityColumn(rows), out[i].obs.city) < FirstIndex(CityColumn(rows), out[j].obs.city)
         || (out[i].obs.city == out[j].obs.city && out[i].obs.timestamp <= out[j].obs.timestamp))
    {
      assert OrderedPair(cs, out[i].obs, out[j].obs);
      var p := FirstIndex(cs, out[i].obs.city);
      var q := FirstIndex(cs, out[j].obs.city);
      if p < q {
        assert FirstIndex(CityColumn(rows), cs[p]) < FirstIndex(CityColumn(rows), cs[q]);
      }
    }
  }

  /** The output rows of one city (`df[df['city'] == city]`), in output order. */
  function FilterCity(f: seq<StatRow>, c: string): (s: seq<StatRow>)
    ensures forall r :: r in s <==> r in f && r.obs.city == c
  {
    if f == [] then []
    else
      var n := |f| - 1;
      assert f == f[..n] + [f[n]];
      FilterCity(f[..n], c) + if f[n].obs.city == c then [f[n]] else []
  }

  lemma {:induction false} FilterConcat(a: seq<StatRow>, b: seq<StatRow>, c: string)
    ensures FilterCity(a + b, c) == FilterCity(a, c) + FilterCity(b, c)
  {
    if b != [] {
      var n := |b| - 1;
      ConcatInit(a, b);
      FilterConcat(a, b[..n], c);
    } else {
      assert a + b == a;
    }
  }

  lemma {:induction false} FilterOneCity(f: seq<StatRow>, c: string)
    requires forall i :: 0 <= i < |f| ==> f[i].obs.city == c
    ensures FilterCity(f, c) == f
  {
    if f != [] {
      var n := |f| - 1;
      FilterOneCity(f[..n], c);
      InitLast(f);
    }
  }

  lemma {:induction false} FilterOtherCity(f: seq<StatRow>, c: string)
    requires forall i :: 0 <= i < |f| ==> f[i].obs.city != c
    ensures FilterCity(f, c) == []
  {
    if f != [] {
      FilterOtherCity(f[..|f| - 1], c);
    }
  }

  /** Filtering the first `k` frames by city `c` gives `c`'s frame when `c` is among the first `k` cities. */
  lemma {:induction false} PrefixFilter(fs: seq<seq<StatRow>>, cs: seq<string>, k: nat, c: string)
    requires NoDuplicates(cs) && CityTagged(fs, cs) && k <= |fs|
    ensures c in cs[..k] ==> FilterCity(Flatten(fs[..k]), c) == fs[FirstIndex(cs, c)]
    ensures c !in cs[..k] ==> FilterCity(Flatten(fs[..k]), c) == []
  {
    if k > 0 {
      PrefixFilter(fs, cs, k - 1, c);
      FlattenStep(fs, k - 1);
      FilterConcat(Flatten(fs[..k - 1]), fs[k - 1], c);
      assert cs[..k] == cs[..k - 1] + [cs[k - 1]];
      RankOfDistinct(cs, k - 1);
      if cs[k - 1] == c {
        FilterOneCity(fs[k - 1], c);
      } else {
        FilterOtherCity(fs[k - 1], c);
      }
    }
  }

  lemma {:induction false} CityRowsIdempotent(rows: seq<Observation>, c: string)
    ensures CityRows(CityRows(rows, c), c) == CityRows(rows, c)
  {
    if rows != [] {
      var n := |rows| - 1;
      CityRowsIdempotent(rows[..n], c);
      var init := CityRows(rows[..n], c);
      if rows[n].city == c {
        assert (init + [rows[n]])[..|init|] == init;
      }
    }
  }

  /**
   * Rolling values never mix cities: the output rows of city `c` are exactly
   * the frame computed from a table holding only `c`'s rows.
   */
  lemma RollingIsPerCity(rows: seq<Observation>, c: string, window: nat, ahead: nat, sqrt: real -> real)
    requires 1 <= window && ahead < window && IsSqrt(sqrt)
    requires MovingStats(rows, window, ahead, sqrt).Ok?
    ensures FilterCity(MovingStats(rows, window, ahead, sqrt).value, c)
      == CityFrame(CityRows(rows, c), c, window, ahead, sqrt)
  {
    FilterOutput(rows, c, window, ahead, sqrt);
    CityRowsIdempotent(rows, c);
    if c in Cities(rows) {
      CityFrameOfSameRows(rows, CityRows(rows, c), c, window, ahead, sqrt);
    } else {
      CityRowsOfAbsent(rows, c);
      assert |CityFrame(CityRows(rows, c), c, window, ahead, sqrt)| == 0;
    }
  }

  lemma FilterOutput(rows: seq<Observation>, c: string, window: nat, ahead: nat, sqrt: real -> real)
    requires 1 <= window && ahead < window && IsSqrt(sqrt)
    requires MovingStats(rows, window, ahead, sqrt).Ok?
    ensures c in Cities(rows) ==>
      FilterCity(MovingStats(rows, window, ahead, sqrt).value, c) == CityFrame(rows, c, window, ahead, sqrt)
    ensures c !in Cities(rows) ==> FilterCity(MovingStats(rows, window, ahead, sqrt).value, c) == []
  {
    var cs := Cities(rows);
    var fs := Frames(rows, cs, window, ahead, sqrt);
    assert fs[..|cs|] == fs;
    assert cs[..|cs|] == cs;
    var out := Flatten(fs);
    assert MovingStats(rows, window, ahead, sqrt).value == out;
    if c in cs {
      var k := FirstIndex(cs, c);
      assert FilterCity(out, c) == fs[k] by {
        FramesTagged(rows, cs, window, ahead, sqrt);
        PrefixFilter(fs, cs, |cs|, c);
      }
    } else {
      assert FilterCity(out, c) == [] by {
        FramesTagged(rows, cs, window, ahead, sqrt);
        PrefixFilter(fs, cs, |cs|, c);
      }
    }
  }

  /** A city's frame depends on the table only through that city's rows. */
  lemma CityFrameOfSameRows(rows: seq<Observation>, rows': seq<Observation>, c: string, window: nat, ahead: nat, sqrt: real -> real)
    requires 1 <= window && ahead < window && IsSqrt(sqrt)
    requires CityRows(rows, c) == CityRows(rows', c)
    ensures CityFrame(rows, c, window, ahead, sqrt) == CityFrame(rows', c, window, ahead, sqrt)
  {
  }

  lemma {:induction false} CityRowsOfAbsent(rows: seq<Observation>, c: string)
    requires forall i :: 0 <= i < |rows| ==> rows[i].city != c
    ensures CityRows(rows, c) == []
  {
    if rows != [] {
      CityRowsOfAbsent(rows[..|rows| - 1], c);
    }
  }

  /** Each output row sits in the frame computed from its own city's rows. */
  lemma OutputRowInCityFrame(rows: seq<Observation>, window: nat, ahead: nat, sqrt: real -> real, i: nat)
    returns (k: nat)
    requires 1 <= window && ahead < window && IsSqrt(sqrt)
    requires MovingStats(rows, window, ahead, sqrt).Ok?
    requires i < |MovingStats(rows, window, ahead, sqrt).value|
    ensures var r := MovingStats(rows, window, ahead, sqrt).value[i];
      var f := CityFrame(CityRows(rows, r.obs.city), r.obs.city, window, ahead, sqrt);
      k < |f| && f[k] == r
  {
    var out := MovingStats(rows, window, ahead, sqrt).value;
    var c := out[i].obs.city;
    RollingIsPerCity(rows, c, window, ahead, sqrt);
    var f := CityFrame(CityRows(rows, c), c, window, ahead, sqrt);
    assert out[i] in f;
    k :| 0 <= k < |f| && f[k] == out[i];
  }

  /**
   * A row receives rolling values only when its city has at least `window`
   * rows; every row of a city with fewer rows gets nulls in both columns.
   */
  lemma ShortCityGetsNulls(rows: seq<Observation>, window: nat, ahead: nat, sqrt: real -> real, i: nat)
    requires 1 <= window && ahead < window && IsSqrt(sqrt)
    requires MovingStats(rows, window, ahead, sqrt).Ok?
    requires i < |MovingStats(rows, window, ahead, sqrt).value|
    requires |CityRows(rows, MovingStats(rows, window, ahead, sqrt).value[i].obs.city)| < window
    ensures MovingStats(rows, window, ahead, sqrt).value[i].rollingMean.None?
    ensures MovingStats(rows, window, ahead, sqrt).value[i].rollingStd.None?
  {
    var k := OutputRowInCityFrame(rows, window, ahead, sqrt, i);
    CityRowsIdempotent(rows, MovingStats(rows, window, ahead, sqrt).value[i].obs.city);
  }

  /** Where defined, every rolling standard deviation of the output is non-negative. */
  lemma RollingStdNonNegative(rows: seq<Observation>, window: nat, ahead: nat, sqrt: real -> real, i: nat)
    requires 1 <= window && ahead < window && IsSqrt(sqrt)
    requires MovingStats(rows, window, ahead, sqrt).Ok?
    requires i < |MovingStats(rows, window, ahead, sqrt).value|
    requires MovingStats(rows, window, ahead, sqrt).value[i].rollingStd.Some?
    ensures MovingStats(rows, window, ahead, sqrt).value[i].rollingStd.value >= 0.0
  {
    var k := OutputRowInCityFrame(rows, window, ahead, sqrt, i);
  }
}
