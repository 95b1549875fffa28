/**
 * The rows of the historical temperature table. A parsed CSV row carries the
 * city, the timestamp (as an ordered number), the temperature and the calendar
 * year and month derived from the timestamp; the upload step then tags every
 * row with its season.
 */
module Records {
  import opened Wrappers
  import opened Seasons

  /** A calendar month as pandas' `dt.month` yields it. */
  type Month = m: int | 1 <= m <= 12 witness 1

  /** A calendar year as pandas' `dt.year` yields it (timestamps start after year 0). */
  type Year = y: int | 1 <= y witness 1

  datatype RawRow = RawRow(city: string, timestamp: int, temperature: real, year: Year, month: Month)

  datatype Observation = Observation(
    city: string,
    timestamp: int,
    temperature: real,
    year: Year,
    month: Month,
    season: Season)

  /** The upload step's season column: the month looked up in the fixed month table. */
  function Tag(r: RawRow): (o: Observation)
    ensures SeasonTable(r.month) == Some(o.season)
    ensures o.city == r.city && o.timestamp == r.timestamp && o.temperature == r.temperature
    ensures o.year == r.year && o.month == r.month
  {
    Observation(r.city, r.timestamp, r.temperature, r.year, r.month, SeasonOf(r.month))
  }

  function TagAll(rows: seq<RawRow>): (obs: seq<Observation>)
    ensures |obs| == |rows|
    ensures forall i :: 0 <= i < |rows| ==> obs[i] == Tag(rows[i])
  {
    seq(|rows|, i requires 0 <= i < |rows| => Tag(rows[i]))
  }

  function Temperatures(rows: seq<Observation>): (ts: seq<real>)
    ensures |ts| == |rows|
    ensures forall i :: 0 <= i < |rows| ==> ts[i] == rows[i].temperature
  {
    seq(|rows|, i requires 0 <= i < |rows| => rows[i].temperature)
  }

  function CityColumn(rows: seq<Observation>): (cs: seq<string>)
    ensures |cs| == |rows|
    ensures forall i :: 0 <= i < |rows| ==> cs[i] == rows[i].city
  {
    seq(|rows|, i requires 0 <= i < |rows| => rows[i].city)
  }

  /** Index of the first occurrence of `c` in `cs`. */
  function FirstIndex(cs: seq<string>, c: string): (k: nat)
    requires c in cs
    ensures k < |cs| && cs[k] == c
    ensures forall j :: 0 <= j < k ==> cs[j] != c
  {
    if cs[0] == c then 0 else 1 + FirstIndex(cs[1..], c)
  }

  /** The distinct values of `cs`, each once, in the order they first appear (pandas' `unique`). */
  function Distinct(cs: seq<string>): (u: seq<string>)
    ensures forall c :: c in u <==> c in cs
    ensures forall i, j :: 0 <= i < j < |u| ==> u[i] != u[j]
  {
    if cs == [] then []
    else
      var prefix := Distinct(cs[..|cs| - 1]);
      if cs[|cs| - 1] in prefix then prefix else prefix + [cs[|cs| - 1]]
  }

  lemma {:induction false} FirstIndexOfPrefix(cs: seq<string>, k: nat, c: string)
    requires k <= |cs| && c in cs[..k]
    ensures FirstIndex(cs[..k], c) == FirstIndex(cs, c)
  {
    var f := FirstIndex(cs[..k], c);
    var g := FirstIndex(cs, c);
    assert cs[f] == c;
    assert cs[..k][g] == c by {
      assert g <= f;
    }
  }

  /** `Distinct` lists the values in the order of their first appearance. */
  lemma {:induction false} DistinctFirstAppearance(cs: seq<string>)
    ensures forall i, j :: 0 <= i < j < |Distinct(cs)| ==>
      FirstIndex(cs, Distinct(cs)[i]) < FirstIndex(cs, Distinct(cs)[j])
  {
    if cs != [] {
      var n := |cs| - 1;
      var init := cs[..n];
      var prefix := Distinct(init);
      DistinctFirstAppearance(init);
      assert init == cs[..n];
      forall c | c in prefix ensures FirstIndex(cs, c) == FirstIndex(init, c) && FirstIndex(cs, c) < n {
        FirstIndexOfPrefix(cs, n, c);
      }
      var u := Distinct(cs);
      if cs[n] !in prefix {
        assert FirstIndex(cs, cs[n]) == n by {
          assert cs[n] !in init;
        }
        assert u == prefix + [cs[n]];
      } else {
        assert u == prefix;
      }
      forall i, j | 0 <= i < j < |u| ensures FirstIndex(cs, u[i]) < FirstIndex(cs, u[j]) {
        assert u[i] == prefix[i] && u[i] in prefix;
        if j < |prefix| {
          assert u[j] == prefix[j] && u[j] in prefix;
        }
      }
    }
  }

  /** The cities of the table, each once, in first-appearance order (`df['city'].unique()`). */
  function Cities(rows: seq<Observation>): (cs: seq<string>)
    ensures forall c :: c in cs <==> exists i :: 0 <= i < |rows| && rows[i].city == c
    ensures forall i, j :: 0 <= i < j < |cs| ==> cs[i] != cs[j]
    ensures |rows| == 0 <==> |cs| == 0
  {
    var cs := Distinct(CityColumn(rows));
    assert forall i :: 0 <= i < |rows| ==> CityColumn(rows)[i] == rows[i].city;
    assert |rows| > 0 ==> rows[0].city in cs;
    cs
  }

  /** The rows of one city, in table order (`df[df['city'] == city]`). */
  function CityRows(rows: seq<Observation>, c: string): (s: seq<Observation>)
    ensures forall o :: o in s ==> o.city == c
    ensures forall o :: multiset(s)[o] == if o.city == c then multiset(rows)[o] else 0
  {
    if rows == [] then []
    else
      var n := |rows| - 1;
      assert rows == rows[..n] + [rows[n]];
      var init := CityRows(rows[..n], c);
      if rows[n].city == c then init + [rows[n]] else init
  }
}
