/**
 * The month -> season dictionary. The same literal table appears in the upload
 * code of the dashboard (app.py) and in both monitoring modules.
 */
module Seasons {
  import opened Wrappers

  datatype Season = Winter | Spring | Summer | Autumn {
    /** The tag stored in the 'season' column. */
    function Name(): string {
      match this
      case Winter => "winter"
      case Spring => "spring"
      case Summer => "summer"
      case Autumn => "autumn"
    }
  }

  /** Dictionary lookup: a month outside the table has no entry. */
  function SeasonTable(month: int): Option<Season> {
    if month == 12 || month == 1 || month == 2 then Some(Winter)
    else if 3 <= month <= 5 then Some(Spring)
    else if 6 <= month <= 8 then Some(Summer)
    else if 9 <= month <= 11 then Some(Autumn)
    else None
  }

  /** The months the table sends to season `s`. */
  function MonthsOf(s: Season): (ms: set<int>)
    ensures forall m :: m in ms <==> 1 <= m <= 12 && SeasonTable(m) == Some(s)
    ensures |ms| == 3
  {
    var ms := set m | 1 <= m <= 12 && SeasonTable(m) == Some(s);
    match s
    case Winter => assert ms == {12, 1, 2}; ms
    case Spring => assert ms == {3, 4, 5}; ms
    case Summer => assert ms == {6, 7, 8}; ms
    case Autumn => assert ms == {9, 10, 11}; ms
  }

  /**
   * The monitoring modules' `month_to_season.get(current_month, 'winter')`:
   * the table where it has an entry, 'winter' everywhere else.
   */
  function SeasonOf(month: int): (s: Season)
    ensures 1 <= month <= 12 ==> SeasonTable(month) == Some(s)
    ensures !(1 <= month <= 12) ==> s == Winter
  {
    SeasonTable(month).GetOr(Winter)
  }

  /**
   * The table covers exactly the twelve months, sends each to exactly one of
   * the four seasons, and gives every season three months.
   */
  lemma {:induction false} TablePartitionsYear()
    ensures forall m :: SeasonTable(m).Some? <==> 1 <= m <= 12
    ensures forall m :: 1 <= m <= 12 ==> m in MonthsOf(SeasonOf(m))
    ensures forall s: Season, t: Season :: s != t ==> MonthsOf(s) !! MonthsOf(t)
    ensures forall s: Season :: |MonthsOf(s)| == 3
  {
    forall s: Season, t: Season | s != t ensures MonthsOf(s) !! MonthsOf(t) {
      forall m | m in MonthsOf(s) ensures m !in MonthsOf(t) {
        assert SeasonTable(m) == Some(s);
      }
    }
  }
}
