/** `weekday_users_df` and `season_users_df`: the breakdown pipeline
    applied to the `weekday` and `season` columns with their canonical
    category lists. */
module Categories {
  import opened Records
  import opened Sums
  import opened Breakdowns

  function WeekdayOf(r: DailyRecord): Weekday {
    r.weekday
  }

  function SeasonOf(r: DailyRecord): Season {
    r.season
  }

  /** The weekday `categories` list, Monday first. */
  const WeekdayOrder: seq<Weekday> := [Monday, Tuesday, Wednesday, Thursday, Friday, Saturday, Sunday]

  /** The season `categories` list. */
  const SeasonOrder: seq<Season> := [Spring, Summer, Fall, Winter]

  /** The weekday's place in the week, Monday being 0. */
  function WeekdayPosition(d: Weekday): nat {
    match d
    case Monday => 0
    case Tuesday => 1
    case Wednesday => 2
    case Thursday => 3
    case Friday => 4
    case Saturday => 5
    case Sunday => 6
  }

  /** The season's place in the list, Spring being 0. */
  function SeasonPosition(s: Season): nat {
    match s
    case Spring => 0
    case Summer => 1
    case Fall => 2
    case Winter => 3
  }

  function WeekdayName(d: Weekday): string {
    match d
    case Monday => "Monday"
    case Tuesday => "Tuesday"
    case Wednesday => "Wednesday"
    case Thursday => "Thursday"
    case Friday => "Friday"
    case Saturday => "Saturday"
    case Sunday => "Sunday"
  }

  function SeasonName(s: Season): string {
    match s
    case Spring => "Spring"
    case Summer => "Summer"
    case Fall => "Fall"
    case Winter => "Winter"
  }

  /** `pd.Categorical` on one weekday cell: a listed name becomes its
      category, any other value becomes missing. */
  function ParseWeekday(name: string): (d: Option<Weekday>)
    ensures d.Some? ==> WeekdayName(d.value) == name
  {
    if name == "Monday" then Some(Monday)
    else if name == "Tuesday" then Some(Tuesday)
    else if name == "Wednesday" then Some(Wednesday)
    else if name == "Thursday" then Some(Thursday)
    else if name == "Friday" then Some(Friday)
    else if name == "Saturday" then Some(Saturday)
    else if name == "Sunday" then Some(Sunday)
    else None
  }

  /** `pd.Categorical` on one season cell. */
  function ParseSeason(name: string): (s: Option<Season>)
    ensures s.Some? ==> SeasonName(s.value) == name
  {
    if name == "Spring" then Some(Spring)
    else if name == "Summer" then Some(Summer)
    else if name == "Fall" then Some(Fall)
    else if name == "Winter" then Some(Winter)
    else None
  }

  lemma WeekdayNameRoundTrip(d: Weekday)
    ensures ParseWeekday(WeekdayName(d)) == Some(d)
  {
  }

  lemma SeasonNameRoundTrip(s: Season)
    ensures ParseSeason(SeasonName(s)) == Some(s)
  {
  }

  /** Every weekday is listed once, at its place in the week. */
  lemma WeekdayOrderCanonical()
    ensures Distinct(WeekdayOrder)
    ensures forall d: Weekday :: d in WeekdayOrder && Rank(WeekdayOrder, d) == WeekdayPosition(d)
  {
    forall d: Weekday ensures d in WeekdayOrder && Rank(WeekdayOrder, d) == WeekdayPosition(d) {
      assert WeekdayOrder[WeekdayPosition(d)] == d;
    }
  }

  /** Every season is listed once, at its place in the list. */
  lemma SeasonOrderCanonical()
    ensures Distinct(SeasonOrder)
    ensures forall s: Season :: s in SeasonOrder && Rank(SeasonOrder, s) == SeasonPosition(s)
  {
    forall s: Season ensures s in SeasonOrder && Rank(SeasonOrder, s) == SeasonPosition(s) {
      assert SeasonOrder[SeasonPosition(s)] == s;
    }
  }

  /** `weekday_users_df(rows)`. */
  function WeekdayUsers(rows: seq<DailyRecord>): seq<CategoryRow<Weekday>> {
    Breakdown(rows, WeekdayOf, WeekdayOrder)
  }

  /** `season_users_df(rows)`. */
  function SeasonUsers(rows: seq<DailyRecord>): seq<CategoryRow<Season>> {
    Breakdown(rows, SeasonOf, SeasonOrder)
  }

  /** Two rows per weekday that occurs (casual and registered), each the
      sum of its column over that weekday's rows, no row for a weekday that
      does not occur, Monday to Sunday whatever the input's order. */
  lemma WeekdayUsersSpec(rows: seq<DailyRecord>)
    ensures IsBreakdownOf(WeekdayUsers(rows), rows, WeekdayOf, WeekdayOrder)
    ensures forall i, j :: 0 <= i < j < |WeekdayUsers(rows)| ==>
      WeekdayPosition(WeekdayUsers(rows)[i].category) <= WeekdayPosition(WeekdayUsers(rows)[j].category)
  {
    WeekdayOrderCanonical();
    BreakdownSpec(rows, WeekdayOf, WeekdayOrder);
  }

  /** The same for seasons, Spring, Summer, Fall, Winter. */
  lemma SeasonUsersSpec(rows: seq<DailyRecord>)
    ensures IsBreakdownOf(SeasonUsers(rows), rows, SeasonOf, SeasonOrder)
    ensures forall i, j :: 0 <= i < j < |SeasonUsers(rows)| ==>
      SeasonPosition(SeasonUsers(rows)[i].category) <= SeasonPosition(SeasonUsers(rows)[j].category)
  {
    SeasonOrderCanonical();
    BreakdownSpec(rows, SeasonOf, SeasonOrder);
  }

  /** The weekday chart adds up to casual plus registered rentals. */
  lemma WeekdayUsersConservesTotal(rows: seq<DailyRecord>)
    ensures CountTotal(WeekdayUsers(rows)) == ColumnTotal(rows, Casual) + ColumnTotal(rows, Registered)
  {
    WeekdayOrderCanonical();
    BreakdownConservesTotal(rows, WeekdayOf, WeekdayOrder);
  }

  /** The season chart adds up to casual plus registered rentals. */
  lemma SeasonUsersConservesTotal(rows: seq<DailyRecord>)
    ensures CountTotal(SeasonUsers(rows)) == ColumnTotal(rows, Casual) + ColumnTotal(rows, Registered)
  {
    SeasonOrderCanonical();
    BreakdownConservesTotal(rows, SeasonOf, SeasonOrder);
  }
}
