/** One run of the dashboard script for a selected date range: filter the
    table, then compute the monthly chart, the two breakdown charts and the
    three headline metrics from the filtered rows. */
module Dashboard {
  import opened Records
  import opened Sums
  import opened DateFilter
  import opened MonthlyTotals
  import opened Breakdowns
  import opened Categories

  /** The three metrics: `all_rides`, `casual_rides`, `registered_rides`. */
  datatype Headline = Headline(allRides: nat, casualRides: nat, registeredRides: nat)

  function HeadlineTotals(rows: seq<DailyRecord>): Headline {
    Headline(ColumnTotal(rows, Cnt), ColumnTotal(rows, Casual), ColumnTotal(rows, Registered))
  }

  /** On a dataset where every day's `cnt` is its casual plus registered
      count, all rides are casual rides plus registered rides. */
  lemma HeadlineConsistent(rows: seq<DailyRecord>)
    requires forall r | r in rows :: Consistent(r)
    ensures HeadlineTotals(rows).allRides == HeadlineTotals(rows).casualRides + HeadlineTotals(rows).registeredRides
  {
    ConsistentTotals(rows);
  }

  /** Everything the page shows, as data. */
  datatype View = View(
    monthly: seq<MonthRow>,
    weekdays: seq<CategoryRow<Weekday>>,
    seasons: seq<CategoryRow<Season>>,
    headline: Headline)

  /** `main_df` for the range, then `month_df`, `weekday_df`, `season_df`
      and the three metrics. The charts agree with the metrics. */
  function Refresh(dataset: seq<DailyRecord>, start: Date, end: Date): (v: View)
    ensures TotalUsers(v.monthly) == v.headline.allRides
    ensures CountTotal(v.weekdays) == v.headline.casualRides + v.headline.registeredRides
    ensures CountTotal(v.seasons) == v.headline.casualRides + v.headline.registeredRides
  {
    var main := FilterByDate(dataset, start, end);
    MonthUsersConservesTotal(main);
    WeekdayUsersConservesTotal(main);
    SeasonUsersConservesTotal(main);
    View(MonthUsers(main), WeekdayUsers(main), SeasonUsers(main), HeadlineTotals(main))
  }

  /** The page as first shown, with the range from the earliest to the latest date,
      reports on the whole dataset. */
  lemma DefaultRefreshShowsAll(dataset: seq<DailyRecord>)
    requires dataset != []
    ensures Refresh(dataset, DefaultSelection(dataset).0, DefaultSelection(dataset).1)
         == View(MonthUsers(dataset), WeekdayUsers(dataset), SeasonUsers(dataset), HeadlineTotals(dataset))
  {
    FilterDefaultKeepsAll(dataset);
  }

  /** A three-day table over January and February 2021. */
  function ExampleRows(): seq<DailyRecord> {
    [DailyRecord(Date(2021, 1, 1), Monday, Winter, 1, 2, 3),
     DailyRecord(Date(2021, 1, 2), Tuesday, Winter, 0, 3, 3),
     DailyRecord(Date(2021, 2, 1), Monday, Winter, 5, 1, 6)]
  }

  lemma ExampleLabels()
    ensures MonthLabel(YearMonth(2021, 1)) == "Jan-21"
    ensures MonthLabel(YearMonth(2021, 2)) == "Feb-21"
  {
    assert Digit(2) == '2' && Digit(1) == '1';
  }

  lemma ExampleBins()
    ensures MonthsCovered(ExampleRows()) == [YearMonth(2021, 1), YearMonth(2021, 2)]
  {
    var rows := ExampleRows();
    assert MinDate(rows[2..]) == Date(2021, 2, 1);
    assert MinDate(rows[1..]) == Date(2021, 1, 2);
    assert MinDate(rows) == Date(2021, 1, 1);
    assert MaxDate(rows[1..]) == Date(2021, 2, 1);
    assert MaxDate(rows) == Date(2021, 2, 1);
    var lo := MonthIndex(YearMonth(2021, 1));
    assert MonthAt(lo) == YearMonth(2021, 1);
    assert MonthAt(lo + 1) == YearMonth(2021, 2);
    assert MonthSpan(lo + 2, lo + 1) == [];
  }

  lemma ExampleSums()
    ensures KeyedTotal(ExampleRows(), MonthKey, YearMonth(2021, 1), Cnt) == 6
    ensures KeyedTotal(ExampleRows(), MonthKey, YearMonth(2021, 2), Cnt) == 6
    ensures HeadlineTotals(ExampleRows()) == Headline(12, 6, 6)
  {
    var rows := ExampleRows();
    var r0, r1, r2 := rows[0], rows[1], rows[2];
    assert rows[1..] == [r1, r2];
    assert rows[1..][1..] == [r2];
    assert rows[1..][1..][1..] == [];
    assert MonthKey(r0) == MonthKey(r1) == YearMonth(2021, 1);
    assert MonthKey(r2) == YearMonth(2021, 2);
  }

  lemma ExampleMonthRows()
    ensures MonthRows(ExampleRows(), [YearMonth(2021, 1), YearMonth(2021, 2)])
         == [MonthRow("Jan-21", 6), MonthRow("Feb-21", 6)]
  {
    var rows := ExampleRows();
    var jan, feb := YearMonth(2021, 1), YearMonth(2021, 2);
    ExampleLabels();
    ExampleSums();
    assert [jan, feb][1..] == [feb] && [feb][1..] == [];
    assert MonthRows(rows, [feb]) == [MonthRow("Feb-21", 6)] + MonthRows(rows, []);
  }

  /** The monthly chart is `Jan-21: 6`, `Feb-21: 6`, and the metrics are 12
      rides, 6 casual, 6 registered. */
  lemma ThreeDayExample()
    ensures MonthUsers(ExampleRows()) == [MonthRow("Jan-21", 6), MonthRow("Feb-21", 6)]
    ensures HeadlineTotals(ExampleRows()) == Headline(12, 6, 6)
  {
    ExampleBins();
    ExampleMonthRows();
    ExampleSums();
  }
}
