/** The daily bike-rental rows the dashboard works on: one row per calendar
    day, already parsed from the CSV file. */
module Records {

  datatype Option<T> = None | Some(value: T)

  type MonthNumber = m: int | 1 <= m <= 12 witness 1
  type DayNumber = d: int | 1 <= d <= 31 witness 1

  /** A parsed `dteday` value (a timestamp at midnight). */
  datatype Date = Date(year: nat, month: MonthNumber, day: DayNumber)

  /** The order pandas uses when it compares two midnight timestamps:
      year first, then month, then day. */
  predicate DateLe(a: Date, b: Date) {
    || a.year < b.year
    || (a.year == b.year && a.month < b.month)
    || (a.year == b.year && a.month == b.month && a.day <= b.day)
  }

  datatype Weekday = Monday | Tuesday | Wednesday | Thursday | Friday | Saturday | Sunday

  datatype Season = Spring | Summer | Fall | Winter

  /** One row of the daily table: `dteday`, `weekday`, `season`, `casual`,
      `registered` and `cnt`. */
  datatype DailyRecord = DailyRecord(
    dteday: Date,
    weekday: Weekday,
    season: Season,
    casual: nat,
    registered: nat,
    cnt: nat)

  /** The three count columns that the dashboard sums. */
  datatype Column = Casual | Registered | Cnt

  function Value(r: DailyRecord, col: Column): nat {
    match col
    case Casual => r.casual
    case Registered => r.registered
    case Cnt => r.cnt
  }

  /** A property of the dataset, which the code never checks: the day's
      total is its casual plus its registered rentals. */
  predicate Consistent(r: DailyRecord) {
    r.casual + r.registered == r.cnt
  }

  /** `a` is `b` with some rows dropped and the others in their order. */
  predicate IsSubsequence(a: seq<DailyRecord>, b: seq<DailyRecord>)
    decreases |b|
  {
    if b == [] then a == []
    else (a != [] && a[0] == b[0] && IsSubsequence(a[1..], b[1..])) || IsSubsequence(a, b[1..])
  }

  /** The earliest date of a non-empty table, `min_date`. */
  function MinDate(rows: seq<DailyRecord>): (d: Date)
    requires rows != []
    ensures exists k :: 0 <= k < |rows| && rows[k].dteday == d
    ensures forall k :: 0 <= k < |rows| ==> DateLe(d, rows[k].dteday)
  {
    if |rows| == 1 then rows[0].dteday
    else
      var m := MinDate(rows[1..]);
      if DateLe(rows[0].dteday, m) then rows[0].dteday else m
  }

  /** The latest date of a non-empty table, `max_date`. */
  function MaxDate(rows: seq<DailyRecord>): (d: Date)
    requires rows != []
    ensures exists k :: 0 <= k < |rows| && rows[k].dteday == d
    ensures forall k :: 0 <= k < |rows| ==> DateLe(rows[k].dteday, d)
  {
    if |rows| == 1 then rows[0].dteday
    else
      var m := MaxDate(rows[1..]);
      if DateLe(m, rows[0].dteday) then rows[0].dteday else m
  }
}
