/** `month_users_df`: the filtered rows resampled by calendar month
    with month-end bins, `cnt` summed per month, each month labelled
    `%b-%y`. */
module MonthlyTotals {
  import opened Records
  import opened Sums

  datatype YearMonth = YearMonth(year: nat, month: MonthNumber)

  function MonthOf(d: Date): YearMonth {
    YearMonth(d.year, d.month)
  }

  /** The resample bin a row falls into. */
  function MonthKey(r: DailyRecord): YearMonth {
    MonthOf(r.dteday)
  }

  /** Months counted from January of year 0: the calendar order of months. */
  function MonthIndex(m: YearMonth): nat {
    m.year * 12 + (m.month - 1)
  }

  function MonthAt(k: nat): (m: YearMonth)
    ensures MonthIndex(m) == k
  {
    YearMonth(k / 12, k % 12 + 1)
  }

  lemma MonthIndexInjective(a: YearMonth, b: YearMonth)
    requires MonthIndex(a) == MonthIndex(b)
    ensures a == b
  {
  }

  /** The calendar month after `m`. */
  function NextMonth(m: YearMonth): (n: YearMonth)
    ensures MonthIndex(n) == MonthIndex(m) + 1
  {
    if m.month == 12 then YearMonth(m.year + 1, 1) else YearMonth(m.year, m.month + 1)
  }

  /** A later date never falls in an earlier month. */
  lemma MonthIndexMonotone(a: Date, b: Date)
    requires DateLe(a, b)
    ensures MonthIndex(MonthOf(a)) <= MonthIndex(MonthOf(b))
  {
    if a.year < b.year {
      assert (b.year - a.year) * 12 >= 12;
    }
  }

  // Labels: `%b-%y` with English month abbreviations.

  const MonthAbbreviations: seq<string> :=
    ["Jan", "Feb", "Mar", "Apr", "May", "Jun", "Jul", "Aug", "Sep", "Oct", "Nov", "Dec"]

  function Digit(n: nat): char
    requires n < 10
  {
    "0123456789"[n]
  }

  /** `%b-%y`: the month's abbreviation, a dash, the year's last two digits. */
  function MonthLabel(m: YearMonth): (text: string)
    ensures |text| == 6 && text[3] == '-'
    ensures text[..3] in MonthAbbreviations
    ensures '0' <= text[4] <= '9' && '0' <= text[5] <= '9'
  {
    var yy := m.year % 100;
    var text := MonthAbbreviations[m.month - 1] + "-" + [Digit(yy / 10), Digit(yy % 10)];
    assert text[..3] == MonthAbbreviations[m.month - 1];
    text
  }

  function DigitValue(c: char): Option<nat> {
    if '0' <= c <= '9' then Some(c as int - '0' as int) else None
  }

  function LookupAbbreviation(abbr: string, from: nat): Option<MonthNumber>
    decreases 12 - from
  {
    if from >= 12 then None
    else if MonthAbbreviations[from] == abbr then Some(from + 1)
    else LookupAbbreviation(abbr, from + 1)
  }

  /** Reads a `%b-%y` label back into its month and two-digit year. The
      dashboard never parses labels; this inverse states what a label
      determines (`LabelRoundTrip`). */
  function ParseLabel(text: string): (parsed: Option<(MonthNumber, nat)>)
    ensures parsed.Some? ==> parsed.value.1 < 100
  {
    if |text| != 6 || text[3] != '-' then None
    else
      match (LookupAbbreviation(text[..3], 0), DigitValue(text[4]), DigitValue(text[5]))
      case (Some(m), Some(tens), Some(units)) =>
        if tens < 10 && units < 10 then Some((m, 10 * tens + units)) else None
      case _ => None
  }

  lemma LookupFinds(m: MonthNumber)
    ensures LookupAbbreviation(MonthAbbreviations[m - 1], 0) == Some(m)
  {
    if m == 1 {
      assert LookupAbbreviation("Jan", 0) == Some(1);
    } else if m == 2 {
      assert LookupAbbreviation("Feb", 0) == Some(2);
    } else if m == 3 {
      assert LookupAbbreviation("Mar", 0) == Some(3);
    } else if m == 4 {
      assert LookupAbbreviation("Apr", 0) == Some(4);
    } else if m == 5 {
      assert LookupAbbreviation("May", 0) == Some(5);
    } else if m == 6 {
      assert LookupAbbreviation("Jun", 0) == Some(6);
    } else if m == 7 {
      assert LookupAbbreviation("Jul", 0) == Some(7);
    } else if m == 8 {
      assert LookupAbbreviation("Aug", 0) == Some(8);
    } else if m == 9 {
      assert LookupAbbreviation("Sep", 0) == Some(9);
    } else if m == 10 {
      assert LookupAbbreviation("Oct", 0) == Some(10);
    } else if m == 11 {
      assert LookupAbbreviation("Nov", 0) == Some(11);
    } else {
      assert LookupAbbreviation("Dec", 0) == Some(12);
    }
  }

  lemma DigitRoundTrip(n: nat)
    requires n < 10
    ensures DigitValue(Digit(n)) == Some(n)
  {
  }

  /** A label gives back the month and the year modulo 100 it was made from. */
  lemma LabelRoundTrip(m: YearMonth)
    ensures ParseLabel(MonthLabel(m)) == Some((m.month, m.year % 100))
  {
    var text, yy := MonthLabel(m), m.year % 100;
    assert text[..3] == MonthAbbreviations[m.month - 1];
    LookupFinds(m.month);
    DigitRoundTrip(yy / 10);
    DigitRoundTrip(yy % 10);
    assert text[4] == Digit(yy / 10) && text[5] == Digit(yy % 10);
  }

  /** Two months share a label exactly when they share the month and the
      year modulo 100. */
  lemma LabelsCollideExactly(a: YearMonth, b: YearMonth)
    ensures MonthLabel(a) == MonthLabel(b) <==> a.month == b.month && a.year % 100 == b.year % 100
  {
    if MonthLabel(a) == MonthLabel(b) {
      LabelRoundTrip(a);
      LabelRoundTrip(b);
    }
  }

  // Bins: every month from the first row's month to the last row's month.

  /** The months with indexes `lo` to `hi`, in calendar order. */
  function MonthSpan(lo: nat, hi: nat): (months: seq<YearMonth>)
    ensures |months| == if lo <= hi then hi - lo + 1 else 0
    ensures forall i :: 0 <= i < |months| ==> MonthIndex(months[i]) == lo + i
    decreases hi - lo
  {
    if lo > hi then [] else [MonthAt(lo)] + MonthSpan(lo + 1, hi)
  }

  /** The bins the monthly resample emits: one per month from the month of
      the earliest date to the month of the latest, empty months included. */
  function MonthsCovered(rows: seq<DailyRecord>): seq<YearMonth> {
    if rows == [] then []
    else MonthSpan(MonthIndex(MonthOf(MinDate(rows))), MonthIndex(MonthOf(MaxDate(rows))))
  }

  /** The bins start at the earliest row's month, end at the latest row's
      month, follow each other month by month, and hold every row. */
  lemma MonthsCoveredShape(rows: seq<DailyRecord>)
    requires rows != []
    ensures var months := MonthsCovered(rows);
      && months != []
      && months[0] == MonthOf(MinDate(rows))
      && months[|months| - 1] == MonthOf(MaxDate(rows))
      && (forall i :: 0 <= i < |months| - 1 ==> months[i + 1] == NextMonth(months[i]))
      && (forall m :: m in months <==>
            MonthIndex(MonthOf(MinDate(rows))) <= MonthIndex(m) <= MonthIndex(MonthOf(MaxDate(rows))))
      && (forall k :: 0 <= k < |rows| ==> MonthKey(rows[k]) in months)
      && Distinct(months)
  {
    var lo, hi := MonthIndex(MonthOf(MinDate(rows))), MonthIndex(MonthOf(MaxDate(rows)));
    var months := MonthsCovered(rows);
    MonthIndexMonotone(MinDate(rows), MaxDate(rows));
    assert lo <= hi;
    MonthIndexInjective(months[0], MonthOf(MinDate(rows)));
    MonthIndexInjective(months[|months| - 1], MonthOf(MaxDate(rows)));
    forall i | 0 <= i < |months| - 1 ensures months[i + 1] == NextMonth(months[i]) {
      MonthIndexInjective(months[i + 1], NextMonth(months[i]));
    }
    forall m ensures m in months <==> lo <= MonthIndex(m) <= hi {
      if lo <= MonthIndex(m) <= hi {
        var i := MonthIndex(m) - lo;
        MonthIndexInjective(months[i], m);
      }
    }
    forall k | 0 <= k < |rows| ensures MonthKey(rows[k]) in months {
      MonthIndexMonotone(MinDate(rows), rows[k].dteday);
      MonthIndexMonotone(rows[k].dteday, MaxDate(rows));
    }
  }

  // The table `month_users_df` returns.

  /** One output row: `yearmonth` label and `total_users`. */
  datatype MonthRow = MonthRow(yearmonth: string, totalUsers: nat)

  function MonthRows(rows: seq<DailyRecord>, months: seq<YearMonth>): (out: seq<MonthRow>)
    ensures |out| == |months|
  {
    if months == [] then []
    else [MonthRow(MonthLabel(months[0]), KeyedTotal(rows, MonthKey, months[0], Cnt))]
         + MonthRows(rows, months[1..])
  }

  /** `month_users_df(rows)`. */
  function MonthUsers(rows: seq<DailyRecord>): (out: seq<MonthRow>)
    ensures out == [] <==> rows == []
  {
    MonthRows(rows, MonthsCovered(rows))
  }

  /** The sum of the `total_users` column. */
  function TotalUsers(out: seq<MonthRow>): nat {
    if out == [] then 0 else out[0].totalUsers + TotalUsers(out[1..])
  }

  lemma {:induction false} MonthRowsAt(rows: seq<DailyRecord>, months: seq<YearMonth>, i: nat)
    requires i < |months|
    ensures MonthRows(rows, months)[i]
         == MonthRow(MonthLabel(months[i]), KeyedTotal(rows, MonthKey, months[i], Cnt))
  {
    if i > 0 {
      MonthRowsAt(rows, months[1..], i - 1);
    }
  }

  /** Row `i` of the output is labelled with the `i`-th bin and holds the
      sum of `cnt` over the rows dated in that month. */
  lemma MonthUsersRows(rows: seq<DailyRecord>)
    ensures |MonthUsers(rows)| == |MonthsCovered(rows)|
    ensures forall i :: 0 <= i < |MonthUsers(rows)| ==>
      MonthUsers(rows)[i] == MonthRow(MonthLabel(MonthsCovered(rows)[i]),
                                      ColumnTotal(Group(rows, MonthKey, MonthsCovered(rows)[i]), Cnt))
  {
    var months := MonthsCovered(rows);
    forall i | 0 <= i < |months|
      ensures MonthUsers(rows)[i] == MonthRow(MonthLabel(months[i]), ColumnTotal(Group(rows, MonthKey, months[i]), Cnt))
    {
      MonthRowsAt(rows, months, i);
      KeyedTotalIsGroupTotal(rows, MonthKey, months[i], Cnt);
    }
  }

  lemma {:induction false} MonthRowsTotal(rows: seq<DailyRecord>, months: seq<YearMonth>)
    ensures TotalUsers(MonthRows(rows, months)) == CategoriesTotal(rows, MonthKey, months, Cnt)
  {
    if months != [] {
      MonthRowsTotal(rows, months[1..]);
      var tail := MonthRows(rows, months[1..]);
      var head := MonthRow(MonthLabel(months[0]), KeyedTotal(rows, MonthKey, months[0], Cnt));
      assert ([head] + tail)[1..] == tail;
    }
  }

  /** The monthly chart adds up to the `all_rides` metric: every row lands
      in exactly one bin. */
  lemma MonthUsersConservesTotal(rows: seq<DailyRecord>)
    ensures TotalUsers(MonthUsers(rows)) == ColumnTotal(rows, Cnt)
  {
    var months := MonthsCovered(rows);
    MonthRowsTotal(rows, months);
    if rows != [] {
      MonthsCoveredShape(rows);
      forall r | r in rows ensures MonthKey(r) in months {
        var k :| 0 <= k < |rows| && rows[k] == r;
      }
      PartitionTotal(rows, MonthKey, months, Cnt);
    }
  }
}
