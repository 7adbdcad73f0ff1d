/** The sidebar's date filter: `main_df` keeps the rows whose `dteday` lies
    between the two selected dates, both ends included. */
module DateFilter {
  import opened Records

  predicate InRange(d: Date, start: Date, end: Date) {
    DateLe(start, d) && DateLe(d, end)
  }

  /** The rows dated no earlier than `start` and no later than `end`, in
      table order. */
  function FilterByDate(rows: seq<DailyRecord>, start: Date, end: Date): (kept: seq<DailyRecord>)
    ensures |kept| <= |rows|
    ensures forall k :: 0 <= k < |kept| ==> kept[k] in rows && InRange(kept[k].dteday, start, end)
  {
    if rows == [] then []
    else
      var rest := FilterByDate(rows[1..], start, end);
      if InRange(rows[0].dteday, start, end) then [rows[0]] + rest else rest
  }

  /** Every in-range row is kept as often as it occurs, every other row is
      dropped. */
  lemma {:induction false} FilterMultiplicity(rows: seq<DailyRecord>, start: Date, end: Date, x: DailyRecord)
    ensures multiset(FilterByDate(rows, start, end))[x]
         == if InRange(x.dteday, start, end) then multiset(rows)[x] else 0
  {
    if rows != [] {
      FilterMultiplicity(rows[1..], start, end, x);
      assert rows == [rows[0]] + rows[1..];
    }
  }

  /** The kept rows keep their relative order. */
  lemma {:induction false} FilterIsSubsequence(rows: seq<DailyRecord>, start: Date, end: Date)
    ensures IsSubsequence(FilterByDate(rows, start, end), rows)
  {
    if rows != [] {
      FilterIsSubsequence(rows[1..], start, end);
      var rest := FilterByDate(rows[1..], start, end);
      assert ([rows[0]] + rest)[1..] == rest;
    }
  }

  /** Filtering a concatenation filters each part: the filter looks at each
      row on its own and keeps the order. */
  lemma {:induction false} FilterAppend(a: seq<DailyRecord>, b: seq<DailyRecord>, start: Date, end: Date)
    ensures FilterByDate(a + b, start, end) == FilterByDate(a, start, end) + FilterByDate(b, start, end)
  {
    if a == [] {
      assert a + b == b;
    } else {
      assert (a + b)[1..] == a[1..] + b;
      FilterAppend(a[1..], b, start, end);
    }
  }

  /** A range that holds every row keeps the table unchanged. */
  lemma {:induction false} FilterKeepsAll(rows: seq<DailyRecord>, start: Date, end: Date)
    requires forall k :: 0 <= k < |rows| ==> InRange(rows[k].dteday, start, end)
    ensures FilterByDate(rows, start, end) == rows
  {
    if rows != [] {
      FilterKeepsAll(rows[1..], start, end);
    }
  }

  /** Filtering twice with the same range is filtering once. */
  lemma FilterIdempotent(rows: seq<DailyRecord>, start: Date, end: Date)
    ensures FilterByDate(FilterByDate(rows, start, end), start, end) == FilterByDate(rows, start, end)
  {
    FilterKeepsAll(FilterByDate(rows, start, end), start, end);
  }

  /** The date input's initial value: the earliest and the latest date. */
  function DefaultSelection(rows: seq<DailyRecord>): (sel: (Date, Date))
    requires rows != []
    ensures DateLe(sel.0, sel.1)
    ensures forall k :: 0 <= k < |rows| ==> InRange(rows[k].dteday, sel.0, sel.1)
  {
    (MinDate(rows), MaxDate(rows))
  }

  /** With the default selection the dashboard shows the whole table. */
  lemma FilterDefaultKeepsAll(rows: seq<DailyRecord>)
    requires rows != []
    ensures FilterByDate(rows, DefaultSelection(rows).0, DefaultSelection(rows).1) == rows
  {
    var sel := DefaultSelection(rows);
    FilterKeepsAll(rows, sel.0, sel.1);
  }
}
