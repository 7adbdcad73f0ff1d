/** The long-form breakdown shared by `weekday_users_df` and
    `season_users_df`: group the rows by a category, sum `casual` and
    `registered` per group, melt the two sums into one `count_users` column
    tagged by `User Status`, and sort the rows by the category's canonical
    position. */
module Breakdowns {
  import opened Records
  import opened Sums

  /** The `User Status` column the melt adds. */
  datatype UserStatus = CasualUsers | RegisteredUsers

  function StatusColumn(s: UserStatus): Column {
    match s
    case CasualUsers => Casual
    case RegisteredUsers => Registered
  }

  /** One row of the grouped table: a category and its three sums. */
  datatype GroupRow<C> = GroupRow(category: C, casualUsers: nat, registeredUsers: nat, totalUsers: nat)

  /** One row of the long-form table: the category, `User Status` and
      `count_users`. */
  datatype CategoryRow<C> = CategoryRow(category: C, status: UserStatus, countUsers: nat)

  /** Grouping by the category and summing `casual`, `registered` and
      `cnt`: one row per category that occurs in `rows`. The groups come out in
      the order of `order`. */
  function GroupBy<C(==)>(rows: seq<DailyRecord>, key: DailyRecord -> C, order: seq<C>): (groups: seq<GroupRow<C>>)
    ensures |groups| <= |order|
    ensures forall g | g in groups ::
      && g.category in order
      && Present(rows, key, g.category)
      && g.casualUsers == KeyedTotal(rows, key, g.category, Casual)
      && g.registeredUsers == KeyedTotal(rows, key, g.category, Registered)
      && g.totalUsers == KeyedTotal(rows, key, g.category, Cnt)
  {
    if order == [] then []
    else
      var rest := GroupBy(rows, key, order[1..]);
      var c := order[0];
      if Present(rows, key, c) then
        [GroupRow(c, KeyedTotal(rows, key, c, Casual), KeyedTotal(rows, key, c, Registered), KeyedTotal(rows, key, c, Cnt))] + rest
      else rest
  }

  function StatusValue<C>(g: GroupRow<C>, s: UserStatus): nat {
    match s
    case CasualUsers => g.casualUsers
    case RegisteredUsers => g.registeredUsers
  }

  /** The rows the melt makes from one value column. */
  function MeltColumn<C>(groups: seq<GroupRow<C>>, s: UserStatus): (out: seq<CategoryRow<C>>)
    ensures |out| == |groups|
  {
    if groups == [] then []
    else [CategoryRow(groups[0].category, s, StatusValue(groups[0], s))] + MeltColumn(groups[1..], s)
  }

  /** The melt into long form: all the casual rows, then all the
      registered rows; the summed `cnt` is dropped. */
  function Melt<C>(groups: seq<GroupRow<C>>): seq<CategoryRow<C>> {
    MeltColumn(groups, CasualUsers) + MeltColumn(groups, RegisteredUsers)
  }

  /** The position of `c` in the category list; `|order|` when it is not
      listed. */
  function Rank<C(==)>(order: seq<C>, c: C): (k: nat)
    ensures k <= |order|
    ensures c in order ==> k < |order| && order[k] == c
    ensures c !in order ==> k == |order|
  {
    if order == [] then 0
    else if order[0] == c then 0
    else 1 + Rank(order[1..], c)
  }

  predicate SortedByRank<C(==)>(out: seq<CategoryRow<C>>, order: seq<C>) {
    forall i, j :: 0 <= i < j < |out| ==> Rank(order, out[i].category) <= Rank(order, out[j].category)
  }

  function InsertByRank<C(==)>(x: CategoryRow<C>, sorted: seq<CategoryRow<C>>, order: seq<C>): (out: seq<CategoryRow<C>>)
    requires SortedByRank(sorted, order)
    ensures |out| == |sorted| + 1
    ensures SortedByRank(out, order)
    ensures multiset(out) == multiset(sorted) + multiset{x}
  {
    if sorted == [] || Rank(order, x.category) <= Rank(order, sorted[0].category) then [x] + sorted
    else
      var rest := InsertByRank(x, sorted[1..], order);
      InsertStep(x, sorted, rest, order);
      [sorted[0]] + rest
  }

  lemma InsertStep<C>(x: CategoryRow<C>, sorted: seq<CategoryRow<C>>, rest: seq<CategoryRow<C>>, order: seq<C>)
    requires sorted != [] && SortedByRank(sorted, order)
    requires Rank(order, sorted[0].category) < Rank(order, x.category)
    requires SortedByRank(rest, order)
    requires multiset(rest) == multiset(sorted[1..]) + multiset{x}
    ensures SortedByRank([sorted[0]] + rest, order)
    ensures multiset([sorted[0]] + rest) == multiset(sorted) + multiset{x}
  {
    assert sorted == [sorted[0]] + sorted[1..];
    InsertStepBound(x, sorted, rest, order);
    ConsSorted(sorted[0], rest, order);
  }

  lemma InsertStepBound<C>(x: CategoryRow<C>, sorted: seq<CategoryRow<C>>, rest: seq<CategoryRow<C>>, order: seq<C>)
    requires sorted != [] && SortedByRank(sorted, order)
    requires Rank(order, sorted[0].category) < Rank(order, x.category)
    requires multiset(rest) == multiset(sorted[1..]) + multiset{x}
    ensures forall y | y in rest :: Rank(order, sorted[0].category) <= Rank(order, y.category)
  {
    forall y | y in rest ensures Rank(order, sorted[0].category) <= Rank(order, y.category) {
      assert y in multiset(rest);
      if y != x {
        assert y in multiset(sorted[1..]);
        var k :| 0 <= k < |sorted[1..]| && sorted[1..][k] == y;
        assert sorted[k + 1] == y;
      }
    }
  }

  lemma ConsSorted<C>(head: CategoryRow<C>, rest: seq<CategoryRow<C>>, order: seq<C>)
    requires SortedByRank(rest, order)
    requires forall y | y in rest :: Rank(order, head.category) <= Rank(order, y.category)
    ensures SortedByRank([head] + rest, order)
  {
    var out := [head] + rest;
    forall i, j | 0 <= i < j < |out| ensures Rank(order, out[i].category) <= Rank(order, out[j].category) {
      if i == 0 {
        assert out[j] == rest[j - 1];
      } else {
        assert out[i] == rest[i - 1] && out[j] == rest[j - 1];
      }
    }
  }

  /** The final sort on the categorical column: ordered by the
      category's canonical position. */
  function SortByRank<C(==)>(rows: seq<CategoryRow<C>>, order: seq<C>): (out: seq<CategoryRow<C>>)
    ensures |out| == |rows|
    ensures SortedByRank(out, order)
    ensures multiset(out) == multiset(rows)
  {
    if rows == [] then []
    else
      assert rows == [rows[0]] + rows[1..];
      InsertByRank(rows[0], SortByRank(rows[1..], order), order)
  }

  /** The whole pipeline: group, melt, sort. */
  function Breakdown<C(==)>(rows: seq<DailyRecord>, key: DailyRecord -> C, order: seq<C>): seq<CategoryRow<C>> {
    SortByRank(Melt(GroupBy(rows, key, order)), order)
  }

  /** What a breakdown of `rows` is: sorted by canonical position; every
      row names a category that occurs and holds that category's sum of
      its `User Status` column; the category of every input row has
      exactly one casual row and exactly one registered row. The relative order of a
      category's two rows is left open. */
  ghost predicate IsBreakdownOf<C>(out: seq<CategoryRow<C>>, rows: seq<DailyRecord>, key: DailyRecord -> C, order: seq<C>) {
    && SortedByRank(out, order)
    && (forall x | x in out ::
          Present(rows, key, x.category)
          && x.countUsers == KeyedTotal(rows, key, x.category, StatusColumn(x.status)))
    && (forall r, s | r in rows ::
          multiset(out)[CategoryRow(key(r), s, KeyedTotal(rows, key, key(r), StatusColumn(s)))] == 1)
  }

  lemma {:induction false} MeltColumnMembers<C>(groups: seq<GroupRow<C>>, s: UserStatus, x: CategoryRow<C>)
    requires x in MeltColumn(groups, s)
    ensures x.status == s
    ensures exists g | g in groups :: x == CategoryRow(g.category, s, StatusValue(g, s))
  {
    var head := CategoryRow(groups[0].category, s, StatusValue(groups[0], s));
    if x != head {
      assert x in MeltColumn(groups[1..], s);
      MeltColumnMembers(groups[1..], s, x);
      var g :| g in groups[1..] && x == CategoryRow(g.category, s, StatusValue(g, s));
      assert g in groups;
    }
  }

  /** A category that occurs gives exactly one row per user status, and no
      other row of the melt carries its key. */
  lemma {:induction false} MeltColumnCount<C>(rows: seq<DailyRecord>, key: DailyRecord -> C, order: seq<C>, c: C, s: UserStatus, t: UserStatus)
    requires Distinct(order)
    ensures multiset(MeltColumn(GroupBy(rows, key, order), t))[CategoryRow(c, s, KeyedTotal(rows, key, c, StatusColumn(s)))]
         == if s == t && c in order && Present(rows, key, c) then 1 else 0
  {
    var x := CategoryRow(c, s, KeyedTotal(rows, key, c, StatusColumn(s)));
    if order != [] {
      assert Distinct(order[1..]) by {
        forall i, j | 0 <= i < j < |order[1..]| ensures order[1..][i] != order[1..][j] {
          assert order[i + 1] != order[j + 1];
        }
      }
      MeltColumnCount(rows, key, order[1..], c, s, t);
      var rest := GroupBy(rows, key, order[1..]);
      if Present(rows, key, order[0]) {
        var g := GroupRow(order[0], KeyedTotal(rows, key, order[0], Casual),
                          KeyedTotal(rows, key, order[0], Registered), KeyedTotal(rows, key, order[0], Cnt));
        assert ([g] + rest)[1..] == rest;
        assert MeltColumn([g] + rest, t) == [CategoryRow(g.category, t, StatusValue(g, t))] + MeltColumn(rest, t);
      }
      if c == order[0] {
        assert c !in order[1..] by {
          forall k | 0 <= k < |order[1..]| ensures order[1..][k] != c {
            assert order[k + 1] != order[0];
          }
        }
      } else {
        assert c in order <==> c in order[1..];
      }
    }
  }

  /** The pipeline meets the description above, given a category list
      without repeats that holds every row's category. */
  lemma BreakdownSpec<C>(rows: seq<DailyRecord>, key: DailyRecord -> C, order: seq<C>)
    requires Distinct(order)
    requires forall r | r in rows :: key(r) in order
    ensures IsBreakdownOf(Breakdown(rows, key, order), rows, key, order)
  {
    var groups := GroupBy(rows, key, order);
    var melted := Melt(groups);
    var out := Breakdown(rows, key, order);
    assert multiset(out) == multiset(melted);
    forall x | x in out
      ensures Present(rows, key, x.category)
      ensures x.countUsers == KeyedTotal(rows, key, x.category, StatusColumn(x.status))
    {
      assert x in multiset(melted);
      var s := if x in MeltColumn(groups, CasualUsers) then CasualUsers else RegisteredUsers;
      MeltColumnMembers(groups, s, x);
    }
    forall r, s | r in rows
      ensures multiset(out)[CategoryRow(key(r), s, KeyedTotal(rows, key, key(r), StatusColumn(s)))] == 1
    {
      MeltColumnCount(rows, key, order, key(r), s, CasualUsers);
      MeltColumnCount(rows, key, order, key(r), s, RegisteredUsers);
    }
  }

  // Conservation: the long table holds every casual and registered rental.

  /** The sum of the `count_users` column. */
  function CountTotal<C>(out: seq<CategoryRow<C>>): nat {
    if out == [] then 0 else out[0].countUsers + CountTotal(out[1..])
  }

  lemma {:induction false} CountTotalAppend<C>(a: seq<CategoryRow<C>>, b: seq<CategoryRow<C>>)
    ensures CountTotal(a + b) == CountTotal(a) + CountTotal(b)
  {
    if a == [] {
      assert a + b == b;
    } else {
      assert (a + b)[1..] == a[1..] + b;
      CountTotalAppend(a[1..], b);
    }
  }

  lemma {:induction false} InsertKeepsCount<C>(x: CategoryRow<C>, sorted: seq<CategoryRow<C>>, order: seq<C>)
    requires SortedByRank(sorted, order)
    ensures CountTotal(InsertByRank(x, sorted, order)) == x.countUsers + CountTotal(sorted)
  {
    if sorted != [] && Rank(order, x.category) > Rank(order, sorted[0].category) {
      InsertKeepsCount(x, sorted[1..], order);
      var rest := InsertByRank(x, sorted[1..], order);
      assert ([sorted[0]] + rest)[1..] == rest;
    } else {
      assert ([x] + sorted)[1..] == sorted;
    }
  }

  lemma {:induction false} SortKeepsCount<C>(rows: seq<CategoryRow<C>>, order: seq<C>)
    ensures CountTotal(SortByRank(rows, order)) == CountTotal(rows)
  {
    if rows != [] {
      SortKeepsCount(rows[1..], order);
      InsertKeepsCount(rows[0], SortByRank(rows[1..], order), order);
    }
  }

  lemma {:induction false} MeltColumnTotal<C>(rows: seq<DailyRecord>, key: DailyRecord -> C, order: seq<C>, s: UserStatus)
    ensures CountTotal(MeltColumn(GroupBy(rows, key, order), s)) == CategoriesTotal(rows, key, order, StatusColumn(s))
  {
    if order != [] {
      MeltColumnTotal(rows, key, order[1..], s);
      var rest := GroupBy(rows, key, order[1..]);
      var c := order[0];
      if Present(rows, key, c) {
        var g := GroupRow(c, KeyedTotal(rows, key, c, Casual), KeyedTotal(rows, key, c, Registered), KeyedTotal(rows, key, c, Cnt));
        assert ([g] + rest)[1..] == rest;
        var melted := MeltColumn([g] + rest, s);
        assert melted[1..] == MeltColumn(rest, s);
      } else {
        KeyedTotalAbsent(rows, key, c, StatusColumn(s));
      }
    }
  }

  /** The `count_users` column adds up to the casual total plus the
      registered total of the input. */
  lemma BreakdownConservesTotal<C>(rows: seq<DailyRecord>, key: DailyRecord -> C, order: seq<C>)
    requires Distinct(order)
    requires forall r | r in rows :: key(r) in order
    ensures CountTotal(Breakdown(rows, key, order)) == ColumnTotal(rows, Casual) + ColumnTotal(rows, Registered)
  {
    var groups := GroupBy(rows, key, order);
    SortKeepsCount(Melt(groups), order);
    CountTotalAppend(MeltColumn(groups, CasualUsers), MeltColumn(groups, RegisteredUsers));
    MeltColumnTotal(rows, key, order, CasualUsers);
    MeltColumnTotal(rows, key, order, RegisteredUsers);
    PartitionTotal(rows, key, order, Casual);
    PartitionTotal(rows, key, order, Registered);
  }

  /** On rows where `cnt == casual + registered`, every group's summed
      `cnt` is its casual plus its registered sum. */
  lemma GroupTotalsConsistent<C>(rows: seq<DailyRecord>, key: DailyRecord -> C, order: seq<C>)
    requires forall r | r in rows :: Consistent(r)
    ensures forall g | g in GroupBy(rows, key, order) :: g.totalUsers == g.casualUsers + g.registeredUsers
  {
    forall g | g in GroupBy(rows, key, order) ensures g.totalUsers == g.casualUsers + g.registeredUsers {
      ConsistentKeyedTotals(rows, key, g.category);
    }
  }

  // The input's row order does not matter.

  lemma {:induction false} GroupByIgnoresRowOrder<C>(rows: seq<DailyRecord>, rows': seq<DailyRecord>, key: DailyRecord -> C, order: seq<C>)
    requires multiset(rows) == multiset(rows')
    ensures GroupBy(rows, key, order) == GroupBy(rows', key, order)
  {
    if order != [] {
      GroupByIgnoresRowOrder(rows, rows', key, order[1..]);
      var c := order[0];
      assert Present(rows, key, c) <==> Present(rows', key, c) by {
        forall r ensures r in rows <==> r in rows' {
          assert r in rows <==> r in multiset(rows);
          assert r in rows' <==> r in multiset(rows');
        }
      }
      KeyedTotalPermutation(rows, rows', key, c, Casual);
      KeyedTotalPermutation(rows, rows', key, c, Registered);
      KeyedTotalPermutation(rows, rows', key, c, Cnt);
    }
  }

  /** Shuffling the input rows gives the same table. */
  lemma BreakdownIgnoresRowOrder<C>(rows: seq<DailyRecord>, rows': seq<DailyRecord>, key: DailyRecord -> C, order: seq<C>)
    requires multiset(rows) == multiset(rows')
    ensures Breakdown(rows, key, order) == Breakdown(rows', key, order)
  {
    GroupByIgnoresRowOrder(rows, rows', key, order);
  }
}
