/** Column sums over a table, whole or restricted to one group: what
    a column sum and a grouped sum compute. */
module Sums {
  import opened Records

  /** The sum of column `col` over all rows. */
  function ColumnTotal(rows: seq<DailyRecord>, col: Column): nat {
    if rows == [] then 0 else Value(rows[0], col) + ColumnTotal(rows[1..], col)
  }

  /** The sum of `col` over the rows whose group key is `c`. */
  function KeyedTotal<C(==)>(rows: seq<DailyRecord>, key: DailyRecord -> C, c: C, col: Column): nat {
    if rows == [] then 0
    else (if key(rows[0]) == c then Value(rows[0], col) else 0) + KeyedTotal(rows[1..], key, c, col)
  }

  /** The group sums of `col` added up over the groups listed in `cats`. */
  function CategoriesTotal<C(==)>(rows: seq<DailyRecord>, key: DailyRecord -> C, cats: seq<C>, col: Column): nat {
    if cats == [] then 0
    else KeyedTotal(rows, key, cats[0], col) + CategoriesTotal(rows, key, cats[1..], col)
  }

  /** The rows of group `c`, in table order: one group of the grouping
      or one bin of `resample`. */
  function Group<C(==)>(rows: seq<DailyRecord>, key: DailyRecord -> C, c: C): (g: seq<DailyRecord>)
    ensures forall k :: 0 <= k < |g| ==> g[k] in rows && key(g[k]) == c
    ensures forall r | r in rows && key(r) == c :: r in g
    ensures forall x :: multiset(g)[x] == if key(x) == c then multiset(rows)[x] else 0
  {
    if rows == [] then []
    else
      var rest := Group(rows[1..], key, c);
      assert rows == [rows[0]] + rows[1..];
      if key(rows[0]) == c then [rows[0]] + rest else rest
  }

  /** A group keeps the table order of its rows. */
  lemma {:induction false} GroupIsSubsequence<C>(rows: seq<DailyRecord>, key: DailyRecord -> C, c: C)
    ensures IsSubsequence(Group(rows, key, c), rows)
  {
    if rows != [] {
      GroupIsSubsequence(rows[1..], key, c);
      var rest := Group(rows[1..], key, c);
      assert ([rows[0]] + rest)[1..] == rest;
    }
  }

  /** A group sum is the column total of that group's rows. */
  lemma {:induction false} KeyedTotalIsGroupTotal<C>(rows: seq<DailyRecord>, key: DailyRecord -> C, c: C, col: Column)
    ensures KeyedTotal(rows, key, c, col) == ColumnTotal(Group(rows, key, c), col)
  {
    if rows != [] {
      KeyedTotalIsGroupTotal(rows[1..], key, c, col);
      var rest := Group(rows[1..], key, c);
      assert ([rows[0]] + rest)[1..] == rest;
    }
  }

  /** Some row belongs to group `c`: `groupby` only emits such keys. */
  predicate Present<C(==)>(rows: seq<DailyRecord>, key: DailyRecord -> C, c: C) {
    exists r | r in rows :: key(r) == c
  }

  predicate Distinct<T(==)>(s: seq<T>) {
    forall i, j :: 0 <= i < j < |s| ==> s[i] != s[j]
  }

  lemma {:induction false} ColumnTotalAppend(a: seq<DailyRecord>, b: seq<DailyRecord>, col: Column)
    ensures ColumnTotal(a + b, col) == ColumnTotal(a, col) + ColumnTotal(b, col)
  {
    if a == [] {
      assert a + b == b;
    } else {
      assert (a + b)[1..] == a[1..] + b;
      ColumnTotalAppend(a[1..], b, col);
    }
  }

  lemma {:induction false} KeyedTotalAppend<C>(a: seq<DailyRecord>, b: seq<DailyRecord>, key: DailyRecord -> C, c: C, col: Column)
    ensures KeyedTotal(a + b, key, c, col) == KeyedTotal(a, key, c, col) + KeyedTotal(b, key, c, col)
  {
    if a == [] {
      assert a + b == b;
    } else {
      assert (a + b)[1..] == a[1..] + b;
      KeyedTotalAppend(a[1..], b, key, c, col);
    }
  }

  /** A group that no row belongs to sums to zero. */
  lemma {:induction false} KeyedTotalAbsent<C>(rows: seq<DailyRecord>, key: DailyRecord -> C, c: C, col: Column)
    requires !Present(rows, key, c)
    ensures KeyedTotal(rows, key, c, col) == 0
  {
    if rows != [] {
      assert rows[0] in rows;
      assert !Present(rows[1..], key, c) by {
        forall r | r in rows[1..] ensures key(r) != c {
          assert r in rows;
        }
      }
      KeyedTotalAbsent(rows[1..], key, c, col);
    }
  }

  /** A group sum depends only on which rows there are, not on their order. */
  lemma {:induction false} KeyedTotalPermutation<C>(a: seq<DailyRecord>, b: seq<DailyRecord>, key: DailyRecord -> C, c: C, col: Column)
    requires multiset(a) == multiset(b)
    ensures KeyedTotal(a, key, c, col) == KeyedTotal(b, key, c, col)
    decreases |a|
  {
    if a == [] {
      assert |b| == |multiset(b)| == 0;
    } else {
      assert a[0] in multiset(b);
      var j :| 0 <= j < |b| && b[j] == a[0];
      var rest := b[..j] + b[j + 1..];
      RemoveMatching(a, b, j);
      KeyedTotalPermutation(a[1..], rest, key, c, col);
      KeyedTotalRemove(b, j, key, c, col);
    }
  }

  lemma RemoveMatching<T>(a: seq<T>, b: seq<T>, j: nat)
    requires multiset(a) == multiset(b) && a != [] && j < |b| && b[j] == a[0]
    ensures multiset(a[1..]) == multiset(b[..j] + b[j + 1..])
  {
    assert a == [a[0]] + a[1..];
    assert b == b[..j] + [b[j]] + b[j + 1..];
    var rest := b[..j] + b[j + 1..];
    assert multiset(a) == multiset{a[0]} + multiset(a[1..]);
    assert multiset(b) == multiset{a[0]} + multiset(rest);
    forall y ensures multiset(a[1..])[y] == multiset(rest)[y] {
      assert multiset(a)[y] == multiset{a[0]}[y] + multiset(a[1..])[y];
      assert multiset(b)[y] == multiset{a[0]}[y] + multiset(rest)[y];
    }
  }

  lemma KeyedTotalRemove<C>(b: seq<DailyRecord>, j: nat, key: DailyRecord -> C, c: C, col: Column)
    requires j < |b|
    ensures KeyedTotal(b, key, c, col)
         == KeyedTotal([b[j]], key, c, col) + KeyedTotal(b[..j] + b[j + 1..], key, c, col)
  {
    assert b == b[..j] + ([b[j]] + b[j + 1..]);
    KeyedTotalAppend(b[..j], [b[j]] + b[j + 1..], key, c, col);
    KeyedTotalAppend([b[j]], b[j + 1..], key, c, col);
    KeyedTotalAppend(b[..j], b[j + 1..], key, c, col);
  }

  /** Adding one row to the table adds its value to every group in `cats`
      that equals its key. */
  lemma {:induction false} CategoriesTotalCons<C>(rows: seq<DailyRecord>, key: DailyRecord -> C, cats: seq<C>, col: Column)
    requires rows != []
    ensures CategoriesTotal(rows, key, cats, col)
         == Hits(cats, key(rows[0]), Value(rows[0], col)) + CategoriesTotal(rows[1..], key, cats, col)
  {
    if cats != [] {
      CategoriesTotalCons(rows, key, cats[1..], col);
    }
  }

  /** `v` once for every occurrence of `x` in `s`. */
  function Hits<T(==)>(s: seq<T>, x: T, v: nat): nat {
    if s == [] then 0 else (if s[0] == x then v else 0) + Hits(s[1..], x, v)
  }

  lemma {:induction false} HitsAbsent<T>(s: seq<T>, x: T, v: nat)
    requires x !in s
    ensures Hits(s, x, v) == 0
  {
    if s != [] {
      HitsAbsent(s[1..], x, v);
    }
  }

  lemma {:induction false} HitsDistinct<T>(s: seq<T>, x: T, v: nat)
    requires Distinct(s) && x in s
    ensures Hits(s, x, v) == v
  {
    if s[0] == x {
      assert x !in s[1..] by {
        forall k | 0 <= k < |s[1..]| ensures s[1..][k] != x {
          assert s[k + 1] != s[0];
        }
      }
      HitsAbsent(s[1..], x, v);
    } else {
      assert Distinct(s[1..]) by {
        forall i, j | 0 <= i < j < |s[1..]| ensures s[1..][i] != s[1..][j] {
          assert s[i + 1] != s[j + 1];
        }
      }
      HitsDistinct(s[1..], x, v);
    }
  }

  /** Summing the group sums over a list of distinct groups that covers
      every row's key gives the column's total: grouping neither loses nor
      duplicates a row. */
  lemma {:induction false} PartitionTotal<C>(rows: seq<DailyRecord>, key: DailyRecord -> C, cats: seq<C>, col: Column)
    requires Distinct(cats)
    requires forall r | r in rows :: key(r) in cats
    ensures CategoriesTotal(rows, key, cats, col) == ColumnTotal(rows, col)
  {
    if rows == [] {
      CategoriesTotalOfEmpty(key, cats, col);
    } else {
      assert rows[0] in rows;
      CategoriesTotalCons(rows, key, cats, col);
      HitsDistinct(cats, key(rows[0]), Value(rows[0], col));
      forall r | r in rows[1..] ensures key(r) in cats {
        assert r in rows;
      }
      PartitionTotal(rows[1..], key, cats, col);
    }
  }

  lemma {:induction false} CategoriesTotalOfEmpty<C>(key: DailyRecord -> C, cats: seq<C>, col: Column)
    ensures CategoriesTotal([], key, cats, col) == 0
  {
    if cats != [] {
      CategoriesTotalOfEmpty(key, cats[1..], col);
    }
  }

  /** On rows where `cnt == casual + registered`, the same holds of the
      column totals. */
  lemma {:induction false} ConsistentTotals(rows: seq<DailyRecord>)
    requires forall r | r in rows :: Consistent(r)
    ensures ColumnTotal(rows, Cnt) == ColumnTotal(rows, Casual) + ColumnTotal(rows, Registered)
  {
    if rows != [] {
      assert rows[0] in rows;
      forall r | r in rows[1..] ensures Consistent(r) {
        assert r in rows;
      }
      ConsistentTotals(rows[1..]);
    }
  }

  /** The same for a single group. */
  lemma {:induction false} ConsistentKeyedTotals<C>(rows: seq<DailyRecord>, key: DailyRecord -> C, c: C)
    requires forall r | r in rows :: Consistent(r)
    ensures KeyedTotal(rows, key, c, Cnt) == KeyedTotal(rows, key, c, Casual) + KeyedTotal(rows, key, c, Registered)
  {
    if rows != [] {
      assert rows[0] in rows;
      forall r | r in rows[1..] ensures Consistent(r) {
        assert r in rows;
      }
      ConsistentKeyedTotals(rows[1..], key, c);
    }
  }
}
