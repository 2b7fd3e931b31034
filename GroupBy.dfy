/** The grouping primitive behind every aggregate table of the dashboard:
    `df.groupby(keys, as_index=False)[col].sum()` under pandas' defaults
    `sort=True` (the groups come out in ascending key order) and
    `dropna=True` (a row with a null in any key column belongs to no group),
    and the `sort_values(col, ascending=False).head(n)` of the top-N tables. */
module GroupBy {
  import opened TextOrder
  import opened Schema
  import opened Frames

  /** One cell of a group key: an integer id or a text value. */
  datatype Cell = IntCell(i: int) | StrCell(s: string)

  /** The values of a row's key columns, in column order. */
  type Key = seq<Cell>

  /** The order a key column sorts by: numbers by value, text as Python
      compares `str`. Every key column holds one kind of cell, so placing
      numbers before text only serves to make the order total. */
  predicate CellLess(a: Cell, b: Cell)
  {
    match (a, b)
    case (IntCell(x), IntCell(y)) => x < y
    case (IntCell(_), StrCell(_)) => true
    case (StrCell(_), IntCell(_)) => false
    case (StrCell(x), StrCell(y)) => LexLess(x, y)
  }

  /** Sorting on several key columns: the first column decides, the next one
      breaks ties, and so on. */
  predicate KeyLess(a: Key, b: Key)
  {
    if |a| == 0 then |b| != 0
    else |b| != 0 && (CellLess(a[0], b[0]) || (a[0] == b[0] && KeyLess(a[1..], b[1..])))
  }

  lemma CellLessIrreflexive(a: Cell)
    ensures !CellLess(a, a)
  {
    if a.StrCell? {
      LexLessIrreflexive(a.s);
    }
  }

  lemma CellLessTransitive(a: Cell, b: Cell, c: Cell)
    requires CellLess(a, b) && CellLess(b, c)
    ensures CellLess(a, c)
  {
    if a.StrCell? {
      LexLessTransitive(a.s, b.s, c.s);
    }
  }

  lemma CellLessTotal(a: Cell, b: Cell)
    requires a != b
    ensures CellLess(a, b) || CellLess(b, a)
  {
    if a.StrCell? && b.StrCell? {
      LexLessTotal(a.s, b.s);
    }
  }

  lemma {:induction false} KeyLessIrreflexive(a: Key)
    ensures !KeyLess(a, a)
  {
    if |a| != 0 {
      CellLessIrreflexive(a[0]);
      KeyLessIrreflexive(a[1..]);
    }
  }

  lemma {:induction false} KeyLessTransitive(a: Key, b: Key, c: Key)
    requires KeyLess(a, b) && KeyLess(b, c)
    ensures KeyLess(a, c)
  {
    if |a| != 0 {
      if CellLess(a[0], b[0]) && CellLess(b[0], c[0]) {
        CellLessTransitive(a[0], b[0], c[0]);
      } else if a[0] == b[0] && b[0] == c[0] {
        KeyLessTransitive(a[1..], b[1..], c[1..]);
      }
    }
  }

  lemma {:induction false} KeyLessTotal(a: Key, b: Key)
    requires a != b
    ensures KeyLess(a, b) || KeyLess(b, a)
  {
    if |a| != 0 && |b| != 0 {
      if a[0] == b[0] {
        assert a == [a[0]] + a[1..] && b == [b[0]] + b[1..];
        KeyLessTotal(a[1..], b[1..]);
      } else {
        CellLessTotal(a[0], b[0]);
      }
    }
  }

  ghost predicate StrictlyAscending(g: seq<Key>)
  {
    forall a, b :: 0 <= a < b < |g| ==> KeyLess(g[a], g[b])
  }

  /** A strictly ascending list of keys holds each key once. */
  lemma AscendingDistinct(g: seq<Key>)
    requires StrictlyAscending(g)
    ensures forall a, b :: 0 <= a < |g| && 0 <= b < |g| && a != b ==> g[a] != g[b]
  {
    forall a, b | 0 <= a < |g| && 0 <= b < |g| && a != b
      ensures g[a] != g[b]
    {
      KeyLessIrreflexive(g[a]);
    }
  }

  /** Adds a key to an ascending list of distinct keys. */
  function InsertKey(g: seq<Key>, k: Key): seq<Key>
  {
    if |g| == 0 then [k]
    else if g[0] == k then g
    else if KeyLess(k, g[0]) then [k] + g
    else [g[0]] + InsertKey(g[1..], k)
  }

  lemma {:induction false} InsertKeySpec(g: seq<Key>, k: Key)
    requires StrictlyAscending(g)
    ensures StrictlyAscending(InsertKey(g, k))
    ensures forall x :: x in InsertKey(g, k) <==> x in g || x == k
  {
    if |g| != 0 && g[0] != k && !KeyLess(k, g[0]) {
      var rest := InsertKey(g[1..], k);
      InsertKeySpec(g[1..], k);
      KeyLessTotal(g[0], k);
      var r := [g[0]] + rest;
      assert forall b :: 1 <= b < |r| ==> r[b] in rest;
      assert forall x :: x in g <==> x == g[0] || x in g[1..];
      forall a, b | 0 <= a < b < |r|
        ensures KeyLess(r[a], r[b])
      {
        if a == 0 {
          assert r[b] in rest;
          if r[b] != k {
            var c :| 0 <= c < |g[1..]| && g[1..][c] == r[b];
            assert g[c + 1] == r[b];
          }
        } else {
          assert r[a] == rest[a - 1] && r[b] == rest[b - 1];
        }
      }
    } else if |g| != 0 && g[0] != k {
      var r := [k] + g;
      forall a, b | 0 <= a < b < |r|
        ensures KeyLess(r[a], r[b])
      {
        if a == 0 && b > 1 {
          KeyLessTransitive(k, g[0], g[b - 1]);
        }
      }
    }
  }

  /** The sorted distinct non-null keys of a key column: the groups of
      `groupby(..., sort=True, dropna=True)`. */
  function GroupKeys(ks: seq<Option<Key>>): seq<Key>
  {
    if |ks| == 0 then []
    else if ks[0].Some? then InsertKey(GroupKeys(ks[1..]), ks[0].value)
    else GroupKeys(ks[1..])
  }

  /** There is one group per distinct non-null key, in ascending key order. */
  lemma {:induction false} GroupKeysSpec(ks: seq<Option<Key>>)
    ensures StrictlyAscending(GroupKeys(ks))
    ensures forall k :: k in GroupKeys(ks) <==> Some(k) in ks
  {
    if |ks| != 0 {
      GroupKeysSpec(ks[1..]);
      assert forall o :: o in ks <==> o == ks[0] || o in ks[1..];
      if ks[0].Some? {
        InsertKeySpec(GroupKeys(ks[1..]), ks[0].value);
      }
    }
  }

  /** `Series.sum()` of an integer column: NaN cells are skipped. */
  function Total(vs: seq<Option<int>>): int
  {
    if |vs| == 0 then 0 else Amount(vs[0]) + Total(vs[1..])
  }

  /** The sum of the values in the rows whose key is `k`. */
  function SumWhere(ks: seq<Option<Key>>, vs: seq<Option<int>>, k: Key): int
    requires |ks| == |vs|
  {
    if |ks| == 0 then 0
    else (if ks[0] == Some(k) then Amount(vs[0]) else 0) + SumWhere(ks[1..], vs[1..], k)
  }

  /** The sum of the values in the rows that have a key at all. */
  function SumPresent(ks: seq<Option<Key>>, vs: seq<Option<int>>): int
    requires |ks| == |vs|
  {
    if |ks| == 0 then 0
    else (if ks[0].Some? then Amount(vs[0]) else 0) + SumPresent(ks[1..], vs[1..])
  }

  /** The mask `df[keys].notna().all(axis=1)`. */
  function PresentMask(ks: seq<Option<Key>>): (m: seq<bool>)
    ensures |m| == |ks|
  {
    seq(|ks|, i requires 0 <= i < |ks| => ks[i].Some?)
  }

  /** The rows with a key contribute exactly the sum of the column restricted
      to them; rows with a null key contribute nothing. */
  lemma {:induction false} SumPresentIsTotalOfKeyed(ks: seq<Option<Key>>, vs: seq<Option<int>>)
    requires |ks| == |vs|
    ensures SumPresent(ks, vs) == Total(Where(vs, PresentMask(ks)))
  {
    if |ks| != 0 {
      SumPresentIsTotalOfKeyed(ks[1..], vs[1..]);
      assert PresentMask(ks)[1..] == PresentMask(ks[1..]);
      var head := if ks[0].Some? then [vs[0]] else [];
      TotalAppend(head, Where(vs[1..], PresentMask(ks[1..])));
    }
  }

  /** When every row has a key, the groups cover the whole column. */
  lemma {:induction false} SumPresentAllKeyed(ks: seq<Option<Key>>, vs: seq<Option<int>>)
    requires |ks| == |vs|
    requires forall i :: 0 <= i < |ks| ==> ks[i].Some?
    ensures SumPresent(ks, vs) == Total(vs)
  {
    if |ks| != 0 {
      SumPresentAllKeyed(ks[1..], vs[1..]);
    }
  }

  lemma {:induction false} TotalAppend(a: seq<Option<int>>, b: seq<Option<int>>)
    ensures Total(a + b) == Total(a) + Total(b)
  {
    if |a| == 0 {
      assert a + b == b;
    } else {
      assert (a + b)[1..] == a[1..] + b;
      TotalAppend(a[1..], b);
    }
  }

  /** How many entries of `g` are the key `o`. */
  function Count(g: seq<Key>, o: Option<Key>): nat
  {
    if |g| == 0 then 0 else (if Some(g[0]) == o then 1 else 0) + Count(g[1..], o)
  }

  lemma {:induction false} CountDistinct(g: seq<Key>, o: Option<Key>)
    requires forall a, b :: 0 <= a < |g| && 0 <= b < |g| && a != b ==> g[a] != g[b]
    ensures Count(g, o) == if o.Some? && o.value in g then 1 else 0
  {
    if |g| != 0 {
      CountDistinct(g[1..], o);
      assert forall x :: x in g <==> x == g[0] || x in g[1..];
      if Some(g[0]) == o {
        assert g[0] !in g[1..];
      }
    }
  }

  /** The sum, over the groups `g`, of each group's sum. */
  function SumGroups(g: seq<Key>, ks: seq<Option<Key>>, vs: seq<Option<int>>): int
    requires |ks| == |vs|
  {
    if |g| == 0 then 0 else SumWhere(ks, vs, g[0]) + SumGroups(g[1..], ks, vs)
  }

  lemma {:induction false} SumGroupsStep(g: seq<Key>, ks: seq<Option<Key>>, vs: seq<Option<int>>)
    requires |ks| == |vs| && |ks| != 0
    ensures SumGroups(g, ks, vs) == SumGroups(g, ks[1..], vs[1..]) + Count(g, ks[0]) * Amount(vs[0])
  {
    if |g| != 0 {
      SumGroupsStep(g[1..], ks, vs);
    }
  }

  /** Sum conservation: when the groups are distinct and cover every key,
      the group sums add up to the sum over the rows that have a key. */
  lemma {:induction false} SumGroupsPartition(g: seq<Key>, ks: seq<Option<Key>>, vs: seq<Option<int>>)
    requires |ks| == |vs|
    requires forall a, b :: 0 <= a < |g| && 0 <= b < |g| && a != b ==> g[a] != g[b]
    requires forall i :: 0 <= i < |ks| && ks[i].Some? ==> ks[i].value in g
    ensures SumGroups(g, ks, vs) == SumPresent(ks, vs)
  {
    if |ks| != 0 {
      assert forall i :: 0 <= i < |ks[1..]| ==> ks[1..][i] == ks[i + 1];
      SumGroupsPartition(g, ks[1..], vs[1..]);
      SumGroupsStep(g, ks, vs);
      CountDistinct(g, ks[0]);
      if ks[0].Some? {
        assert ks[0].value in g;
        assert Count(g, ks[0]) == 1;
      } else {
        assert Count(g, ks[0]) == 0;
      }
    } else {
      SumGroupsNoRows(g, ks, vs);
    }
  }

  lemma {:induction false} SumGroupsNoRows(g: seq<Key>, ks: seq<Option<Key>>, vs: seq<Option<int>>)
    requires |ks| == |vs| == 0
    ensures SumGroups(g, ks, vs) == 0
  {
    if |g| != 0 {
      SumGroupsNoRows(g[1..], ks, vs);
    }
  }

  /** One row of an aggregate table: the key columns and the summed value. */
  datatype GroupRow = GroupRow(key: Key, total: int)

  /** One row per key of `g`, carrying the sum of its rows. */
  function Tabulate(g: seq<Key>, ks: seq<Option<Key>>, vs: seq<Option<int>>): (r: seq<GroupRow>)
    requires |ks| == |vs|
    ensures |r| == |g|
  {
    seq(|g|, j requires 0 <= j < |g| => GroupRow(g[j], SumWhere(ks, vs, g[j])))
  }

  /** `groupby(keys, as_index=False)[col].sum()`. */
  function GroupSum(ks: seq<Option<Key>>, vs: seq<Option<int>>): seq<GroupRow>
    requires |ks| == |vs|
  {
    Tabulate(GroupKeys(ks), ks, vs)
  }

  /** The sum of the value column of an aggregate table. */
  function SumTotals(rows: seq<GroupRow>): int
  {
    if |rows| == 0 then 0 else rows[0].total + SumTotals(rows[1..])
  }

  lemma {:induction false} SumTotalsOfTabulate(g: seq<Key>, ks: seq<Option<Key>>, vs: seq<Option<int>>)
    requires |ks| == |vs|
    ensures SumTotals(Tabulate(g, ks, vs)) == SumGroups(g, ks, vs)
  {
    if |g| != 0 {
      assert Tabulate(g, ks, vs)[1..] == Tabulate(g[1..], ks, vs);
      SumTotalsOfTabulate(g[1..], ks, vs);
    }
  }

  ghost predicate KeysAscending(rows: seq<GroupRow>)
  {
    forall a, b :: 0 <= a < b < |rows| ==> KeyLess(rows[a].key, rows[b].key)
  }

  /** The group-by-sum table has one row per distinct non-null key, in
      strictly ascending key order; each row's value is the sum over the rows
      with its key, and the values add up to the sum over all rows with a
      non-null key. */
  lemma GroupSumSpec(ks: seq<Option<Key>>, vs: seq<Option<int>>)
    requires |ks| == |vs|
    ensures KeysAscending(GroupSum(ks, vs))
    ensures forall j :: 0 <= j < |GroupSum(ks, vs)| ==> Some(GroupSum(ks, vs)[j].key) in ks
    ensures forall i :: 0 <= i < |ks| && ks[i].Some? ==>
              exists j :: 0 <= j < |GroupSum(ks, vs)| && GroupSum(ks, vs)[j].key == ks[i].value
    ensures forall j :: 0 <= j < |GroupSum(ks, vs)| ==>
              GroupSum(ks, vs)[j].total == SumWhere(ks, vs, GroupSum(ks, vs)[j].key)
    ensures SumTotals(GroupSum(ks, vs)) == SumPresent(ks, vs)
  {
    var g := GroupKeys(ks);
    var r := GroupSum(ks, vs);
    GroupKeysSpec(ks);
    AscendingDistinct(g);
    assert forall j :: 0 <= j < |r| ==> r[j].key == g[j];
    forall i | 0 <= i < |ks| && ks[i].Some?
      ensures exists j :: 0 <= j < |r| && r[j].key == ks[i].value
    {
      assert ks[i] in ks;
      var j :| 0 <= j < |g| && g[j] == ks[i].value;
      assert r[j].key == ks[i].value;
    }
    forall i | 0 <= i < |ks| && ks[i].Some?
      ensures ks[i].value in g
    {
      assert ks[i] in ks;
    }
    SumGroupsPartition(g, ks, vs);
    SumTotalsOfTabulate(g, ks, vs);
  }

  /** Dropping rows that have no key does not change the groups. */
  lemma {:induction false} GroupKeysOfWhere(ks: seq<Option<Key>>, m: seq<bool>)
    requires |m| == |ks|
    requires forall i :: 0 <= i < |ks| && !m[i] ==> ks[i].None?
    ensures GroupKeys(Where(ks, m)) == GroupKeys(ks)
  {
    if |ks| != 0 {
      assert forall i :: 0 <= i < |ks| - 1 ==> ks[1..][i] == ks[i + 1] && m[1..][i] == m[i + 1];
      GroupKeysOfWhere(ks[1..], m[1..]);
      var tail := Where(ks[1..], m[1..]);
      if m[0] {
        var w := [ks[0]] + tail;
        assert Where(ks, m) == w;
        assert w[0] == ks[0] && w[1..] == tail;
      } else {
        assert Where(ks, m) == tail;
      }
    }
  }

  /** Dropping rows that have no key does not change the sum of any group. */
  lemma {:induction false} SumWhereOfWhere(ks: seq<Option<Key>>, vs: seq<Option<int>>, m: seq<bool>, k: Key)
    requires |ks| == |vs| == |m|
    requires forall i :: 0 <= i < |ks| && !m[i] ==> ks[i].None?
    ensures |Where(ks, m)| == |Where(vs, m)|
    ensures SumWhere(Where(ks, m), Where(vs, m), k) == SumWhere(ks, vs, k)
  {
    if |ks| != 0 {
      assert forall i :: 0 <= i < |ks| - 1 ==> ks[1..][i] == ks[i + 1] && m[1..][i] == m[i + 1];
      SumWhereOfWhere(ks[1..], vs[1..], m[1..], k);
      var kt, vt := Where(ks[1..], m[1..]), Where(vs[1..], m[1..]);
      if m[0] {
        var wk, wv := [ks[0]] + kt, [vs[0]] + vt;
        assert Where(ks, m) == wk && Where(vs, m) == wv;
        assert wk[0] == ks[0] && wk[1..] == kt;
        assert wv[0] == vs[0] && wv[1..] == vt;
      } else {
        assert Where(ks, m) == kt && Where(vs, m) == vt;
      }
    }
  }

  /** `groupby` with `dropna=True` ignores rows without a key: removing them
      beforehand gives the same table. */
  lemma GroupSumOfWhere(ks: seq<Option<Key>>, vs: seq<Option<int>>, m: seq<bool>)
    requires |ks| == |vs| == |m|
    requires forall i :: 0 <= i < |ks| && !m[i] ==> ks[i].None?
    ensures |Where(ks, m)| == |Where(vs, m)|
    ensures GroupSum(Where(ks, m), Where(vs, m)) == GroupSum(ks, vs)
  {
    GroupKeysOfWhere(ks, m);
    var g := GroupKeys(ks);
    SumWhereOfWhere(ks, vs, m, []);
    forall j | 0 <= j < |g|
      ensures GroupSum(Where(ks, m), Where(vs, m))[j] == GroupSum(ks, vs)[j]
    {
      SumWhereOfWhere(ks, vs, m, g[j]);
    }
  }

  /** With no row at all, or no row with a key, the table is empty. */
  lemma {:induction false} GroupSumEmpty(ks: seq<Option<Key>>, vs: seq<Option<int>>)
    requires |ks| == |vs|
    requires forall i :: 0 <= i < |ks| ==> ks[i].None?
    ensures GroupSum(ks, vs) == []
  {
    if |ks| != 0 {
      GroupSumEmpty(ks[1..], vs[1..]);
    }
  }

  ghost predicate NonIncreasing(rows: seq<GroupRow>)
  {
    forall a, b :: 0 <= a < b < |rows| ==> rows[a].total >= rows[b].total
  }

  /** Places a row in front of the first row whose value it is not below. */
  function InsertDesc(x: GroupRow, s: seq<GroupRow>): seq<GroupRow>
  {
    if |s| == 0 then [x]
    else if x.total >= s[0].total then [x] + s
    else [s[0]] + InsertDesc(x, s[1..])
  }

  /** `sort_values(col, ascending=False)`. pandas' default sort does not
      promise an order among equal values; this one keeps them in input order. */
  function SortDesc(s: seq<GroupRow>): seq<GroupRow>
  {
    if |s| == 0 then [] else InsertDesc(s[0], SortDesc(s[1..]))
  }

  lemma InsertDescSpec(x: GroupRow, s: seq<GroupRow>)
    requires NonIncreasing(s)
    ensures NonIncreasing(InsertDesc(x, s))
    ensures multiset(InsertDesc(x, s)) == multiset(s) + multiset{x}
  {
    InsertDescSorted(x, s);
    InsertDescMultiset(x, s);
  }

  lemma {:induction false} InsertDescSorted(x: GroupRow, s: seq<GroupRow>)
    requires NonIncreasing(s)
    ensures NonIncreasing(InsertDesc(x, s))
    ensures |s| != 0 ==> InsertDesc(x, s)[0] == if x.total >= s[0].total then x else s[0]
  {
    if |s| != 0 && x.total < s[0].total {
      var rest := InsertDesc(x, s[1..]);
      InsertDescSorted(x, s[1..]);
      var r := [s[0]] + rest;
      assert rest[0].total <= s[0].total;
      forall a, b | 0 <= a < b < |r|
        ensures r[a].total >= r[b].total
      {
        assert r[b] == rest[b - 1];
        if a > 0 {
          assert r[a] == rest[a - 1];
        } else if b > 1 {
          assert rest[0].total >= rest[b - 1].total;
        }
      }
    }
  }

  lemma {:induction false} InsertDescMultiset(x: GroupRow, s: seq<GroupRow>)
    ensures multiset(InsertDesc(x, s)) == multiset(s) + multiset{x}
  {
    if |s| != 0 && x.total < s[0].total {
      InsertDescMultiset(x, s[1..]);
      assert s == [s[0]] + s[1..];
    }
  }

  /** The descending sort orders the rows by value and is a permutation of them. */
  lemma {:induction false} SortDescSpec(s: seq<GroupRow>)
    ensures NonIncreasing(SortDesc(s))
    ensures multiset(SortDesc(s)) == multiset(s)
  {
    if |s| != 0 {
      SortDescSpec(s[1..]);
      InsertDescSpec(s[0], SortDesc(s[1..]));
      assert s == [s[0]] + s[1..];
    }
  }

  /** `sort_values(col, ascending=False).head(n)`. */
  function TopN(rows: seq<GroupRow>, n: nat): seq<GroupRow>
  {
    var s := SortDesc(rows);
    if n < |s| then s[..n] else s
  }

  /** The top-N table has `min(n, |rows|)` rows, in non-increasing order of
      value, taken from the input; every input row left out has a value no
      greater than any row kept. */
  lemma TopNSpec(rows: seq<GroupRow>, n: nat)
    ensures |TopN(rows, n)| == if n < |rows| then n else |rows|
    ensures NonIncreasing(TopN(rows, n))
    ensures multiset(TopN(rows, n)) <= multiset(rows)
    ensures forall a, y :: 0 <= a < |TopN(rows, n)| && y in multiset(rows) - multiset(TopN(rows, n)) ==>
              y.total <= TopN(rows, n)[a].total
  {
    var s := SortDesc(rows);
    SortDescSpec(rows);
    assert |s| == |rows| by {
      assert |multiset(s)| == |multiset(rows)|;
    }
    var m := if n < |s| then n else |s|;
    assert TopN(rows, n) == s[..m];
    PrefixSplit(s, m);
  }

  /** Cutting a non-increasing table after `m` rows: the head stays
      non-increasing, and the rows of the tail are what the head leaves out
      of the whole, none of them above a head row. */
  lemma PrefixSplit(s: seq<GroupRow>, m: nat)
    requires NonIncreasing(s) && m <= |s|
    ensures NonIncreasing(s[..m])
    ensures multiset(s[..m]) <= multiset(s)
    ensures multiset(s) - multiset(s[..m]) == multiset(s[m..])
    ensures forall a, y :: 0 <= a < m && y in multiset(s) - multiset(s[..m]) ==> y.total <= s[a].total
  {
    assert s == s[..m] + s[m..];
    assert multiset(s) == multiset(s[..m]) + multiset(s[m..]);
    forall a, y | 0 <= a < m && y in multiset(s[m..])
      ensures y.total <= s[a].total
    {
      var c :| 0 <= c < |s[m..]| && s[m..][c] == y;
      assert s[m + c] == y;
    }
  }
}
