/** The few DataFrame primitives the pipeline is built from: a column computed
    row by row, element-wise `&` of two masks, and boolean indexing
    `df[mask]`, which keeps the rows whose mask entry is true in their
    original order. */
module Frames {

  /** A column computed from each row, as `df["c"]` or `df["c"].dt.year`. */
  function Column<T, U>(s: seq<T>, f: T -> U): (c: seq<U>)
    ensures |c| == |s|
  {
    seq(|s|, i requires 0 <= i < |s| => f(s[i]))
  }

  /** Element-wise `a & b` of two boolean Series of equal length. */
  function AndMask(a: seq<bool>, b: seq<bool>): (m: seq<bool>)
    requires |a| == |b|
    ensures |m| == |a|
  {
    seq(|a|, i requires 0 <= i < |a| => a[i] && b[i])
  }

  /** Element-wise `~m`. */
  function NotMask(m: seq<bool>): (r: seq<bool>)
    ensures |r| == |m|
  {
    seq(|m|, i requires 0 <= i < |m| => !m[i])
  }

  /** Boolean indexing `df[mask]`. */
  function Where<T>(s: seq<T>, mask: seq<bool>): (r: seq<T>)
    requires |mask| == |s|
    ensures |r| <= |s|
  {
    if |s| == 0 then [] else (if mask[0] then [s[0]] else []) + Where(s[1..], mask[1..])
  }

  /** The positions selected by a mask, in ascending order. */
  function Kept(mask: seq<bool>): (idx: seq<nat>)
    ensures forall k :: 0 <= k < |idx| ==> idx[k] < |mask|
  {
    if |mask| == 0 then [] else (if mask[0] then [0] else []) + Shift(Kept(mask[1..]))
  }

  function Shift(idx: seq<nat>): seq<nat>
  {
    seq(|idx|, k requires 0 <= k < |idx| => idx[k] + 1)
  }

  ghost predicate Increasing(idx: seq<nat>)
  {
    forall a, b :: 0 <= a < b < |idx| ==> idx[a] < idx[b]
  }

  /** `df[mask]` is exactly the rows at the mask's true positions, taken in
      ascending order of position: an order-preserving subsequence that keeps
      row `i` if and only if `mask[i]`. */
  lemma WhereSelects<T>(s: seq<T>, mask: seq<bool>)
    requires |mask| == |s|
    ensures |Where(s, mask)| == |Kept(mask)|
    ensures Increasing(Kept(mask))
    ensures forall k :: 0 <= k < |Kept(mask)| ==> Where(s, mask)[k] == s[Kept(mask)[k]]
    ensures forall i :: 0 <= i < |s| ==> (mask[i] <==> i in Kept(mask))
  {
    WhereAt(s, mask);
    KeptIncreasing(mask);
    KeptMember(mask);
  }

  lemma {:induction false} WhereAt<T>(s: seq<T>, mask: seq<bool>)
    requires |mask| == |s|
    ensures |Where(s, mask)| == |Kept(mask)|
    ensures forall k :: 0 <= k < |Kept(mask)| ==> Where(s, mask)[k] == s[Kept(mask)[k]]
  {
    if |s| > 0 {
      WhereAt(s[1..], mask[1..]);
      KeptStep(mask);
      WhereStep(s, mask);
      var h := if mask[0] then 1 else 0;
      forall k | h <= k < |Kept(mask)|
        ensures Where(s, mask)[k] == s[Kept(mask)[k]]
      {
        var r := Kept(mask[1..])[k - h];
        assert Where(s, mask)[k] == Where(s[1..], mask[1..])[k - h] == s[1..][r];
      }
    }
  }

  /** The positions a non-empty mask selects: 0 when its first entry is true,
      then those of the rest of the mask, one further on. */
  lemma {:induction false} KeptStep(mask: seq<bool>)
    requires |mask| > 0
    ensures var h := if mask[0] then 1 else 0;
            && |Kept(mask)| == h + |Kept(mask[1..])|
            && (mask[0] ==> Kept(mask)[0] == 0)
            && forall k :: h <= k < |Kept(mask)| ==> Kept(mask)[k] == Kept(mask[1..])[k - h] + 1
  {
    var h := if mask[0] then 1 else 0;
    var head: seq<nat> := if mask[0] then [0] else [];
    var rest := Kept(mask[1..]);
    var sh := Shift(rest);
    assert |sh| == |rest| && |head| == h;
    assert Kept(mask) == head + sh;
    forall k | h <= k < |head + sh|
      ensures (head + sh)[k] == rest[k - h] + 1
    {
      assert (head + sh)[k] == sh[k - h];
    }
  }

  /** The rows a non-empty frame keeps: its first row when the mask's first
      entry is true, then those kept from the rest. */
  lemma {:induction false} WhereStep<T>(s: seq<T>, mask: seq<bool>)
    requires |mask| == |s| > 0
    ensures var h := if mask[0] then 1 else 0;
            && |Where(s, mask)| == h + |Where(s[1..], mask[1..])|
            && (mask[0] ==> Where(s, mask)[0] == s[0])
            && forall k :: h <= k < |Where(s, mask)| ==> Where(s, mask)[k] == Where(s[1..], mask[1..])[k - h]
  {
    var head := if mask[0] then [s[0]] else [];
    var tail := Where(s[1..], mask[1..]);
    assert Where(s, mask) == head + tail;
    assert |head| == if mask[0] then 1 else 0;
  }

  lemma {:induction false} KeptIncreasing(mask: seq<bool>)
    ensures Increasing(Kept(mask))
    ensures forall k :: 0 <= k < |Kept(mask)| ==> |mask| > 0 && (Kept(mask)[k] == 0 ==> k == 0 && mask[0])
  {
    if |mask| > 0 {
      KeptIncreasing(mask[1..]);
      var rest := Kept(mask[1..]);
      var head: seq<nat> := if mask[0] then [0] else [];
      assert Kept(mask) == head + Shift(rest);
    }
  }

  lemma {:induction false} KeptMember(mask: seq<bool>)
    ensures forall i :: 0 <= i < |mask| ==> (mask[i] <==> i in Kept(mask))
  {
    if |mask| > 0 {
      KeptMember(mask[1..]);
      var rest := Kept(mask[1..]);
      var head: seq<nat> := if mask[0] then [0] else [];
      assert Kept(mask) == head + Shift(rest);
      forall i | 0 <= i < |mask|
        ensures mask[i] <==> i in Kept(mask)
      {
        if i == 0 {
          assert 0 !in Shift(rest);
        } else {
          assert mask[i] == mask[1..][i - 1];
          if i - 1 in rest {
            var k :| 0 <= k < |rest| && rest[k] == i - 1;
            assert Shift(rest)[k] == i;
          }
          if i in Shift(rest) {
            var k :| 0 <= k < |rest| && Shift(rest)[k] == i;
            assert rest[k] == i - 1;
          }
        }
      }
    }
  }

  /** Membership in `df[mask]`. */
  lemma WhereMember<T>(s: seq<T>, mask: seq<bool>, x: T)
    requires |mask| == |s|
    ensures x in Where(s, mask) <==> exists i :: 0 <= i < |s| && mask[i] && s[i] == x
  {
    WhereSelects(s, mask);
    var w, idx := Where(s, mask), Kept(mask);
    if x in w {
      var k :| 0 <= k < |w| && w[k] == x;
      assert mask[idx[k]] && s[idx[k]] == x;
    }
    if exists i :: 0 <= i < |s| && mask[i] && s[i] == x {
      var i :| 0 <= i < |s| && mask[i] && s[i] == x;
      var k :| 0 <= k < |idx| && idx[k] == i;
      assert w[k] == x;
    }
  }

  /** A mask that selects every row leaves the frame unchanged. */
  lemma {:induction false} WhereAll<T>(s: seq<T>, mask: seq<bool>)
    requires |mask| == |s|
    requires forall i :: 0 <= i < |s| ==> mask[i]
    ensures Where(s, mask) == s
  {
    if |s| > 0 {
      WhereAll(s[1..], mask[1..]);
      assert s == [s[0]] + s[1..];
    }
  }

  /** A mask that selects no row gives the empty frame. */
  lemma {:induction false} WhereNone<T>(s: seq<T>, mask: seq<bool>)
    requires |mask| == |s|
    requires forall i :: 0 <= i < |s| ==> !mask[i]
    ensures Where(s, mask) == []
  {
    if |s| > 0 {
      WhereNone(s[1..], mask[1..]);
    }
  }

  /** Taking a column commutes with boolean indexing. */
  lemma {:induction false} ColumnOfWhere<T, U>(s: seq<T>, mask: seq<bool>, f: T -> U)
    requires |mask| == |s|
    ensures Column(Where(s, mask), f) == Where(Column(s, f), mask)
  {
    if |s| > 0 {
      ColumnOfWhere(s[1..], mask[1..], f);
      assert Column(s, f)[1..] == Column(s[1..], f);
      var head := if mask[0] then [s[0]] else [];
      assert Where(s, mask) == head + Where(s[1..], mask[1..]);
      assert Column(head + Where(s[1..], mask[1..]), f) == Column(head, f) + Column(Where(s[1..], mask[1..]), f);
    }
  }

  /** `df[m][p(df[m])]` is `df[m & p(df)]` for a row predicate `p`. */
  lemma {:induction false} WhereOfWhere<T>(s: seq<T>, mask: seq<bool>, p: T -> bool)
    requires |mask| == |s|
    ensures Where(Where(s, mask), Column(Where(s, mask), p)) == Where(s, AndMask(mask, Column(s, p)))
  {
    if |s| > 0 {
      var inner := Where(s[1..], mask[1..]);
      WhereOfWhere(s[1..], mask[1..], p);
      assert AndMask(mask, Column(s, p))[1..] == AndMask(mask[1..], Column(s[1..], p));
      if mask[0] {
        var w := [s[0]] + inner;
        assert Where(s, mask) == w;
        assert w[1..] == inner;
        assert Column(w, p)[1..] == Column(inner, p);
      } else {
        assert Where(s, mask) == inner;
      }
    }
  }

  /** Boolean indexing of stacked frames is the stacking of their selections. */
  lemma {:induction false} WhereAppend<T>(s: seq<T>, ms: seq<bool>, t: seq<T>, mt: seq<bool>)
    requires |ms| == |s| && |mt| == |t|
    ensures Where(s + t, ms + mt) == Where(s, ms) + Where(t, mt)
  {
    if |s| == 0 {
      assert s + t == t && ms + mt == mt;
    } else {
      var st, mst := s + t, ms + mt;
      assert st[0] == s[0] && mst[0] == ms[0];
      assert st[1..] == s[1..] + t && mst[1..] == ms[1..] + mt;
      WhereAppend(s[1..], ms[1..], t, mt);
      var head := if ms[0] then [s[0]] else [];
      var a, b := Where(s[1..], ms[1..]), Where(t, mt);
      assert Where(st, mst) == head + (a + b);
      assert Where(s, ms) == head + a;
      assert head + (a + b) == (head + a) + b;
    }
  }
}
