/** Counting over the cells of a section: how many cells hold a palette id,
    the sum of the per-id amounts, and what happens to both when palette ids
    above a point move up or down by one (a palette entry inserted or
    removed). Cells are integers so that a cell can be marked `-1`
    ("being overwritten") while a fill is in progress. */
module Counting {

  /** Number of entries of `s` equal to `v`. */
  function Count(s: seq<int>, v: int): (r: nat)
    ensures r <= |s|
  {
    if |s| == 0 then 0 else (if s[0] == v then 1 else 0) + Count(s[1..], v)
  }

  /** Sum of a sequence of amounts. */
  function Sum(a: seq<nat>): nat
  {
    if |a| == 0 then 0 else a[0] + Sum(a[1..])
  }

  /** Number of zero amounts. */
  function ZeroCount(a: seq<nat>): (r: nat)
    ensures r <= |a|
  {
    if |a| == 0 then 0 else (if a[0] == 0 then 1 else 0) + ZeroCount(a[1..])
  }

  /** The cells after palette entry `id` was inserted: every id at or above
      `id` moves up by one. */
  function ShiftUp(s: seq<int>, id: int): (r: seq<int>)
    ensures |r| == |s|
    ensures forall i :: 0 <= i < |s| ==> r[i] == if s[i] >= id then s[i] + 1 else s[i]
  {
    seq(|s|, i requires 0 <= i < |s| => if s[i] >= id then s[i] + 1 else s[i])
  }

  /** The cells after palette entry `id` was removed: every id at or above
      `id` moves down by one. */
  function ShiftDown(s: seq<int>, id: int): (r: seq<int>)
    ensures |r| == |s|
    ensures forall i :: 0 <= i < |s| ==> r[i] == if s[i] >= id then s[i] - 1 else s[i]
  {
    seq(|s|, i requires 0 <= i < |s| => if s[i] >= id then s[i] - 1 else s[i])
  }

  // ---------------------------------------------------------------------
  // Count

  lemma {:induction false} CountAppend(s: seq<int>, t: seq<int>, v: int)
    ensures Count(s + t, v) == Count(s, v) + Count(t, v)
  {
    if |s| > 0 {
      assert (s + t)[1..] == s[1..] + t;
      CountAppend(s[1..], t, v);
    } else {
      assert s + t == t;
    }
  }

  lemma CountSingle(x: int, v: int)
    ensures Count([x], v) == if x == v then 1 else 0
  {
    assert [x][1..] == [];
  }

  /** Changing one cell moves one unit of count from its old value to its new one. */
  lemma CountUpdate(s: seq<int>, i: nat, x: int, v: int)
    requires i < |s|
    ensures Count(s[i := x], v)
         == Count(s, v) - (if s[i] == v then 1 else 0) + (if x == v then 1 else 0)
  {
    assert s == s[..i] + [s[i]] + s[i + 1..];
    assert s[i := x] == s[..i] + [x] + s[i + 1..];
    CountAppend(s[..i] + [s[i]], s[i + 1..], v);
    CountAppend(s[..i], [s[i]], v);
    CountAppend(s[..i] + [x], s[i + 1..], v);
    CountAppend(s[..i], [x], v);
    CountSingle(s[i], v);
    CountSingle(x, v);
  }

  /** Every cell of a uniform sequence holds the same value. */
  lemma {:induction false} CountUniform(n: nat, x: int, v: int)
    ensures Count(seq(n, _ => x), v) == if x == v then n else 0
  {
    if n > 0 {
      assert seq(n, _ => x)[1..] == seq(n - 1, _ => x);
      CountUniform(n - 1, x, v);
    }
  }

  /** A value with count zero occurs nowhere. */
  lemma {:induction false} CountZeroAbsent(s: seq<int>, v: int, i: nat)
    requires Count(s, v) == 0 && i < |s|
    ensures s[i] != v
  {
    if i > 0 {
      CountZeroAbsent(s[1..], v, i - 1);
    }
  }

  /** A value that occurs nowhere has count zero. */
  lemma {:induction false} CountAbsent(s: seq<int>, v: int)
    requires forall i :: 0 <= i < |s| ==> s[i] != v
    ensures Count(s, v) == 0
  {
    if |s| > 0 {
      CountAbsent(s[1..], v);
    }
  }

  /** A value that occurs somewhere has a positive count. */
  lemma CountPresent(s: seq<int>, v: int, i: nat)
    requires i < |s| && s[i] == v
    ensures Count(s, v) > 0
  {
    if Count(s, v) == 0 {
      CountZeroAbsent(s, v, i);
    }
  }

  /** Inserting a palette entry: ids below `id` keep their counts, nothing
      holds `id`, and ids above it hold what the id one lower held. */
  lemma {:induction false} CountShiftUp(s: seq<int>, id: int, v: int)
    ensures Count(ShiftUp(s, id), v)
         == if v < id then Count(s, v) else if v == id then 0 else Count(s, v - 1)
  {
    if |s| > 0 {
      assert ShiftUp(s, id)[1..] == ShiftUp(s[1..], id);
      CountShiftUp(s[1..], id, v);
    }
  }

  /** Removing a palette entry that no cell holds: ids below `id` keep their
      counts, and every id at or above it holds what the id one higher held. */
  lemma {:induction false} CountShiftDown(s: seq<int>, id: int, v: int)
    requires Count(s, id) == 0
    ensures Count(ShiftDown(s, id), v) == if v < id then Count(s, v) else Count(s, v + 1)
  {
    if |s| > 0 {
      assert ShiftDown(s, id)[1..] == ShiftDown(s[1..], id);
      CountShiftDown(s[1..], id, v);
    }
  }

  // ---------------------------------------------------------------------
  // Sum and ZeroCount

  lemma {:induction false} SumAppend(a: seq<nat>, b: seq<nat>)
    ensures Sum(a + b) == Sum(a) + Sum(b)
  {
    if |a| > 0 {
      assert (a + b)[1..] == a[1..] + b;
      SumAppend(a[1..], b);
    } else {
      assert a + b == b;
    }
  }

  lemma {:induction false} ZeroCountAppend(a: seq<nat>, b: seq<nat>)
    ensures ZeroCount(a + b) == ZeroCount(a) + ZeroCount(b)
  {
    if |a| > 0 {
      assert (a + b)[1..] == a[1..] + b;
      ZeroCountAppend(a[1..], b);
    } else {
      assert a + b == b;
    }
  }

  /** Every amount is zero or counts at least one toward the sum. */
  lemma {:induction false} LengthBound(a: seq<nat>)
    ensures |a| <= ZeroCount(a) + Sum(a)
  {
    if |a| > 0 {
      LengthBound(a[1..]);
    }
  }

  /** The per-id counts of cells that all hold an id below `n`. */
  function Counts(s: seq<int>, n: nat): (r: seq<nat>)
    ensures |r| == n
    ensures forall i :: 0 <= i < n ==> r[i] == Count(s, i)
  {
    seq(n, i requires 0 <= i < n => Count(s, i))
  }

  /** The counts of cells drawn from `0..n` add up to the number of cells. */
  lemma {:induction false} SumCounts(s: seq<int>, n: nat)
    requires forall i :: 0 <= i < |s| ==> 0 <= s[i] < n
    ensures Sum(Counts(s, n)) == |s|
  {
    if |s| > 0 {
      var t := s[1..];
      SumCounts(t, n);
      var x := s[0];
      var ct := Counts(t, n);
      assert Counts(s, n) == ct[x := ct[x] + 1] by {
        forall i | 0 <= i < n
          ensures Counts(s, n)[i] == ct[x := ct[x] + 1][i]
        {
          assert s == [x] + t;
          CountAppend([x], t, i);
          CountSingle(x, i);
        }
      }
      SumUpdate(ct, x, ct[x] + 1);
    } else {
      SumZeros(Counts(s, n));
    }
  }

  /** The counts of any cells up to `n` add up to at most the number of cells. */
  lemma {:induction false} SumCountsBound(s: seq<int>, n: nat)
    ensures Sum(Counts(s, n)) <= |s|
  {
    if |s| > 0 {
      var t := s[1..];
      SumCountsBound(t, n);
      var x := s[0];
      var ct := Counts(t, n);
      assert s == [x] + t;
      if 0 <= x < n {
        assert Counts(s, n) == ct[x := ct[x] + 1] by {
          forall i | 0 <= i < n
            ensures Counts(s, n)[i] == ct[x := ct[x] + 1][i]
          {
            CountAppend([x], t, i);
            CountSingle(x, i);
          }
        }
        SumUpdate(ct, x, ct[x] + 1);
      } else {
        assert Counts(s, n) == ct by {
          forall i | 0 <= i < n
            ensures Counts(s, n)[i] == ct[i]
          {
            CountAppend([x], t, i);
            CountSingle(x, i);
          }
        }
      }
    } else {
      SumZeros(Counts(s, n));
    }
  }

  /** A sequence without zeros has no zero count. */
  lemma {:induction false} ZeroCountNone(a: seq<nat>)
    requires forall i :: 0 <= i < |a| ==> a[i] != 0
    ensures ZeroCount(a) == 0
  {
    if |a| > 0 {
      ZeroCountNone(a[1..]);
    }
  }

  lemma {:induction false} SumZeros(a: seq<nat>)
    requires forall i :: 0 <= i < |a| ==> a[i] == 0
    ensures Sum(a) == 0
  {
    if |a| > 0 {
      SumZeros(a[1..]);
    }
  }

  lemma SumUpdate(a: seq<nat>, i: nat, x: nat)
    requires i < |a|
    ensures Sum(a[i := x]) == Sum(a) - a[i] + x
  {
    assert a == a[..i] + [a[i]] + a[i + 1..];
    assert a[i := x] == a[..i] + [x] + a[i + 1..];
    SumAppend(a[..i] + [a[i]], a[i + 1..]);
    SumAppend(a[..i], [a[i]]);
    SumAppend(a[..i] + [x], a[i + 1..]);
    SumAppend(a[..i], [x]);
    assert Sum([a[i]]) == a[i] by { assert [a[i]][1..] == []; }
    assert Sum([x]) == x by { assert [x][1..] == []; }
  }

  lemma ZeroCountUpdate(a: seq<nat>, i: nat, x: nat)
    requires i < |a|
    ensures ZeroCount(a[i := x])
         == ZeroCount(a) - (if a[i] == 0 then 1 else 0) + (if x == 0 then 1 else 0)
  {
    assert a == a[..i] + [a[i]] + a[i + 1..];
    assert a[i := x] == a[..i] + [x] + a[i + 1..];
    ZeroCountAppend(a[..i] + [a[i]], a[i + 1..]);
    ZeroCountAppend(a[..i], [a[i]]);
    ZeroCountAppend(a[..i] + [x], a[i + 1..]);
    ZeroCountAppend(a[..i], [x]);
    assert ZeroCount([a[i]]) == (if a[i] == 0 then 1 else 0) by { assert [a[i]][1..] == []; }
    assert ZeroCount([x]) == (if x == 0 then 1 else 0) by { assert [x][1..] == []; }
  }

  lemma ZeroCountInsert(a: seq<nat>, i: nat, x: nat)
    requires i <= |a|
    ensures ZeroCount(a[..i] + [x] + a[i..]) == ZeroCount(a) + (if x == 0 then 1 else 0)
  {
    assert a == a[..i] + a[i..];
    ZeroCountAppend(a[..i], a[i..]);
    ZeroCountAppend(a[..i] + [x], a[i..]);
    ZeroCountAppend(a[..i], [x]);
    assert ZeroCount([x]) == (if x == 0 then 1 else 0) by { assert [x][1..] == []; }
  }

  lemma {:induction false} ZeroCountRemove(a: seq<nat>, i: nat)
    requires i < |a|
    ensures ZeroCount(a[..i] + a[i + 1..]) == ZeroCount(a) - (if a[i] == 0 then 1 else 0)
  {
    if i == 0 {
      assert a[..0] + a[1..] == a[1..];
    } else {
      var t := a[1..];
      ZeroCountRemove(t, i - 1);
      assert a[..i] + a[i + 1..] == [a[0]] + (t[..i - 1] + t[i..]);
      assert ([a[0]] + (t[..i - 1] + t[i..]))[1..] == t[..i - 1] + t[i..];
    }
  }

  lemma SumPrefixBound(a: seq<nat>, i: nat)
    requires i <= |a|
    ensures Sum(a[i..]) <= Sum(a)
  {
    assert a == a[..i] + a[i..];
    SumAppend(a[..i], a[i..]);
  }
}
