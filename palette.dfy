/** The palette of a paletted section as plain values: the palette itself
    (palette id -> global block id), the reverse map (global id -> palette
    id), the per-id cell counts, and what inserting or removing a palette
    entry does to each of them and to the cells that refer to them. */
module Palette {
  import opened Counting

  /** `s` with `x` inserted at index `i` (`Vec::insert`). */
  function InsertAt<T>(s: seq<T>, i: nat, x: T): (r: seq<T>)
    requires i <= |s|
    ensures |r| == |s| + 1 && r[i] == x
    ensures forall j :: 0 <= j < i ==> r[j] == s[j]
    ensures forall j :: i < j < |r| ==> r[j] == s[j - 1]
  {
    s[..i] + [x] + s[i..]
  }

  /** `s` without its entry at index `i` (`Vec::remove`). */
  function RemoveAt<T>(s: seq<T>, i: nat): (r: seq<T>)
    requires i < |s|
    ensures |r| == |s| - 1
    ensures forall j :: 0 <= j < i ==> r[j] == s[j]
    ensures forall j :: i <= j < |r| ==> r[j] == s[j + 1]
  {
    s[..i] + s[i + 1..]
  }

  /** `rev` maps every palette entry to its index, and nothing else. */
  ghost predicate Inverts(rev: map<nat, nat>, palette: seq<nat>)
  {
    (forall i :: 0 <= i < |palette| ==> palette[i] in rev && rev[palette[i]] == i) &&
    (forall g :: g in rev ==> rev[g] < |palette| && palette[rev[g]] == g)
  }

  /** The palette entries are strictly ascending (hence distinct). */
  predicate Ascending(palette: seq<nat>)
  {
    forall i, j :: 0 <= i < j < |palette| ==> palette[i] < palette[j]
  }

  /** No global id occurs twice in the palette. */
  predicate Distinct(palette: seq<nat>)
  {
    forall i, j :: 0 <= i < j < |palette| ==> palette[i] != palette[j]
  }

  /** The reverse map after an entry is inserted at `pid`: every palette id
      at or above `pid` moves up by one (the `iter_mut` loop of `insert`). */
  function ShiftMapUp(rev: map<nat, nat>, pid: nat): (r: map<nat, nat>)
    ensures r.Keys == rev.Keys
    ensures forall g :: g in rev ==> r[g] == if rev[g] >= pid then rev[g] + 1 else rev[g]
  {
    map g | g in rev :: if rev[g] >= pid then rev[g] + 1 else rev[g]
  }

  /** The reverse map after entry `id` is removed: every palette id above
      `id` moves down by one (the `iter_mut` loop of `remove`). */
  function ShiftMapDown(rev: map<nat, nat>, id: nat): (r: map<nat, nat>)
    ensures r.Keys == rev.Keys
    ensures forall g :: g in rev ==> r[g] == if rev[g] > id then rev[g] - 1 else rev[g]
  {
    map g | g in rev :: if rev[g] > id then rev[g] - 1 else rev[g]
  }

  /** The reverse map built by inserting `(palette[i], i)` for every `i` in
      order: a later duplicate overwrites an earlier one. */
  function ReverseOf(palette: seq<nat>): (r: map<nat, nat>)
    ensures forall g :: g in r <==> g in palette
  {
    if |palette| == 0 then map[]
    else ReverseOf(palette[..|palette| - 1])[palette[|palette| - 1] := |palette| - 1]
  }

  // ---------------------------------------------------------------------
  // The reverse map stays the inverse of the palette

  /** Inserting a new global id keeps the reverse map the exact inverse. */
  lemma InsertInverts(rev: map<nat, nat>, palette: seq<nat>, ty: nat, pid: nat)
    requires Inverts(rev, palette) && ty !in rev && pid <= |palette|
    ensures Inverts(ShiftMapUp(rev, pid)[ty := pid], InsertAt(palette, pid, ty))
  {
    var r := ShiftMapUp(rev, pid)[ty := pid];
    var p := InsertAt(palette, pid, ty);
    forall i | 0 <= i < |p|
      ensures p[i] in r && r[p[i]] == i
    {
      if i > pid {
        assert p[i] == palette[i - 1];
      }
    }
  }

  /** Removing a palette entry keeps the reverse map the exact inverse. */
  lemma RemoveInverts(rev: map<nat, nat>, palette: seq<nat>, id: nat)
    requires Inverts(rev, palette) && id < |palette|
    ensures Inverts(ShiftMapDown(rev, id) - {palette[id]}, RemoveAt(palette, id))
  {
    var r := ShiftMapDown(rev, id) - {palette[id]};
    var p := RemoveAt(palette, id);
    forall i | 0 <= i < |p|
      ensures p[i] in r && r[p[i]] == i
    {
      if i >= id {
        assert p[i] == palette[i + 1];
        assert palette[i + 1] != palette[id] by {
          assert rev[palette[i + 1]] == i + 1;
        }
      } else {
        assert palette[i] != palette[id] by {
          assert rev[palette[i]] == i;
        }
      }
    }
    forall g | g in r
      ensures r[g] < |p| && p[r[g]] == g
    {
      assert rev[g] != id;
    }
  }

  /** The reverse map a palette without duplicates builds is its inverse. */
  lemma {:induction false} ReverseOfInverts(palette: seq<nat>)
    requires Distinct(palette)
    ensures Inverts(ReverseOf(palette), palette)
  {
    if |palette| > 0 {
      var n := |palette| - 1;
      var init := palette[..n];
      ReverseOfInverts(init);
      var r := ReverseOf(palette);
      forall i | 0 <= i < |palette|
        ensures palette[i] in r && r[palette[i]] == i
      {
        if i < n {
          assert palette[i] == init[i];
        }
      }
    }
  }

  /** Without duplicates the palette and the reverse map have the same size. */
  lemma InvertsDistinct(rev: map<nat, nat>, palette: seq<nat>)
    requires Inverts(rev, palette)
    ensures Distinct(palette)
  {
    forall i, j | 0 <= i < j < |palette|
      ensures palette[i] != palette[j]
    {
      assert rev[palette[i]] == i && rev[palette[j]] == j;
    }
  }

  // ---------------------------------------------------------------------
  // Order

  /** Inserting `ty` in front of the first larger entry keeps an ascending
      palette ascending. */
  lemma InsertAscending(palette: seq<nat>, ty: nat, pid: nat)
    requires Ascending(palette) && pid <= |palette|
    requires forall i :: 0 <= i < pid ==> palette[i] < ty
    requires pid < |palette| ==> ty < palette[pid]
    ensures Ascending(InsertAt(palette, pid, ty))
  {
    var p := InsertAt(palette, pid, ty);
    forall i, j | 0 <= i < j < |p|
      ensures p[i] < p[j]
    {
      if j > pid && i != pid {
        assert p[j] == palette[j - 1];
        if i > pid { assert p[i] == palette[i - 1]; }
      } else if j > pid {
        assert palette[pid] <= palette[j - 1];
      } else if i < pid && j == pid {
      }
    }
  }

  lemma RemoveAscending(palette: seq<nat>, id: nat)
    requires Ascending(palette) && id < |palette|
    ensures Ascending(RemoveAt(palette, id))
  {
    var p := RemoveAt(palette, id);
    forall i, j | 0 <= i < j < |p|
      ensures p[i] < p[j]
    {
      var i' := if i < id then i else i + 1;
      var j' := if j < id then j else j + 1;
      assert p[i] == palette[i'] && p[j] == palette[j'];
    }
  }

  // ---------------------------------------------------------------------
  // Cell counts

  /** Every cell holds a palette id below `n`. */
  predicate InRange(cells: seq<int>, n: nat)
  {
    forall d :: 0 <= d < |cells| ==> 0 <= cells[d] < n
  }

  /** Moving every id at or above `id` down by one keeps the cells in the
      shorter palette. */
  lemma ShiftDownInRange(cells: seq<int>, id: nat, n: nat)
    requires InRange(cells, n) && 0 < id < n
    ensures InRange(ShiftDown(cells, id), n - 1)
  {
  }

  /** `amounts[i]` is the number of cells holding palette id `i`. */
  ghost predicate CountsMatch(amounts: seq<nat>, cells: seq<int>)
  {
    forall i :: 0 <= i < |amounts| ==> amounts[i] == Count(cells, i)
  }

  /** A new palette entry starts with no cells (`insert` puts a 0 into
      `block_amounts`), and every other count moves with its id. */
  lemma CountsInsert(amounts: seq<nat>, cells: seq<int>, pid: nat)
    requires CountsMatch(amounts, cells) && pid <= |amounts|
    ensures CountsMatch(InsertAt(amounts, pid, 0), ShiftUp(cells, pid))
  {
    var a := InsertAt(amounts, pid, 0);
    forall v | 0 <= v < |a|
      ensures a[v] == Count(ShiftUp(cells, pid), v)
    {
      CountShiftUp(cells, pid, v);
    }
  }

  /** Removing an entry no cell uses moves every later count down with its id. */
  lemma CountsRemove(amounts: seq<nat>, cells: seq<int>, id: nat)
    requires CountsMatch(amounts, cells) && id < |amounts| && amounts[id] == 0
    ensures CountsMatch(RemoveAt(amounts, id), ShiftDown(cells, id))
  {
    var a := RemoveAt(amounts, id);
    forall v | 0 <= v < |a|
      ensures a[v] == Count(ShiftDown(cells, id), v)
    {
      CountShiftDown(cells, id, v);
    }
  }

  /** Moving one cell from palette id `prev` to `pid` moves one unit of count. */
  lemma CountsMove(amounts: seq<nat>, cells: seq<int>, c: nat, prev: nat, pid: nat)
    requires CountsMatch(amounts, cells) && c < |cells| && cells[c] == prev
    requires prev < |amounts| && pid < |amounts| && prev != pid
    ensures amounts[prev] >= 1
    ensures CountsMatch(amounts[pid := amounts[pid] + 1][prev := amounts[prev] - 1],
                        cells[c := pid])
  {
    CountPresent(cells, prev, c);
    var a := amounts[pid := amounts[pid] + 1][prev := amounts[prev] - 1];
    forall v | 0 <= v < |a|
      ensures a[v] == Count(cells[c := pid], v)
    {
      CountUpdate(cells, c, pid, v);
    }
  }

  /** The counts of a section add up to its number of cells. */
  lemma CountsSum(amounts: seq<nat>, cells: seq<int>)
    requires CountsMatch(amounts, cells) && InRange(cells, |amounts|)
    ensures Sum(amounts) == |cells|
  {
    assert amounts == Counts(cells, |amounts|);
    SumCounts(cells, |amounts|);
  }

  /** A palette whose non-air entries are all used but `unused` of them has
      at most `1 + unused + |cells|` entries. */
  lemma PaletteBound(amounts: seq<nat>, cells: seq<int>)
    requires CountsMatch(amounts, cells) && InRange(cells, |amounts|) && |amounts| >= 1
    ensures |amounts| <= 1 + ZeroCount(amounts[1..]) + |cells|
  {
    CountsSum(amounts, cells);
    assert amounts == [amounts[0]] + amounts[1..];
    SumAppend([amounts[0]], amounts[1..]);
    LengthBound(amounts[1..]);
  }

  /** A palette whose non-air entries all have cells has at most one entry
      per cell besides air, whatever else the cells hold. */
  lemma CountsBound(amounts: seq<nat>, cells: seq<int>)
    requires CountsMatch(amounts, cells) && |amounts| >= 1
    requires forall i :: 1 <= i < |amounts| ==> amounts[i] != 0
    ensures |amounts| <= 1 + |cells|
  {
    assert amounts == Counts(cells, |amounts|);
    SumCountsBound(cells, |amounts|);
    assert amounts == [amounts[0]] + amounts[1..];
    SumAppend([amounts[0]], amounts[1..]);
    ZeroCountNone(amounts[1..]);
    LengthBound(amounts[1..]);
  }

  // ---------------------------------------------------------------------
  // The blocks the cells stand for

  /** The global block id of every cell. */
  function BlocksOf(palette: seq<nat>, cells: seq<int>): (r: seq<nat>)
    requires InRange(cells, |palette|)
    ensures |r| == |cells|
    ensures forall d :: 0 <= d < |cells| ==> r[d] == palette[cells[d]]
  {
    seq(|cells|, d requires 0 <= d < |cells| => palette[cells[d]])
  }

  /** Storing palette id `id` in cell `c` makes that cell's block `palette[id]`
      and leaves every other block as it was. */
  lemma BlocksSet(palette: seq<nat>, cells: seq<int>, c: nat, id: nat)
    requires InRange(cells, |palette|) && c < |cells| && id < |palette|
    ensures InRange(cells[c := id], |palette|)
    ensures BlocksOf(palette, cells[c := id]) == BlocksOf(palette, cells)[c := palette[id]]
  {
  }

  /** Inserting a palette entry and renumbering the cells changes no block. */
  lemma BlocksInsert(palette: seq<nat>, cells: seq<int>, pid: nat, ty: nat)
    requires InRange(cells, |palette|) && pid <= |palette|
    ensures InRange(ShiftUp(cells, pid), |palette| + 1)
    ensures BlocksOf(InsertAt(palette, pid, ty), ShiftUp(cells, pid)) == BlocksOf(palette, cells)
  {
  }

  /** Removing a palette entry no cell uses and renumbering the cells changes
      no block. */
  lemma BlocksRemove(palette: seq<nat>, cells: seq<int>, id: nat)
    requires InRange(cells, |palette|) && id < |palette| && Count(cells, id) == 0
    ensures InRange(ShiftDown(cells, id), |palette| - 1)
    ensures BlocksOf(RemoveAt(palette, id), ShiftDown(cells, id)) == BlocksOf(palette, cells)
  {
    forall d | 0 <= d < |cells|
      ensures cells[d] != id
    {
      CountZeroAbsent(cells, id, d);
    }
  }
}
