/** The box walks of `fill`: three nested loops over y, then z, then x, each
    from its lower bound to its upper bound inclusive. `Marked` is what a walk
    has done to the cells when it reaches a position, `Filled` what it has
    done once it is over; the lemmas connect the loop bounds of one step to
    those of the next. */
module Box {
  import opened Geometry
  import opened Counting
  import opened Palette
  import opened Wrappers

  /** `p` comes strictly before (x, y, z) in the order of the walk. */
  predicate Before(p: Pos, y: int, z: int, x: int)
  {
    p.y < y || (p.y == y && (p.z < z || (p.z == z && p.x < x)))
  }

  /** Cell `d` is in the box and the walk has passed it on reaching (x, y, z). */
  predicate Visited(d: nat, min: Pos, max: Pos, y: int, z: int, x: int)
    requires d < CELLS
  {
    CellInBox(d, min, max) && Before(PosOf(d), y, z, x)
  }

  /** `cells` with every cell the walk has passed on reaching (x, y, z) set to `v`. */
  function Marked(cells: seq<int>, min: Pos, max: Pos, y: int, z: int, x: int, v: int): (r: seq<int>)
    requires |cells| == CELLS
    ensures |r| == CELLS
    ensures forall d :: 0 <= d < CELLS ==> r[d] == if Visited(d, min, max, y, z, x) then v else cells[d]
  {
    seq(CELLS, d requires 0 <= d < CELLS => if Visited(d, min, max, y, z, x) then v else cells[d])
  }

  /** `s` with every cell of the box set to `v`. */
  function Filled<T>(s: seq<T>, min: Pos, max: Pos, v: T): (r: seq<T>)
    requires |s| == CELLS
    ensures |r| == CELLS
    ensures forall d :: 0 <= d < CELLS ==> r[d] == if CellInBox(d, min, max) then v else s[d]
  {
    seq(CELLS, d requires 0 <= d < CELLS => if CellInBox(d, min, max) then v else s[d])
  }

  /** A box whose bounds are in order and inside the section. */
  predicate Ordered(min: Pos, max: Pos)
  {
    InSection(min) && InSection(max) && min.x <= max.x && min.y <= max.y && min.z <= max.z
  }

  // ---------------------------------------------------------------------
  // The walk, step by step

  /** Before the first step nothing is marked. */
  lemma WalkStart(cells: seq<int>, min: Pos, max: Pos, v: int)
    requires |cells| == CELLS
    ensures Marked(cells, min, max, min.y, min.z, min.x, v) == cells
  {
  }

  /** One step of the innermost loop marks exactly the cell at (x, y, z),
      which was not marked before. */
  lemma WalkStep(cells: seq<int>, min: Pos, max: Pos, y: int, z: int, x: int, v: int)
    requires |cells| == CELLS && Ordered(min, max)
    requires InBox(Pos(x, y, z), min, max)
    ensures InSection(Pos(x, y, z))
    ensures !Visited(Index(Pos(x, y, z)), min, max, y, z, x)
    ensures Marked(cells, min, max, y, z, x + 1, v)
         == Marked(cells, min, max, y, z, x, v)[Index(Pos(x, y, z)) := v]
  {
    var c := Index(Pos(x, y, z));
    PosOfIndex(Pos(x, y, z));
    forall d | 0 <= d < CELLS
      ensures Visited(d, min, max, y, z, x + 1) == (Visited(d, min, max, y, z, x) || d == c)
    {
      IndexPosOf(d);
    }
  }

  /** The end of a row (x past its bound) is the start of the next row. */
  lemma WalkRowEnd(cells: seq<int>, min: Pos, max: Pos, y: int, z: int, v: int)
    requires |cells| == CELLS
    ensures Marked(cells, min, max, y, z, max.x + 1, v) == Marked(cells, min, max, y, z + 1, min.x, v)
  {
  }

  /** The end of a layer (z past its bound) is the start of the next layer. */
  lemma WalkLayerEnd(cells: seq<int>, min: Pos, max: Pos, y: int, v: int)
    requires |cells| == CELLS
    ensures Marked(cells, min, max, y, max.z + 1, min.x, v) == Marked(cells, min, max, y + 1, min.z, min.x, v)
  {
  }

  /** At the end of the walk every cell of the box is marked. */
  lemma WalkEnd(cells: seq<int>, min: Pos, max: Pos, v: int)
    requires |cells| == CELLS
    ensures Marked(cells, min, max, max.y + 1, min.z, min.x, v) == Filled(cells, min, max, v)
  {
  }

  // ---------------------------------------------------------------------
  // Counting while the box is walked

  /** Taking one more cell out of the counts: its palette id had a positive
      amount, which drops by one, and one more cell is marked `-1`. */
  lemma UncountStep(amounts: seq<nat>, s: seq<int>, c: nat)
    requires CountsMatch(amounts, s) && c < |s| && 0 <= s[c] < |amounts|
    ensures amounts[s[c]] >= 1
    ensures CountsMatch(amounts[s[c] := amounts[s[c]] - 1], s[c := -1])
    ensures Count(s[c := -1], -1) == Count(s, -1) + 1
  {
    var id := s[c];
    CountPresent(s, id, c);
    CountUpdate(s, c, -1, -1);
    var a := amounts[id := amounts[id] - 1];
    forall v | 0 <= v < |a|
      ensures a[v] == Count(s[c := -1], v)
    {
      CountUpdate(s, c, -1, v);
    }
  }

  /** One step of the first loop of `fill`: the cell at (x, y, z), still
      unmarked, gives back one unit of its id's amount and is marked. */
  lemma UncountWalkStep(amounts: seq<nat>, cells: seq<int>, min: Pos, max: Pos, y: int, z: int, x: int)
    requires |cells| == CELLS && Ordered(min, max) && InBox(Pos(x, y, z), min, max)
    requires CountsMatch(amounts, Marked(cells, min, max, y, z, x, -1))
    requires InRange(cells, |amounts|)
    ensures InSection(Pos(x, y, z))
    ensures amounts[cells[Index(Pos(x, y, z))]] >= 1
    ensures CountsMatch(amounts[cells[Index(Pos(x, y, z))] := amounts[cells[Index(Pos(x, y, z))]] - 1],
                        Marked(cells, min, max, y, z, x + 1, -1))
    ensures Count(Marked(cells, min, max, y, z, x + 1, -1), -1) == Count(Marked(cells, min, max, y, z, x, -1), -1) + 1
  {
    var c := Index(Pos(x, y, z));
    var m := Marked(cells, min, max, y, z, x, -1);
    WalkStep(cells, min, max, y, z, x, -1);
    assert m[c] == cells[c];
    UncountStep(amounts, m, c);
  }

  /** `s` with every `-1` replaced by `v`. */
  function Unmark(s: seq<int>, v: int): (r: seq<int>)
    ensures |r| == |s|
    ensures forall d :: 0 <= d < |s| ==> r[d] == if s[d] == -1 then v else s[d]
  {
    seq(|s|, d requires 0 <= d < |s| => if s[d] == -1 then v else s[d])
  }

  /** Filling the marked cells with `v` adds them to the count of `v`. */
  lemma {:induction false} CountUnmark(s: seq<int>, v: int, i: int)
    requires v != -1 && i != -1
    ensures Count(Unmark(s, v), i) == Count(s, i) + (if i == v then Count(s, -1) else 0)
  {
    if |s| > 0 {
      assert Unmark(s, v)[1..] == Unmark(s[1..], v);
      CountUnmark(s[1..], v, i);
    }
  }

  /** Once the counts leave out the box, adding its volume to the amount of
      `pid` makes them the counts of the box filled with `pid`. */
  lemma CountsFill(amounts: seq<nat>, cells: seq<int>, min: Pos, max: Pos, pid: nat)
    requires |cells| == CELLS && InRange(cells, |amounts|) && pid < |amounts|
    requires CountsMatch(amounts, Filled(cells, min, max, -1))
    ensures CountsMatch(amounts[pid := amounts[pid] + Count(Filled(cells, min, max, -1), -1)],
                        Filled(cells, min, max, pid))
  {
    var f := Filled(cells, min, max, -1);
    assert Filled(cells, min, max, pid) == Unmark(f, pid);
    forall i | 0 <= i < |amounts|
      ensures amounts[pid := amounts[pid] + Count(f, -1)][i] == Count(Filled(cells, min, max, pid), i)
    {
      CountUnmark(f, pid, i);
    }
  }

  /** Renumbering the palette ids of the cells leaves the marks alone. */
  lemma FilledShiftDown(cells: seq<int>, min: Pos, max: Pos, id: nat)
    requires |cells| == CELLS
    ensures Filled(ShiftDown(cells, id), min, max, -1) == ShiftDown(Filled(cells, min, max, -1), id)
  {
  }

  lemma FilledShiftUp(cells: seq<int>, min: Pos, max: Pos, id: nat)
    requires |cells| == CELLS
    ensures Filled(ShiftUp(cells, id), min, max, -1) == ShiftUp(Filled(cells, min, max, -1), id)
  {
  }

  // ---------------------------------------------------------------------
  // The blocks outside the box

  /** The global block of every cell outside the box; `-1` inside it. */
  function Outside(palette: seq<nat>, cells: seq<int>, min: Pos, max: Pos): (r: seq<int>)
    requires |cells| == CELLS && InRange(cells, |palette|)
    ensures |r| == CELLS
    ensures forall d :: 0 <= d < CELLS ==> r[d] == if CellInBox(d, min, max) then -1 else palette[cells[d]]
  {
    seq(CELLS, d requires 0 <= d < CELLS => if CellInBox(d, min, max) then -1 else palette[cells[d]] as int)
  }

  /** Removing a palette entry that no cell outside the box uses keeps every
      block outside the box. */
  lemma OutsideRemove(palette: seq<nat>, cells: seq<int>, min: Pos, max: Pos, id: nat)
    requires |cells| == CELLS && InRange(cells, |palette|) && 0 < id < |palette|
    requires Count(Filled(cells, min, max, -1), id) == 0
    ensures InRange(ShiftDown(cells, id), |palette| - 1)
    ensures Outside(RemoveAt(palette, id), ShiftDown(cells, id), min, max) == Outside(palette, cells, min, max)
  {
    forall d | 0 <= d < CELLS && !CellInBox(d, min, max)
      ensures cells[d] != id
    {
      CountZeroAbsent(Filled(cells, min, max, -1), id, d);
    }
  }

  /** Inserting a palette entry keeps every block outside the box. */
  lemma OutsideInsert(palette: seq<nat>, cells: seq<int>, min: Pos, max: Pos, pid: nat, ty: nat)
    requires |cells| == CELLS && InRange(cells, |palette|) && pid <= |palette|
    ensures InRange(ShiftUp(cells, pid), |palette| + 1)
    ensures Outside(InsertAt(palette, pid, ty), ShiftUp(cells, pid), min, max) == Outside(palette, cells, min, max)
  {
  }

  /** With the blocks outside the box kept, filling the box with palette id
      `pid` fills the blocks of the box with `palette[pid]`. */
  lemma OutsideFill(palette: seq<nat>, cells: seq<int>, p0: seq<nat>, c0: seq<int>,
                    min: Pos, max: Pos, pid: nat)
    requires |cells| == CELLS && InRange(cells, |palette|) && pid < |palette|
    requires |c0| == CELLS && InRange(c0, |p0|)
    requires Outside(palette, cells, min, max) == Outside(p0, c0, min, max)
    ensures InRange(Filled(cells, min, max, pid), |palette|)
    ensures BlocksOf(palette, Filled(cells, min, max, pid)) == Filled(BlocksOf(p0, c0), min, max, palette[pid])
  {
    forall d | 0 <= d < CELLS && !CellInBox(d, min, max)
      ensures palette[cells[d]] == p0[c0[d]]
    {
      assert Outside(palette, cells, min, max)[d] == Outside(p0, c0, min, max)[d];
    }
  }

  // ---------------------------------------------------------------------
  // The palette entries a fill leaves without cells

  /** The palette ids other than air whose amount is zero, in ascending
      order (the `ids_to_remove` loop of `fill`). */
  method UnusedIds(amounts: seq<nat>) returns (ids: seq<nat>)
    ensures forall k :: 0 <= k < |ids| ==> 1 <= ids[k] < |amounts| && amounts[ids[k]] == 0
    ensures forall i :: 1 <= i < |amounts| && amounts[i] == 0 ==> i in ids
    ensures forall j, k :: 0 <= j < k < |ids| ==> ids[j] < ids[k]
  {
    ids := [];
    var id := 0;
    while id < |amounts|
      invariant 0 <= id <= |amounts|
      invariant forall k :: 0 <= k < |ids| ==> 1 <= ids[k] < id && amounts[ids[k]] == 0
      invariant forall i :: 1 <= i < id && amounts[i] == 0 ==> i in ids
      invariant forall j, k :: 0 <= j < k < |ids| ==> ids[j] < ids[k]
    {
      if amounts[id] == 0 && id != 0 {
        ids := ids + [id];
      }
      id := id + 1;
    }
  }

  /** The zero amounts other than air are exactly the ids still to remove,
      all of them in ascending order. */
  ghost predicate ToRemove(amounts: seq<nat>, ids: seq<nat>, k: nat)
    requires k <= |ids|
  {
    (forall j :: 0 <= j < k ==> 1 <= ids[j] < |amounts| && amounts[ids[j]] == 0) &&
    (forall i :: 1 <= i < |amounts| && amounts[i] == 0 ==> i in ids[..k]) &&
    (forall i, j :: 0 <= i < j < |ids| ==> ids[i] < ids[j])
  }

  /** Removing the largest id still to remove leaves the others where they
      are: the ids below it keep their numbers. */
  lemma PruneStep(amounts: seq<nat>, ids: seq<nat>, k: nat)
    requires 0 < k <= |ids| && ToRemove(amounts, ids, k)
    ensures ToRemove(RemoveAt(amounts, ids[k - 1]), ids, k - 1)
  {
    var m := ids[k - 1];
    var a := RemoveAt(amounts, m);
    forall i | 1 <= i < |a| && a[i] == 0
      ensures i in ids[..k - 1]
    {
      if i < m {
        var j :| 0 <= j < k && ids[j] == i;
        assert j != k - 1;
      } else {
        assert false;
      }
    }
  }

  /** The prune of `fill` as written: the collected ids are removed in
      ascending order, each by the number it had before any removal, so
      every removal after the first misses its entry. `None` where the
      source indexes past the end of the palette. */
  function PruneAsWritten(palette: seq<nat>, cells: seq<int>, ids: seq<nat>): (r: Option<(seq<nat>, seq<int>)>)
    ensures r.Some? ==> |r.value.1| == |cells|
    decreases |ids|
  {
    if |ids| == 0 then Some((palette, cells))
    else if ids[0] < |palette| then PruneAsWritten(RemoveAt(palette, ids[0]), ShiftDown(cells, ids[0]), ids[1..])
    else None
  }

  /** Palette [0, 1, 2, 3], one cell of each non-air block, and a box that
      holds the cells of blocks 1 and 2: both entries lose their last cell,
      and the prune as written turns the block-3 cell outside the box into
      block 2 (besides dropping the entry of block 3). */
  lemma PruneAsWrittenChangesOutside()
    ensures var r := PruneAsWritten([0, 1, 2, 3], [1, 2, 3], [1, 2]);
      r.Some? && InRange(r.value.1, |r.value.0|) &&
      BlocksOf([0, 1, 2, 3], [1, 2, 3])[2] == 3 && BlocksOf(r.value.0, r.value.1)[2] == 2
  {
    assert RemoveAt([0, 1, 2, 3], 1) == [0, 2, 3];
    assert ShiftDown([1, 2, 3], 1) == [0, 1, 2];
    assert RemoveAt([0, 2, 3], 2) == [0, 2];
    assert ShiftDown([0, 1, 2], 2) == [0, 1, 1];
  }

  // ---------------------------------------------------------------------
  // Sizes and the whole section

  /** The box holds `Volume` cells, counted layer by layer, row by row. */
  lemma VolumeLayers(min: Pos, max: Pos)
    requires Ordered(min, max)
    ensures Volume(min, max) == (max.y - min.y + 1) * ((max.z - min.z + 1) * (max.x - min.x + 1))
    ensures Volume(min, max) >= 1
  {
    var w, h, l := max.x - min.x + 1, max.y - min.y + 1, max.z - min.z + 1;
    Reorder(w, h, l);
    AtLeastOne(l, w);
    AtLeastOne(h, l * w);
  }

  lemma Reorder(w: int, h: int, l: int)
    ensures w * h * l == h * (l * w)
  {
  }

  lemma AtLeastOne(a: int, b: int)
    requires a >= 1 && b >= 1
    ensures a * b >= 1
  {
  }

  /** The box from `(0, 0, 0)` to `(15, 15, 15)` is the whole section. */
  lemma WholeBox(s: seq<int>, v: int)
    requires |s| == CELLS
    ensures Filled(s, Pos(0, 0, 0), Pos(15, 15, 15), v) == seq(CELLS, _ => v)
  {
  }

  /** Two states whose blocks agree outside the box agree once the box is
      filled with the same block. */
  lemma OutsideSame(p1: seq<nat>, c1: seq<int>, p0: seq<nat>, c0: seq<int>, min: Pos, max: Pos, ty: nat)
    requires |c1| == CELLS && InRange(c1, |p1|) && |c0| == CELLS && InRange(c0, |p0|)
    requires Outside(p1, c1, min, max) == Outside(p0, c0, min, max)
    ensures Filled(BlocksOf(p1, c1), min, max, ty) == Filled(BlocksOf(p0, c0), min, max, ty)
  {
    forall d | 0 <= d < CELLS && !CellInBox(d, min, max)
      ensures p1[c1[d]] == p0[c0[d]]
    {
      assert Outside(p1, c1, min, max)[d] == Outside(p0, c0, min, max)[d];
    }
  }
}
