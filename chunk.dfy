/** The chunk column (`common/src/chunk/mod.rs`): up to sixteen paletted
    sections stacked along y, allocated only when a block is written into
    them. A position's layer is `y / 16` and its height inside the layer
    `y % 16` (floored: a negative `y` has a negative layer). */
module Chunks {
  import opened Geometry
  import opened Wrappers
  import opened Box
  import opened Paletted

  /** Number of section layers in a column. */
  const LAYERS: nat := 16

  /** Why a chunk refuses a position (`PosError`). */
  datatype ChunkError =
    | YOutsideChunk(y: int)
    | MaxBelowMin(y: int)
    | CellOutsideSection(y: int)

  /** `Pos::chunk_y`. */
  function ChunkY(y: int): int
  {
    y / 16
  }

  /** `Pos::chunk_rel_y`. */
  function RelY(y: int): (r: int)
    ensures 0 <= r < 16
  {
    y % 16
  }

  /** A position of the column: x and z inside the section, y in 0..256. */
  predicate InColumn(p: Pos)
  {
    0 <= p.x < 16 && 0 <= p.z < 16 && 0 <= p.y < 16 * LAYERS
  }

  /** The cell of `p` inside its layer. */
  function Cell(p: Pos): (c: nat)
    requires 0 <= p.x < 16 && 0 <= p.z < 16
    ensures c < CELLS
  {
    Index(Pos(p.x, RelY(p.y), p.z))
  }

  /** The lower corner of the part of the box `min..max` inside layer `i`,
      relative to the layer. */
  function LayerMin(min: Pos, i: int): Pos
  {
    Pos(min.x, RelY(if min.y > 16 * i then min.y else 16 * i), min.z)
  }

  /** The upper corner of the part of the box `min..max` inside layer `i`,
      relative to the layer. */
  function LayerMax(max: Pos, i: int): Pos
  {
    Pos(max.x, RelY(if max.y < 16 * i + 15 then max.y else 16 * i + 15), max.z)
  }

  /** The boxes `fill` accepts: x and z inside the section and ordered, and
      y ordered when both corners lie in the same layer (a max layer below
      the min layer is an error the source reports). */
  predicate FillBox(min: Pos, max: Pos)
  {
    0 <= min.x <= max.x < 16 && 0 <= min.z <= max.z < 16 &&
    (ChunkY(min.y) == ChunkY(max.y) ==> min.y <= max.y)
  }

  /** The clamped box of every layer between the corners' layers is an
      ordered box of the section. */
  lemma LayerBoxOrdered(min: Pos, max: Pos, i: int)
    requires FillBox(min, max) && ChunkY(min.y) <= i <= ChunkY(max.y)
    ensures Ordered(LayerMin(min, i), LayerMax(max, i))
  {
  }

  /** A position of layer `i` lies in the layer's clamped box exactly when it
      lies in the box. */
  lemma LayerBoxCell(min: Pos, max: Pos, i: int, q: Pos)
    requires ChunkY(min.y) <= i <= ChunkY(max.y)
    requires InColumn(q) && ChunkY(q.y) == i
    ensures CellInBox(Cell(q), LayerMin(min, i), LayerMax(max, i)) <==> InBox(q, min, max)
  {
    PosOfIndex(Pos(q.x, RelY(q.y), q.z));
  }

  /** A column of paletted sections (`Chunk` of the paletted kind). */
  class Chunk {
    var sections: seq<Option<Section>>
    ghost var Repr: set<object>

    /** At most sixteen layers, every allocated section valid, in `Repr`
        and owned by one layer only; the column itself is not in `Repr`. */
    ghost predicate Valid()
      reads this, Repr
    {
      this !in Repr && |sections| <= LAYERS &&
      (forall i :: 0 <= i < |sections| && sections[i].Some? ==>
         sections[i].value in Repr && sections[i].value.Valid()) &&
      (forall i, j :: 0 <= i < j < |sections| && sections[i].Some? && sections[j].Some? ==>
         sections[i].value != sections[j].value)
    }

    /** The blocks of layer `i`: all air while the layer has no section. */
    ghost function Layer(i: int): (r: seq<nat>)
      reads this, Repr
      requires Valid()
      ensures |r| == CELLS
    {
      if 0 <= i < |sections| && sections[i].Some? then sections[i].value.Blocks()
      else seq(CELLS, _ => 0)
    }

    /** The block at a position of the column. */
    ghost function Get(p: Pos): nat
      reads this, Repr
      requires Valid() && InColumn(p)
    {
      Layer(ChunkY(p.y))[Cell(p)]
    }

    /** `Chunk::new`: no sections, so every block is air. */
    constructor ()
      ensures Valid() && sections == [] && fresh(Repr)
      ensures forall p :: InColumn(p) ==> Get(p) == 0
    {
      sections := [];
      Repr := {};
    }

    /** Pads `sections` with empty layers so that layer `i` exists (the
        `while self.sections.len() <= index` loop). The blocks do not
        change. */
    method Pad(i: nat)
      requires Valid() && i < LAYERS
      modifies this
      ensures Valid() && Repr == old(Repr) && i < |sections|
      ensures |sections| == if i < old(|sections|) then old(|sections|) else i + 1
      ensures sections[..old(|sections|)] == old(sections)
      ensures forall j :: old(|sections|) <= j < |sections| ==> sections[j].None?
      ensures forall j :: 0 <= j < LAYERS ==> Layer(j) == old(Layer(j))
    {
      if i >= |sections| {
        sections := sections + seq(i + 1 - |sections|, _ => None);
      }
    }

    /** Makes sure layer `i` has a section: pads `sections` up to `i` and
        allocates a default section there if it has none. The blocks do not
        change. */
    method Allocate(i: nat)
      requires Valid() && i < LAYERS
      modifies this
      ensures Valid() && |sections| == if i < old(|sections|) then old(|sections|) else i + 1
      ensures sections[i].Some? && fresh(Repr - old(Repr))
      ensures forall j :: 0 <= j < |sections| && j != i ==>
        sections[j] == if j < old(|sections|) then old(sections[j]) else None
      ensures i < old(|sections|) && old(sections[i]).Some? ==> sections[i] == old(sections[i])
      ensures forall j :: 0 <= j < LAYERS ==> Layer(j) == old(Layer(j))
    {
      Pad(i);
      if sections[i].None? {
        Install(i);
      }
    }

    /** Puts a default section into the empty layer `i`; the blocks do not
        change. */
    method Install(i: nat)
      requires Valid() && i < |sections| && sections[i].None?
      modifies this
      ensures Valid() && |sections| == old(|sections|) && sections[i].Some? && fresh(Repr - old(Repr))
      ensures forall j :: 0 <= j < |sections| && j != i ==> sections[j] == old(sections[j])
      ensures forall j :: 0 <= j < LAYERS ==> Layer(j) == old(Layer(j))
    {
      var s := new Section();
      sections := sections[i := Some(s)];
      Repr := Repr + {s};
      assert forall j :: 0 <= j < |sections| && j != i && sections[j].Some? ==> sections[j] == old(sections[j]) && sections[j].value != s;
    }

    /** Places global block `ty` at cell position `p` of the section of
        layer `i`, which is allocated; the other layers keep their blocks. */
    method SetInSection(i: nat, p: Pos, ty: nat)
      requires Valid() && i < |sections| && sections[i].Some? && InSection(p)
      modifies Repr
      ensures Valid() && sections == old(sections) && Repr == old(Repr)
      ensures Layer(i) == old(Layer(i))[Index(p) := ty]
      ensures forall j :: 0 <= j < LAYERS && j != i ==> Layer(j) == old(Layer(j))
    {
      var s := sections[i].value;
      assert forall j :: 0 <= j < |sections| && j != i && sections[j].Some? ==> sections[j].value != s;
      s.SetBlock(p, ty);
    }

    /** Places global block `ty` at `p` (`Chunk::set_block`). A layer
        outside the column is an error and changes nothing; otherwise the
        layer's section is allocated if needed and gets `(x, y % 16, z)`. */
    method SetBlock(p: Pos, ty: nat) returns (r: Result<(), ChunkError>)
      requires Valid() && 0 <= p.x < 16 && 0 <= p.z < 16
      modifies this, Repr
      ensures Valid() && fresh(Repr - old(Repr))
      ensures r.Err? <==> !(0 <= ChunkY(p.y) < LAYERS)
      ensures r.Err? ==> sections == old(sections) && r.error == YOutsideChunk(p.y)
      ensures r.Ok? ==> forall q :: InColumn(q) ==> Get(q) == if q == p then ty else old(Get(q))
    {
      var i := ChunkY(p.y);
      if !(0 <= i < LAYERS) {
        return Err(YOutsideChunk(p.y));
      }
      ghost var c := Cell(p);
      Allocate(i);
      SetInSection(i, Pos(p.x, RelY(p.y), p.z), ty);
      forall q | InColumn(q)
        ensures Get(q) == if q == p then ty else old(Get(q))
      {
        if ChunkY(q.y) == i && Cell(q) == c {
          PosOfIndex(Pos(q.x, RelY(q.y), q.z));
          PosOfIndex(Pos(p.x, RelY(p.y), p.z));
        }
      }
      r := Ok(());
    }

    /** Fills the box `lmin..lmax` of the section of layer `i`, which is
        allocated; the other layers keep their blocks. */
    method FillSection(i: nat, lmin: Pos, lmax: Pos, ty: nat)
      requires Valid() && i < |sections| && sections[i].Some? && Ordered(lmin, lmax)
      modifies Repr
      ensures Valid() && sections == old(sections) && Repr == old(Repr)
      ensures Layer(i) == Filled(old(Layer(i)), lmin, lmax, ty)
      ensures forall j :: 0 <= j < LAYERS && j != i ==> Layer(j) == old(Layer(j))
    {
      var s := sections[i].value;
      assert forall j :: 0 <= j < |sections| && j != i && sections[j].Some? ==> sections[j].value != s;
      s.Fill(lmin, lmax, ty);
    }

    /** Allocates layer `i` and fills the box `lmin..lmax` of its section;
        the other layers keep their blocks. */
    method FillLayer(i: nat, lmin: Pos, lmax: Pos, ty: nat)
      requires Valid() && i < LAYERS && Ordered(lmin, lmax)
      modifies this, Repr
      ensures Valid() && fresh(Repr - old(Repr))
      ensures Layer(i) == Filled(old(Layer(i)), lmin, lmax, ty)
      ensures forall j :: 0 <= j < LAYERS && j != i ==> Layer(j) == old(Layer(j))
    {
      Allocate(i);
      FillSection(i, lmin, lmax, ty);
    }

    /** Fills the box `min..max` of the column with global block `ty`
        (`Chunk::fill`). A corner whose layer lies outside the column, or a
        max layer below the min layer, is an error that changes nothing;
        otherwise every layer the box crosses is allocated and gets the part
        of the box inside it. Each layer is filled by the corrected section
        `Fill`, which removes unused palette entries highest first. */
    method Fill(min: Pos, max: Pos, ty: nat) returns (r: Result<(), ChunkError>)
      requires Valid() && FillBox(min, max)
      modifies this, Repr
      ensures Valid() && fresh(Repr - old(Repr))
      ensures r.Err? <==> !(0 <= ChunkY(min.y) <= ChunkY(max.y) < LAYERS)
      ensures r.Err? ==>
        r.error == (if !(0 <= ChunkY(min.y) < LAYERS) then YOutsideChunk(min.y)
                    else if !(0 <= ChunkY(max.y) < LAYERS) then YOutsideChunk(max.y)
                    else MaxBelowMin(max.y))
      ensures r.Err? ==> sections == old(sections)
      ensures r.Ok? ==> forall q :: InColumn(q) ==> Get(q) == if InBox(q, min, max) then ty else old(Get(q))
    {
      var lo := ChunkY(min.y);
      var hi := ChunkY(max.y);
      if !(0 <= lo < LAYERS) {
        return Err(YOutsideChunk(min.y));
      }
      if !(0 <= hi < LAYERS) {
        return Err(YOutsideChunk(max.y));
      }
      if hi < lo {
        return Err(MaxBelowMin(max.y));
      }
      Pad(hi);
      ghost var start := seq(LAYERS, j requires 0 <= j < LAYERS && Valid() reads this, Repr => Layer(j));
      var index := lo;
      while index <= hi
        invariant lo <= index <= hi + 1 && Valid() && fresh(Repr - old(Repr))
        invariant forall j :: 0 <= j < LAYERS ==>
          Layer(j) == (if lo <= j < index then Filled(start[j], LayerMin(min, j), LayerMax(max, j), ty) else start[j])
        decreases hi + 1 - index
      {
        LayerBoxOrdered(min, max, index);
        FillLayer(index, LayerMin(min, index), LayerMax(max, index), ty);
        index := index + 1;
      }
      forall q | InColumn(q)
        ensures Get(q) == if InBox(q, min, max) then ty else old(Get(q))
      {
        var i := ChunkY(q.y);
        if lo <= i <= hi {
          LayerBoxCell(min, max, i, q);
        } else {
          assert !InBox(q, min, max);
        }
      }
      r := Ok(());
    }

    /** `Chunk::get_block`, corrected: the block at `p`, air in a layer
        without a section, an error for a layer outside the column. The
        section is asked for `(x, y % 16, z)`, as `set_block` does; the
        source passes `p` unchanged (`GetBlockAsWritten`). */
    function GetBlock(p: Pos): (r: Result<nat, ChunkError>)
      reads this, Repr
      requires Valid() && 0 <= p.x < 16 && 0 <= p.z < 16
      ensures r.Err? <==> !(0 <= ChunkY(p.y) < LAYERS)
      ensures r.Err? ==> r.error == YOutsideChunk(p.y)
      ensures r.Ok? ==> InColumn(p) && r.value == Get(p)
    {
      var i := ChunkY(p.y);
      if !(0 <= i < LAYERS) then Err(YOutsideChunk(p.y))
      else if i >= |sections| || sections[i].None? then Ok(0)
      else Ok(sections[i].value.GetBlock(Pos(p.x, RelY(p.y), p.z)))
    }

    /** `Chunk::get_block` as written: the position is handed to the section
        without converting `y` to the layer, so above the first layer the cell
        index `y << 8 | z << 4 | x` lies past the section's data (the source
        indexes out of bounds and panics; here `CellOutsideSection`). */
    function GetBlockAsWritten(p: Pos): (r: Result<nat, ChunkError>)
      reads this, Repr
      requires Valid() && 0 <= p.x < 16 && 0 <= p.z < 16
      ensures r.Ok? ==> r == GetBlock(p)
      ensures r.Err? <==> (GetBlock(p).Err? ||
        (16 <= p.y && ChunkY(p.y) < |sections| && sections[ChunkY(p.y)].Some?))
      ensures r.Err? && GetBlock(p).Ok? ==> r.error == CellOutsideSection(p.y)
    {
      var i := ChunkY(p.y);
      if !(0 <= i < LAYERS) then Err(YOutsideChunk(p.y))
      else if i >= |sections| || sections[i].None? then Ok(0)
      else if InSection(p) then
        assert Pos(p.x, RelY(p.y), p.z) == p;
        Ok(sections[i].value.GetBlock(p))
      else Err(CellOutsideSection(p.y))
    }

    /** `Chunk::to_latest_proto`: the protobuf of every allocated layer,
        keyed by its layer; a layer missing from the map is all air. */
    method ToLatestProto() returns (m: map<int, ProtoSection>)
      requires Valid()
      ensures forall i :: i in m <==> 0 <= i < |sections| && sections[i].Some?
      ensures forall i :: 0 <= i < |sections| && sections[i].Some? ==> m[i] == sections[i].value.ToLatestProto()
      ensures forall i :: 0 <= i < LAYERS && i !in m ==> Layer(i) == seq(CELLS, _ => 0)
    {
      m := map[];
      var i := 0;
      while i < |sections|
        invariant 0 <= i <= |sections|
        invariant forall j :: j in m <==> 0 <= j < i && sections[j].Some?
        invariant forall j :: 0 <= j < i && sections[j].Some? ==> m[j] == sections[j].value.ToLatestProto()
      {
        if sections[i].Some? {
          m := m[i := sections[i].value.ToLatestProto()];
        }
        i := i + 1;
      }
    }

    /** `Chunk::to_old_proto`: as `ToLatestProto`, every palette entry going
        through the block-id conversion `f`. */
    method ToOldProto(f: nat -> nat) returns (m: map<int, ProtoSection>)
      requires Valid()
      ensures forall i :: i in m <==> 0 <= i < |sections| && sections[i].Some?
      ensures forall i :: 0 <= i < |sections| && sections[i].Some? ==> m[i] == sections[i].value.ToOldProto(f)
      ensures forall i :: 0 <= i < LAYERS && i !in m ==> Layer(i) == seq(CELLS, _ => 0)
    {
      m := map[];
      var i := 0;
      while i < |sections|
        invariant 0 <= i <= |sections|
        invariant forall j :: j in m <==> 0 <= j < i && sections[j].Some?
        invariant forall j :: 0 <= j < i && sections[j].Some? ==> m[j] == sections[j].value.ToOldProto(f)
      {
        if sections[i].Some? {
          m := m[i := sections[i].value.ToOldProto(f)];
        }
        i := i + 1;
      }
    }
  }

  /** A block placed at height 16 is read back by `GetBlock`, while
      `get_block` as written fails on it. */
  method GetAboveFirstLayer() returns (asWritten: Result<nat, ChunkError>, corrected: Result<nat, ChunkError>)
    ensures asWritten == Err(CellOutsideSection(16))
    ensures corrected == Ok(1)
  {
    var c := new Chunk();
    var p := Pos(0, 16, 0);
    var _ := c.SetBlock(p, 1);
    asWritten := c.GetBlockAsWritten(p);
    corrected := c.GetBlock(p);
  }
}
