/** Block positions and the cell numbering of a 16x16x16 chunk section. */
module Geometry {

  /** A block position (`Pos` in the source: three `i32` coordinates). */
  datatype Pos = Pos(x: int, y: int, z: int)

  /** Number of cells in a section. */
  const CELLS: nat := 4096

  /** A position relative to a section, each coordinate in `0..16`. */
  predicate InSection(p: Pos)
  {
    0 <= p.x < 16 && 0 <= p.y < 16 && 0 <= p.z < 16
  }

  /** The cell number of a position: `y << 8 | z << 4 | x`. The three fields
      occupy disjoint bits, so the bitwise or is the sum below. */
  function Index(p: Pos): (c: nat)
    requires InSection(p)
    ensures c < CELLS
  {
    p.y * 256 + p.z * 16 + p.x
  }

  /** The position of a cell number. */
  function PosOf(c: nat): (p: Pos)
    requires c < CELLS
    ensures InSection(p)
  {
    Pos(c % 16, c / 256, (c / 16) % 16)
  }

  /** `Index` and `PosOf` are inverse to each other. */
  lemma IndexPosOf(c: nat)
    requires c < CELLS
    ensures Index(PosOf(c)) == c
  {
    var q := c / 16;
    assert c == q * 16 + c % 16;
    assert q == (q / 16) * 16 + q % 16;
    DivMod256(c, q / 16, (q % 16) * 16 + c % 16);
  }

  lemma PosOfIndex(p: Pos)
    requires InSection(p)
    ensures PosOf(Index(p)) == p
  {
    var row := p.y * 16 + p.z;
    var c := Index(p);
    assert c == row * 16 + p.x;
    DivMod16(c, row, p.x);
    DivMod16(row, p.y, p.z);
    DivMod256(c, p.y, p.z * 16 + p.x);
  }

  /** Division by 16 of `q * 16 + r` with `r` a digit. */
  lemma DivMod16(c: int, q: int, r: int)
    requires 0 <= r < 16 && c == q * 16 + r
    ensures c / 16 == q && c % 16 == r
  {
  }

  lemma DivMod256(c: int, q: int, r: int)
    requires 0 <= r < 256 && c == q * 256 + r
    ensures c / 256 == q
  {
  }

  /** `p` lies in the box spanned by `min` and `max`, bounds included. */
  predicate InBox(p: Pos, min: Pos, max: Pos)
  {
    min.x <= p.x <= max.x && min.y <= p.y <= max.y && min.z <= p.z <= max.z
  }

  /** Cell `c` lies in the box. */
  predicate CellInBox(c: nat, min: Pos, max: Pos)
    requires c < CELLS
  {
    InBox(PosOf(c), min, max)
  }

  /** Number of positions in a non-empty box. */
  function Volume(min: Pos, max: Pos): int
  {
    (max.x - min.x + 1) * (max.y - min.y + 1) * (max.z - min.z + 1)
  }
}
