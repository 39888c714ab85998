/** The paletted chunk section (`common/src/chunk/paletted`): 4096 cells, each
    holding a palette id packed into `bitsPerBlock` bits of a `u64` sequence;
    the palette maps palette ids to global block ids, `blockAmounts` counts the
    cells of every palette id, and `reversePalette` maps global ids back to
    palette ids.

    The ghost field `cells` is the palette id of every cell as a plain
    sequence; `Valid` ties the packed words, the palette, the amounts and the
    reverse map to it, and `Blocks` is the section as the rest of the server
    sees it: the global block id of every cell. */
module Paletted {
  import opened Bits
  import opened Packing
  import opened Counting
  import opened Geometry
  import opened Palette
  import opened Box
  import opened Wrappers

  /** Palette entries without cells that a section may carry besides air. Only
      a section read from a protobuf has them (its palette may list up to 256
      entries); every other entry that loses its last cell is removed. */
  const MAX_UNUSED: nat := 256

  /** The `b`-bit cells of a section fit in `64 * b` words. */
  lemma CellRange(b: nat, c: nat)
    requires c < CELLS
    ensures c * b + b <= 64 * (64 * b)
  {
    CellsApart(b, c, CELLS);
  }

  /** Distinct cells occupy disjoint bit ranges. */
  lemma {:induction false} CellsApart(b: nat, c: nat, d: nat)
    requires c < d
    ensures c * b + b <= d * b
  {
    if c + 1 < d {
      CellsApart(b, c, d - 1);
      assert (d - 1) * b + b == d * b;
    }
  }

  /** The palette id of cell `c` (`get_palette` at the position of `c`). */
  function CellAt(data: seq<u64>, b: nat, c: nat): (id: nat)
    requires 1 <= b < 64 && |data| == 64 * b && c < CELLS
    ensures id < Pow2(b)
  {
    CellRange(b, c);
    ReadAt(data, b, c * b)
  }

  /** The palette id of cell `c`, read from the bit string directly. */
  function CellValue(data: seq<u64>, b: nat, c: nat): (id: nat)
    requires 1 <= b < 64 && |data| == 64 * b && c < CELLS
    ensures id < Pow2(b)
  {
    CellRange(b, c);
    Value(data, c * b, b)
  }

  lemma CellAtValue(data: seq<u64>, b: nat, c: nat)
    requires 1 <= b < 64 && |data| == 64 * b && c < CELLS
    ensures CellAt(data, b, c) == CellValue(data, b, c)
  {
    CellRange(b, c);
    ReadAtValue(data, b, c * b);
  }

  /** Storing into cell `c` changes that cell and no other. */
  lemma StoreCell(data: seq<u64>, b: nat, c: nat, v: nat)
    requires 1 <= b < 64 && |data| == 64 * b && c < CELLS && v < Pow2(b)
    ensures c * b + b <= 64 * |data|
    ensures forall d :: 0 <= d < CELLS ==>
      CellAt(Store(data, b, c * b, v), b, d) == if d == c then v else CellAt(data, b, d)
  {
    CellRange(b, c);
    forall d | 0 <= d < CELLS
      ensures CellAt(Store(data, b, c * b, v), b, d) == if d == c then v else CellAt(data, b, d)
    {
      CellRange(b, d);
      if d == c {
        ReadStoreSame(data, b, c * b, v);
      } else {
        if c < d { CellsApart(b, c, d); } else { CellsApart(b, d, c); }
        ReadStoreOther(data, b, c * b, v, d * b);
      }
    }
  }

  /** The palette ids of the first `n` cells of `words`, in cell order. */
  ghost function Decode(words: seq<u64>, b: nat, n: nat): (r: seq<int>)
    requires 1 <= b < 64 && |words| == 64 * b && n <= CELLS
    ensures |r| == n
  {
    if n == 0 then [] else Decode(words, b, n - 1) + [CellValue(words, b, n - 1)]
  }

  lemma {:induction false} DecodeAt(words: seq<u64>, b: nat, n: nat, d: nat)
    requires 1 <= b < 64 && |words| == 64 * b && d < n <= CELLS
    ensures Decode(words, b, n)[d] == CellAt(words, b, d)
  {
    if d < n - 1 {
      DecodeAt(words, b, n - 1, d);
    } else {
      CellAtValue(words, b, d);
    }
  }

  /** Two word sequences decode alike if every cell does. */
  lemma DecodeExt(words: seq<u64>, b: nat, s: seq<int>)
    requires 1 <= b < 64 && |words| == 64 * b && |s| == CELLS
    requires forall d :: 0 <= d < CELLS ==> CellAt(words, b, d) == s[d]
    ensures Decode(words, b, CELLS) == s
  {
    forall d | 0 <= d < CELLS
      ensures Decode(words, b, CELLS)[d] == s[d]
    {
      DecodeAt(words, b, CELLS, d);
    }
  }

  /** Reading the id at the start of cell `c` reads that cell. */
  lemma ReadCell(words: seq<u64>, b: nat, c: nat, bi: nat)
    requires 1 <= b < 64 && |words| == 64 * b && c < CELLS && bi == c * b
    ensures Fits(words, b, bi) && ReadAt(words, b, bi) == Decode(words, b, CELLS)[c]
  {
    CellRange(b, c);
    DecodeAt(words, b, CELLS, c);
  }

  /** Storing into cell `c` of the words changes that cell of their decoding. */
  lemma StoreDecode(words: seq<u64>, b: nat, c: nat, bi: nat, v: nat)
    requires 1 <= b < 64 && |words| == 64 * b && c < CELLS && bi == c * b && v < Pow2(b)
    ensures Fits(words, b, bi)
    ensures Decode(Store(words, b, bi, v), b, CELLS) == Decode(words, b, CELLS)[c := v]
  {
    StoreCell(words, b, c, v);
    var s := Decode(words, b, CELLS)[c := v];
    forall d | 0 <= d < CELLS
      ensures CellAt(Store(words, b, bi, v), b, d) == s[d]
    {
      DecodeAt(words, b, CELLS, d);
    }
    DecodeExt(Store(words, b, bi, v), b, s);
  }

  /** `words` hold exactly the palette ids `cs`. */
  ghost predicate Encodes(words: seq<u64>, b: nat, cs: seq<int>)
    requires 1 <= b < 64 && |words| == 64 * b
  {
    cs == Decode(words, b, CELLS)
  }

  /** Storing id `v` into cell `c` of words that hold `cs` gives words that
      hold `cs` with cell `c` replaced. */
  lemma StoreEncodes(words: seq<u64>, b: nat, c: nat, bi: nat, v: nat, cs: seq<int>)
    requires 1 <= b < 64 && |words| == 64 * b && c < CELLS && bi == c * b && v < Pow2(b)
    requires Encodes(words, b, cs)
    ensures Fits(words, b, bi)
    ensures Encodes(Store(words, b, bi, v), b, cs[c := v])
  {
    StoreDecode(words, b, c, bi, v);
  }

  /** The words of `set_palette`: id `v` stored into cell `c` of words that
      hold `cs`. */
  method StoreId(words: seq<u64>, b: nat, c: nat, v: nat, ghost cs: seq<int>)
    returns (r: seq<u64>)
    requires 1 <= b < 64 && |words| == 64 * b && c < CELLS && v < Pow2(b)
    requires Encodes(words, b, cs)
    ensures |r| == |words| && Encodes(r, b, cs[c := v])
  {
    var bi := c * b;
    StoreEncodes(words, b, c, bi, v, cs);
    r := Store(words, b, bi, v);
  }

  /** The cells below `c` taken from `target`, the others from `before`. */
  function Merge(target: seq<int>, before: seq<int>, c: nat): (r: seq<int>)
    requires |target| == CELLS && |before| == CELLS
    ensures |r| == CELLS
  {
    seq(CELLS, d requires 0 <= d < CELLS => if d < c then target[d] else before[d])
  }

  lemma MergeStep(target: seq<int>, before: seq<int>, c: nat)
    requires |target| == CELLS && |before| == CELLS && c < CELLS
    ensures Merge(target, before, c)[c := target[c]] == Merge(target, before, c + 1)
  {
  }

  /** The cells below `c` hold `target`, the others still hold `before`. */
  ghost predicate RewrittenUpTo(words: seq<u64>, b: nat, c: nat, target: seq<int>, before: seq<int>)
    requires 1 <= b < 64 && |words| == 64 * b && |target| == CELLS && |before| == CELLS
  {
    Decode(words, b, CELLS) == Merge(target, before, c)
  }

  /** One step of a walk over the cells that rewrites cell `c`, which starts at
      bit `bi`, with its target `v`. */
  lemma RewriteStep(words: seq<u64>, b: nat, c: nat, bi: nat, v: nat, target: seq<int>, before: seq<int>)
    requires 1 <= b < 64 && |words| == 64 * b && |target| == CELLS && |before| == CELLS
    requires c < CELLS && bi == c * b && v == target[c] && v < Pow2(b)
    requires RewrittenUpTo(words, b, c, target, before)
    ensures Fits(words, b, bi) && bi + b == (c + 1) * b
    ensures RewrittenUpTo(Store(words, b, bi, v), b, c + 1, target, before)
  {
    StoreDecode(words, b, c, bi, v);
    MergeStep(target, before, c);
  }

  /** One step of the walk where cell `c` already holds its target. */
  lemma KeepStep(words: seq<u64>, b: nat, c: nat, bi: nat, target: seq<int>, before: seq<int>)
    requires 1 <= b < 64 && |words| == 64 * b && |target| == CELLS && |before| == CELLS
    requires c < CELLS && bi == c * b && target[c] == before[c]
    requires RewrittenUpTo(words, b, c, target, before)
    ensures bi + b == (c + 1) * b
    ensures RewrittenUpTo(words, b, c + 1, target, before)
  {
    assert Merge(target, before, c) == Merge(target, before, c + 1);
  }

  lemma CopyStep(src: seq<u64>, ob: nat, cs: seq<int>, words: seq<u64>, b: nat, c: nat, bi: nat, before: seq<int>)
    requires 1 <= ob < b < 64 && |src| == 64 * ob && |words| == 64 * b && |before| == CELLS
    requires Encodes(src, ob, cs)
    requires c < CELLS && bi == c * b
    requires RewrittenUpTo(words, b, c, cs, before)
    ensures CellAt(src, ob, c) < Pow2(b)
    ensures Fits(words, b, bi) && bi + b == (c + 1) * b
    ensures RewrittenUpTo(Store(words, b, bi, CellAt(src, ob, c)), b, c + 1, cs, before)
  {
    DecodeAt(src, ob, CELLS, c);
    Pow2Strict(ob, b);
    RewriteStep(words, b, c, bi, CellAt(src, ob, c), cs, before);
  }

  /** Every cell of zeroed words reads 0. */
  lemma ZeroCells(words: seq<u64>, b: nat)
    requires 1 <= b < 64 && |words| == 64 * b
    requires forall w :: 0 <= w < |words| ==> words[w] == 0
    ensures forall d :: 0 <= d < CELLS ==> CellAt(words, b, d) == 0
  {
    forall d | 0 <= d < CELLS
      ensures CellAt(words, b, d) == 0
    {
      CellRange(b, d);
      ReadZeros(words, b, d * b);
    }
  }

  /** Freshly zeroed words hold palette id 0 in every cell. */
  lemma ZerosRewrittenNone(words: seq<u64>, b: nat, target: seq<int>, zeros: seq<int>)
    requires 1 <= b < 64 && |words| == 64 * b
    requires forall w :: 0 <= w < |words| ==> words[w] == 0
    requires |target| == CELLS && zeros == seq(CELLS, _ => 0)
    ensures RewrittenUpTo(words, b, 0, target, zeros)
  {
    ZeroCells(words, b);
    DecodeExt(words, b, zeros);
    assert Merge(target, zeros, 0) == zeros;
  }

  /** Zeroed words hold palette id 0 in every cell. */
  lemma ZerosEncode(words: seq<u64>, b: nat)
    requires 1 <= b < 64 && |words| == 64 * b
    requires forall w :: 0 <= w < |words| ==> words[w] == 0
    ensures Encodes(words, b, seq(CELLS, _ => 0))
  {
    var zeros: seq<int> := seq(CELLS, _ => 0);
    ZerosRewrittenNone(words, b, zeros, zeros);
    RewrittenAll(words, b, zeros, zeros);
  }

  /** `0x1111111111111111`, the word of a section whose 4-bit cells all hold 1. */
  const ONES4: u64 := 0x1111_1111_1111_1111

  /** `k` nibbles of value 1. */
  function Nibbles(k: nat): nat
  {
    if k == 0 then 0 else 16 * Nibbles(k - 1) + 1
  }

  lemma {:induction false} BitOfNibbles(k: nat, j: nat)
    ensures Bit(Nibbles(k), j) == (j < 4 * k && j % 4 == 0)
  {
    if k == 0 {
      BitZero(j);
    } else {
      var r := Nibbles(k - 1);
      BitOfDouble(2 * (2 * (2 * r)), 1, j);
      if j > 0 {
        BitOfDouble(2 * (2 * r), 0, j - 1);
        if j > 1 {
          BitOfDouble(2 * r, 0, j - 2);
          if j > 2 {
            BitOfDouble(r, 0, j - 3);
            if j > 3 {
              BitOfNibbles(k - 1, j - 4);
            }
          }
        }
      }
    }
  }

  lemma NibblesOnes()
    ensures Nibbles(16) == ONES4
  {
    assert Nibbles(1) == 0x1;
    assert Nibbles(2) == 0x11;
    assert Nibbles(3) == 0x111;
    assert Nibbles(4) == 0x1111;
    assert Nibbles(5) == 0x11111;
    assert Nibbles(6) == 0x111111;
    assert Nibbles(7) == 0x1111111;
    assert Nibbles(8) == 0x11111111;
    assert Nibbles(9) == 0x111111111;
    assert Nibbles(10) == 0x1111111111;
    assert Nibbles(11) == 0x11111111111;
    assert Nibbles(12) == 0x111111111111;
    assert Nibbles(13) == 0x1111111111111;
    assert Nibbles(14) == 0x11111111111111;
    assert Nibbles(15) == 0x111111111111111;
    assert Nibbles(16) == 0x1111111111111111;
  }

  /** Bit `j` of the 4-bit cell `d` of `ONES4` words. */
  lemma OnesBit(words: seq<u64>, d: nat, j: nat)
    requires |words| == 256 && forall w :: 0 <= w < 256 ==> words[w] == ONES4
    requires d < CELLS && j < 4
    ensures GlobalBit(words, 4 * d + j) == (j == 0)
  {
    NibblesOnes();
    var i := 4 * d + j;
    BitOfNibbles(16, i % 64);
    assert i % 64 == 4 * (d % 16) + j;
  }

  /** A word of `ONES4` holds 1 in each of its 4-bit cells. */
  lemma OnesCell(words: seq<u64>, d: nat)
    requires |words| == 256 && forall w :: 0 <= w < 256 ==> words[w] == ONES4
    requires d < CELLS
    ensures CellAt(words, 4, d) == 1
  {
    CellAtValue(words, 4, d);
    OnesBit(words, d, 0);
    OnesBit(words, d, 1);
    OnesBit(words, d, 2);
    OnesBit(words, d, 3);
    ValueOne(words, 4 * d);
    assert CellValue(words, 4, d) == Value(words, 4 * d, 4);
  }

  /** Four bits reading 1, 0, 0, 0 from the low end hold the value 1. */
  lemma ValueOne(words: seq<u64>, bi: nat)
    requires bi + 4 <= 64 * |words|
    requires GlobalBit(words, bi) && !GlobalBit(words, bi + 1)
    requires !GlobalBit(words, bi + 2) && !GlobalBit(words, bi + 3)
    ensures Value(words, bi, 4) == 1
  {
    assert Value(words, bi + 4, 0) == 0;
    assert Value(words, bi + 3, 1) == 0;
    assert Value(words, bi + 2, 2) == 0;
    assert Value(words, bi + 1, 3) == 0;
  }

  /** Words that are all `ONES4` hold palette id 1 in every 4-bit cell. */
  lemma OnesEncode(words: seq<u64>)
    requires |words| == 256 && forall w :: 0 <= w < 256 ==> words[w] == ONES4
    ensures Encodes(words, 4, seq(CELLS, _ => 1))
  {
    forall d | 0 <= d < CELLS
      ensures CellAt(words, 4, d) == 1
    {
      OnesCell(words, d);
    }
    DecodeExt(words, 4, seq(CELLS, _ => 1));
  }

  /** A finished walk has rewritten every cell. */
  lemma RewrittenAll(words: seq<u64>, b: nat, target: seq<int>, before: seq<int>)
    requires 1 <= b < 64 && |words| == 64 * b && |target| == CELLS && |before| == CELLS
    requires RewrittenUpTo(words, b, CELLS, target, before)
    ensures Encodes(words, b, target)
  {
    assert Merge(target, before, CELLS) == target;
  }

  /** Palette entries other than air that no cell uses. */
  function Unused(amounts: seq<nat>): nat
    requires |amounts| >= 1
  {
    ZeroCount(amounts[1..])
  }

  lemma UnusedUpdate(a: seq<nat>, i: nat, x: nat)
    requires i < |a|
    ensures Unused(a[i := x])
         == Unused(a) - (if i >= 1 && a[i] == 0 then 1 else 0) + (if i >= 1 && x == 0 then 1 else 0)
  {
    if i == 0 {
      assert a[i := x][1..] == a[1..];
    } else {
      assert a[i := x][1..] == a[1..][i - 1 := x];
      ZeroCountUpdate(a[1..], i - 1, x);
    }
  }

  lemma UnusedInsert(a: seq<nat>, i: nat, x: nat)
    requires 1 <= i <= |a|
    ensures Unused(InsertAt(a, i, x)) == Unused(a) + (if x == 0 then 1 else 0)
  {
    var t := a[1..];
    assert InsertAt(a, i, x)[1..] == t[..i - 1] + [x] + t[i - 1..];
    ZeroCountInsert(t, i - 1, x);
  }

  lemma UnusedRemove(a: seq<nat>, i: nat)
    requires 1 <= i < |a|
    ensures Unused(RemoveAt(a, i)) == Unused(a) - (if a[i] == 0 then 1 else 0)
  {
    var t := a[1..];
    assert RemoveAt(a, i)[1..] == t[..i - 1] + t[i..];
    ZeroCountRemove(t, i - 1);
  }

  /** Where `insert` puts global id `ty`: in front of the first palette
      entry larger than `ty`, or at the end. */
  method InsertPosition(palette: seq<nat>, ty: nat) returns (pid: nat)
    ensures pid <= |palette|
    ensures forall i :: 0 <= i < pid ==> palette[i] <= ty
    ensures pid < |palette| ==> ty < palette[pid]
  {
    pid := |palette|;
    var i := 0;
    while i < |palette|
      invariant 0 <= i <= |palette| && pid == |palette|
      invariant forall j :: 0 <= j < i ==> palette[j] <= ty
    {
      if palette[i] > ty {
        pid := i;
        break;
      }
      i := i + 1;
    }
  }

  /** Widening by one bit makes room for one more palette entry, and a
      palette below 2^63 entries never widens past 63 bits. */
  /** The width `insert` leaves before adding an entry to a palette of
      `len` entries at `b` bits: one bit more when `len + 1` reaches `2^b`. */
  function InsertWidth(len: nat, b: nat): (r: nat)
    ensures r == b || r == b + 1
    ensures r == b + 1 <==> len + 1 >= Pow2(b)
  {
    if len + 1 >= Pow2(b) then b + 1 else b
  }

  lemma WideningRoom(n: nat, b: nat)
    requires n <= Pow2(b) <= n + 1 < Pow2(63)
    ensures b < 63 && n < Pow2(b + 1)
  {
    if b >= 63 {
      Pow2Monotone(63, b);
    }
    Pow2Strict(b, b + 1);
  }

  lemma MulSucc(a: int, b: int)
    ensures (a + 1) * b == a * b + b
  {
  }

  /** `k * row` by repeated addition, so that loops adding a row at a time
      stay within linear arithmetic. */
  function Times(k: nat, row: int): int
  {
    if k == 0 then 0 else Times(k - 1, row) + row
  }

  lemma {:induction false} TimesIsProduct(k: nat, row: int)
    ensures Times(k, row) == k * row
  {
    if k > 0 {
      TimesIsProduct(k - 1, row);
      MulSucc(k - 1, row);
    }
  }

  /** 2^13 cells' worth of palette ids: more than a section can hold. */
  lemma Pow2Thirteen()
    ensures Pow2(13) == 8192
  {
  }

  /** `proto::chunk::Section`: the palette, the width, the number of non-air
      cells and the packed words, as stored and sent. */
  datatype ProtoSection = ProtoSection(palette: seq<nat>, bitsPerBlock: int, nonAirBlocks: int, data: seq<u64>)

  /** Every global id of a palette put through a block-id conversion. */
  function MapIds(f: nat -> nat, palette: seq<nat>): (r: seq<nat>)
    ensures |r| == |palette|
    ensures forall i :: 0 <= i < |palette| ==> r[i] == f(palette[i])
  {
    seq(|palette|, i requires 0 <= i < |palette| => f(palette[i]))
  }

  /** Air is never a non-zero palette entry of a valid palette, so the cells
      holding palette id 0 are exactly the air blocks. */
  lemma {:induction false} CountAir(palette: seq<nat>, cells: seq<int>)
    requires InRange(cells, |palette|) && |palette| >= 1 && palette[0] == 0
    requires forall i :: 1 <= i < |palette| ==> palette[i] != 0
    ensures Count(BlocksOf(palette, cells), 0) == Count(cells, 0)
  {
    if |cells| > 0 {
      assert BlocksOf(palette, cells)[1..] == BlocksOf(palette, cells[1..]);
      CountAir(palette, cells[1..]);
    }
  }

  class Section {
    var bitsPerBlock: nat
    var data: seq<u64>
    var palette: seq<nat>
    var blockAmounts: seq<nat>
    var reversePalette: map<nat, nat>
    ghost var cells: seq<int>

    /** The packed words hold `cells`. */
    ghost predicate Encoded()
      reads this
    {
      4 <= bitsPerBlock < 64 && |data| == 64 * bitsPerBlock &&
      Encodes(data, bitsPerBlock, cells)
    }

    /** Air is palette id 0, every palette id fits in `bitsPerBlock` bits, and
        the reverse map inverts the palette. */
    ghost predicate PaletteOk()
      reads this
    {
      |palette| >= 1 && palette[0] == 0 && |palette| <= Pow2(bitsPerBlock) &&
      |blockAmounts| == |palette| && Inverts(reversePalette, palette)
    }

    /** Every cell holds an index into the palette. */
    ghost predicate CellsInPalette()
      reads this
    {
      |cells| == CELLS && InRange(cells, |palette|)
    }

    /** The invariant every operation keeps: the encoding, the palette and
        the amounts agree with the cells, and at most `MAX_UNUSED` non-air
        entries are unused. */
    ghost predicate Valid()
      reads this
    {
      Encoded() && PaletteOk() && CellsInPalette() &&
      CountsMatch(blockAmounts, cells) && Unused(blockAmounts) <= MAX_UNUSED
    }

    /** A valid section's palette holds air, at most `MAX_UNUSED` unused
        entries and one entry per distinct block in use, so it stays far
        below the widths at which the shifts of the encoding overflow. */
    lemma PaletteSmall()
      requires Valid()
      ensures |palette| <= 1 + MAX_UNUSED + CELLS
      ensures |palette| + 1 < Pow2(13) < Pow2(63)
    {
      PaletteBound(blockAmounts, cells);
      Pow2Thirteen();
      Pow2Strict(13, 63);
    }

    /** The global block id of every cell. */
    ghost function Blocks(): (r: seq<nat>)
      reads this
      requires CellsInPalette()
      ensures |r| == CELLS
    {
      BlocksOf(palette, cells)
    }

    /** `Section::default`: every cell air, four bits per block. */
    constructor ()
      ensures Valid()
      ensures Blocks() == seq(CELLS, _ => 0)
      ensures bitsPerBlock == 4 && |data| == 256 && forall i :: 0 <= i < 256 ==> data[i] == 0
      ensures palette == [0] && blockAmounts == [CELLS] && reversePalette == map[0 := 0]
    {
      bitsPerBlock := 4;
      data := seq(256, _ => 0);
      palette := [0];
      blockAmounts := [CELLS];
      reversePalette := map[0 := 0];
      cells := seq(CELLS, _ => 0);
      new;
      ZerosEncode(data, 4);
      CountUniform(CELLS, 0, 0);
      assert blockAmounts[1..] == [];
    }

    /** The palette id stored for position `p` (`get_palette`). */
    function GetPalette(p: Pos): (id: nat)
      reads this
      requires Encoded() && InSection(p)
      ensures id == cells[Index(p)]
    {
      DecodeAt(data, bitsPerBlock, CELLS, Index(p));
      CellAt(data, bitsPerBlock, Index(p))
    }

    /** The global block id at position `p` (`get_block`). */
    function GetBlock(p: Pos): (ty: nat)
      reads this
      requires Valid() && InSection(p)
      ensures ty == Blocks()[Index(p)]
    {
      palette[GetPalette(p)]
    }

    /** Stores palette id `id` for position `p` (`set_palette`). */
    method SetPalette(p: Pos, id: nat)
      requires Encoded() && InSection(p) && id < Pow2(bitsPerBlock)
      modifies this
      ensures Encoded() && cells == old(cells)[Index(p) := id]
      ensures bitsPerBlock == old(bitsPerBlock) && palette == old(palette)
      ensures blockAmounts == old(blockAmounts) && reversePalette == old(reversePalette)
    {
      var c := Index(p);
      ghost var cs := cells;
      data := StoreId(data, bitsPerBlock, c, id, cs);
      cells := cs[c := id];
    }

    /** Adds `shiftAmount` to every palette id at or above `id`
        (`shift_all_above`). The source walks the cells in three nested loops
        of 16 whose bodies only use the running bit index; here the walk is one
        loop over the 4096 cells in the same order. */
    method ShiftAllAbove(id: nat, shiftAmount: int)
      requires Encoded()
      requires shiftAmount == 1 || shiftAmount == -1
      requires forall c :: 0 <= c < CELLS && cells[c] >= id ==>
        0 <= cells[c] + shiftAmount < Pow2(bitsPerBlock)
      modifies this
      ensures Encoded()
      ensures cells == if shiftAmount == 1 then ShiftUp(old(cells), id) else ShiftDown(old(cells), id)
      ensures bitsPerBlock == old(bitsPerBlock) && palette == old(palette)
      ensures blockAmounts == old(blockAmounts) && reversePalette == old(reversePalette)
    {
      var bpb := bitsPerBlock;
      ghost var target := if shiftAmount == 1 then ShiftUp(cells, id) else ShiftDown(cells, id);
      var words := data;
      var bitIndex := 0;
      var c := 0;
      while c < CELLS
        invariant 0 <= c <= CELLS && bitIndex == c * bpb
        invariant |words| == 64 * bpb
        invariant RewrittenUpTo(words, bpb, c, target, cells)
        modifies {}
      {
        ReadCell(words, bpb, c, bitIndex);
        var v := ReadAt(words, bpb, bitIndex);
        if v >= id {
          var nv := v + shiftAmount;
          RewriteStep(words, bpb, c, bitIndex, nv, target, cells);
          words := Store(words, bpb, bitIndex, nv);
        } else {
          KeepStep(words, bpb, c, bitIndex, target, cells);
        }
        bitIndex := bitIndex + bpb;
        c := c + 1;
      }
      RewrittenAll(words, bpb, target, cells);
      data := words;
      cells := target;
    }

    /** Re-encodes every cell with one more bit per block
        (`increase_bits_per_block`); the cells keep their palette ids. */
    method IncreaseBitsPerBlock()
      requires Encoded() && bitsPerBlock + 1 < 64
      modifies this
      ensures Encoded() && bitsPerBlock == old(bitsPerBlock) + 1 && cells == old(cells)
      ensures palette == old(palette) && blockAmounts == old(blockAmounts)
      ensures reversePalette == old(reversePalette)
    {
      var ob := bitsPerBlock;
      var src := data;
      ghost var cs := cells;
      var bpb := ob + 1;
      var newData: seq<u64> := seq(64 * bpb, _ => 0);
      ghost var zeros: seq<int> := seq(CELLS, _ => 0);
      ZerosRewrittenNone(newData, bpb, cs, zeros);
      Pow2Strict(ob, bpb);
      var bitIndex := 0;
      var c := 0;
      while c < CELLS
        invariant 0 <= c <= CELLS && bitIndex == c * bpb && |newData| == 64 * bpb
        invariant RewrittenUpTo(newData, bpb, c, cs, zeros)
        modifies {}
      {
        var id := CellAt(src, ob, c);
        CopyStep(src, ob, cs, newData, bpb, c, bitIndex, zeros);
        newData := Store(newData, bpb, bitIndex, id);
        bitIndex := bitIndex + bpb;
        c := c + 1;
      }
      RewrittenAll(newData, bpb, cs, zeros);
      data := newData;
      bitsPerBlock := bpb;
    }

    /** Adds global id `ty`, which the palette does not hold yet, in front of
        the first larger palette entry (`insert`). The cells are widened by
        one bit first when the grown palette would no longer fit in them;
        every stored palette id and every reverse-map index at or above the
        new entry moves up by one, and the new entry's amount is 0. */
    method Insert(ty: nat) returns (pid: nat)
      requires Encoded() && PaletteOk() && CellsInPalette()
      requires ty !in reversePalette
      requires |palette| + 1 < Pow2(63)
      modifies this
      ensures 1 <= pid <= old(|palette|)
      ensures forall i :: 0 <= i < pid ==> old(palette)[i] < ty
      ensures pid < old(|palette|) ==> ty < old(palette)[pid]
      ensures palette == InsertAt(old(palette), pid, ty)
      ensures blockAmounts == InsertAt(old(blockAmounts), pid, 0)
      ensures reversePalette == ShiftMapUp(old(reversePalette), pid)[ty := pid]
      ensures cells == ShiftUp(old(cells), pid)
      ensures bitsPerBlock == InsertWidth(old(|palette|), old(bitsPerBlock))
      ensures Encoded() && PaletteOk() && CellsInPalette()
      ensures |palette| < Pow2(bitsPerBlock)
    {
      if |palette| + 1 >= Pow2(bitsPerBlock) {
        WideningRoom(|palette|, bitsPerBlock);
        IncreaseBitsPerBlock();
      }
      pid := AddEntry(ty);
    }

    /** The part of `insert` after any widening: the palette has room for
        one more entry in `bitsPerBlock` bits. */
    method AddEntry(ty: nat) returns (pid: nat)
      requires Encoded() && PaletteOk() && CellsInPalette()
      requires ty !in reversePalette
      requires |palette| < Pow2(bitsPerBlock)
      modifies this
      ensures 1 <= pid <= old(|palette|)
      ensures forall i :: 0 <= i < pid ==> old(palette)[i] < ty
      ensures pid < old(|palette|) ==> ty < old(palette)[pid]
      ensures palette == InsertAt(old(palette), pid, ty)
      ensures blockAmounts == InsertAt(old(blockAmounts), pid, 0)
      ensures reversePalette == ShiftMapUp(old(reversePalette), pid)[ty := pid]
      ensures cells == ShiftUp(old(cells), pid)
      ensures bitsPerBlock == old(bitsPerBlock)
      ensures Encoded() && PaletteOk() && CellsInPalette()
    {
      ghost var p0, r0, c0 := palette, reversePalette, cells;
      pid := InsertPosition(palette, ty);
      assert p0[0] == 0 && 0 in r0;
      InsertInverts(r0, p0, ty, pid);
      BlocksInsert(p0, c0, pid, ty);
      palette := InsertAt(palette, pid, ty);
      blockAmounts := InsertAt(blockAmounts, pid, 0);
      reversePalette := ShiftMapUp(reversePalette, pid);
      reversePalette := reversePalette[ty := pid];
      assert PaletteOk();
      ShiftAllAbove(pid, 1);
    }

    /** Drops palette entry `id` (`remove`): the entry, its amount and its
        reverse-map key go, and every reverse-map index above `id` and every
        stored palette id at or above `id` moves down by one. The width is
        left as it is. */
    method Remove(id: nat)
      requires Encoded() && PaletteOk() && CellsInPalette()
      requires 0 < id < |palette|
      modifies this
      ensures palette == RemoveAt(old(palette), id)
      ensures blockAmounts == RemoveAt(old(blockAmounts), id)
      ensures reversePalette == ShiftMapDown(old(reversePalette), id) - {old(palette)[id]}
      ensures cells == ShiftDown(old(cells), id)
      ensures bitsPerBlock == old(bitsPerBlock)
      ensures Encoded() && PaletteOk() && CellsInPalette()
    {
      var ty := palette[id];
      RemoveInverts(reversePalette, palette, id);
      ShiftDownInRange(cells, id, |palette|);
      palette := RemoveAt(palette, id);
      blockAmounts := RemoveAt(blockAmounts, id);
      reversePalette := ShiftMapDown(reversePalette, id);
      reversePalette := reversePalette - {ty};
      ShiftAllAbove(id, -1);
    }

    /** Places global block `ty` at position `p` (`set_block`). The palette
        gains an entry when `ty` is new to it and loses the previous block's
        entry when that was its last cell (air stays); the counts follow the
        cells, and no other block changes. */
    method SetBlock(p: Pos, ty: nat)
      requires Valid() && InSection(p)
      modifies this
      ensures Valid()
      ensures Blocks() == old(Blocks())[Index(p) := ty]
      ensures bitsPerBlock >= old(bitsPerBlock)
      ensures old(Ascending(palette)) ==> Ascending(palette)
    {
      var c := Index(p);
      var prev := GetPalette(p);
      ghost var blocks0 := Blocks();
      ghost var asc0 := Ascending(palette);
      var pid: nat;
      if ty in reversePalette {
        pid := reversePalette[ty];
        if prev == pid {
          assert blocks0[c := ty] == blocks0;
          return;
        }
      } else {
        PaletteSmall();
        ghost var p0, a0, c0 := palette, blockAmounts, cells;
        pid := Insert(ty);
        BlocksInsert(p0, c0, pid, ty);
        CountsInsert(a0, c0, pid);
        UnusedInsert(a0, pid, 0);
        if asc0 {
          InsertAscending(p0, ty, pid);
        }
        if pid <= prev {
          prev := prev + 1;
        }
      }
      assert Encoded() && PaletteOk() && CellsInPalette();
      assert CountsMatch(blockAmounts, cells);
      assert cells[c] == prev && prev != pid && palette[pid] == ty;
      assert Blocks() == blocks0;
      assert Unused(blockAmounts) - (if pid >= 1 && blockAmounts[pid] == 0 then 1 else 0) <= MAX_UNUSED;
      assert Ascending(palette) || !asc0;
      Place(p, prev, pid);
    }

    /** `set_palette` followed by the bookkeeping that ends `set_block`. */
    method Place(p: Pos, prev: nat, pid: nat)
      requires Encoded() && PaletteOk() && CellsInPalette() && InSection(p)
      requires CountsMatch(blockAmounts, cells)
      requires pid < |palette| && prev != pid && cells[Index(p)] == prev
      requires Unused(blockAmounts) - (if pid >= 1 && blockAmounts[pid] == 0 then 1 else 0) <= MAX_UNUSED
      modifies this
      ensures Valid()
      ensures Blocks() == old(Blocks())[Index(p) := old(palette)[pid]]
      ensures bitsPerBlock == old(bitsPerBlock)
      ensures old(Ascending(palette)) ==> Ascending(palette)
    {
      var c := Index(p);
      BlocksSet(palette, cells, c, pid);
      ghost var before := cells;
      SetPalette(p, pid);
      assert cells[c := prev] == before;
      MoveCount(c, prev, pid);
    }

    /** The bookkeeping that ends `set_block`: cell `c` has just moved from
        palette id `prev` to `pid`, so one unit of count moves with it, and
        `prev` leaves the palette when that was its last cell, unless it is
        air. */
    method MoveCount(ghost c: nat, prev: nat, pid: nat)
      requires Encoded() && PaletteOk() && CellsInPalette()
      requires c < CELLS && pid < |palette| && cells[c] == pid
      requires prev < |palette| && prev != pid
      requires CountsMatch(blockAmounts, cells[c := prev])
      requires Unused(blockAmounts) - (if pid >= 1 && blockAmounts[pid] == 0 then 1 else 0) <= MAX_UNUSED
      modifies this
      ensures Valid()
      ensures Blocks() == old(Blocks())
      ensures bitsPerBlock == old(bitsPerBlock)
      ensures old(Ascending(palette)) ==> Ascending(palette)
    {
      ghost var before := cells[c := prev];
      assert before[c := pid] == cells;
      CountsMove(blockAmounts, before, c, prev, pid);
      var amounts := blockAmounts[pid := blockAmounts[pid] + 1];
      UnusedUpdate(blockAmounts, pid, blockAmounts[pid] + 1);
      UnusedUpdate(amounts, prev, amounts[prev] - 1);
      amounts := amounts[prev := amounts[prev] - 1];
      assert CountsMatch(amounts, cells);
      blockAmounts := amounts;
      assert Encoded() && PaletteOk() && CellsInPalette();
      if amounts[prev] == 0 && prev != 0 {
        RemoveUnused(prev);
      } else {
        assert Unused(amounts) <= MAX_UNUSED;
      }
    }

    /** `remove` of a non-air palette entry that no cell uses: the blocks stay
        as they are and the section becomes valid again. */
    method RemoveUnused(id: nat)
      requires Encoded() && PaletteOk() && CellsInPalette()
      requires CountsMatch(blockAmounts, cells)
      requires 0 < id < |palette| && blockAmounts[id] == 0
      requires Unused(blockAmounts) <= MAX_UNUSED + 1
      modifies this
      ensures Valid()
      ensures Blocks() == old(Blocks())
      ensures bitsPerBlock == old(bitsPerBlock)
      ensures old(Ascending(palette)) ==> Ascending(palette)
    {
      assert Count(cells, id) == 0;
      BlocksRemove(palette, cells, id);
      CountsRemove(blockAmounts, cells, id);
      UnusedRemove(blockAmounts, id);
      if Ascending(palette) {
        RemoveAscending(palette, id);
      }
      Remove(id);
    }

    /** The first loop of the general `fill`: every cell of the box gives
        back one unit of its palette id's amount, as if it had been cleared
        (marked `-1`). */
    method Uncount(min: Pos, max: Pos) returns (amounts: seq<nat>)
      requires Encoded() && CellsInPalette() && |blockAmounts| == |palette|
      requires CountsMatch(blockAmounts, cells) && Ordered(min, max)
      ensures |amounts| == |palette|
      ensures CountsMatch(amounts, Filled(cells, min, max, -1))
      ensures Count(Filled(cells, min, max, -1), -1) == Volume(min, max)
    {
      amounts := blockAmounts;
      ghost var area := Times(max.z - min.z + 1, max.x - min.x + 1);
      CountAbsent(cells, -1);
      WalkStart(cells, min, max, -1);
      var y := min.y;
      while y <= max.y
        invariant min.y <= y <= max.y + 1 && |amounts| == |palette|
        invariant CountsMatch(amounts, Marked(cells, min, max, y, min.z, min.x, -1))
        invariant Count(Marked(cells, min, max, y, min.z, min.x, -1), -1) == Times(y - min.y, area)
      {
        amounts := UncountLayer(amounts, min, max, y);
        y := y + 1;
      }
      WalkEnd(cells, min, max, -1);
      TimesIsProduct(max.y - min.y + 1, area);
      TimesIsProduct(max.z - min.z + 1, max.x - min.x + 1);
      VolumeLayers(min, max);
    }

    /** One layer `y` of the first loop of `fill`. */
    method UncountLayer(amounts0: seq<nat>, min: Pos, max: Pos, y: int) returns (amounts: seq<nat>)
      requires Encoded() && CellsInPalette() && Ordered(min, max) && min.y <= y <= max.y
      requires |amounts0| == |palette|
      requires CountsMatch(amounts0, Marked(cells, min, max, y, min.z, min.x, -1))
      ensures |amounts| == |palette|
      ensures CountsMatch(amounts, Marked(cells, min, max, y + 1, min.z, min.x, -1))
      ensures Count(Marked(cells, min, max, y + 1, min.z, min.x, -1), -1)
           == Count(Marked(cells, min, max, y, min.z, min.x, -1), -1) + Times(max.z - min.z + 1, max.x - min.x + 1)
    {
      amounts := amounts0;
      ghost var row := max.x - min.x + 1;
      ghost var n0 := Count(Marked(cells, min, max, y, min.z, min.x, -1), -1);
      var z := min.z;
      while z <= max.z
        invariant min.z <= z <= max.z + 1 && |amounts| == |palette|
        invariant CountsMatch(amounts, Marked(cells, min, max, y, z, min.x, -1))
        invariant Count(Marked(cells, min, max, y, z, min.x, -1), -1) == n0 + Times(z - min.z, row)
      {
        amounts := UncountRow(amounts, min, max, y, z);
        assert Times(z + 1 - min.z, row) == Times(z - min.z, row) + row;
        z := z + 1;
      }
      WalkLayerEnd(cells, min, max, y, -1);
    }

    /** One row `(y, z)` of the first loop of `fill`. */
    method UncountRow(amounts0: seq<nat>, min: Pos, max: Pos, y: int, z: int) returns (amounts: seq<nat>)
      requires Encoded() && CellsInPalette() && Ordered(min, max)
      requires min.y <= y <= max.y && min.z <= z <= max.z
      requires |amounts0| == |palette|
      requires CountsMatch(amounts0, Marked(cells, min, max, y, z, min.x, -1))
      ensures |amounts| == |palette|
      ensures CountsMatch(amounts, Marked(cells, min, max, y, z + 1, min.x, -1))
      ensures Count(Marked(cells, min, max, y, z + 1, min.x, -1), -1)
           == Count(Marked(cells, min, max, y, z, min.x, -1), -1) + (max.x - min.x + 1)
    {
      amounts := amounts0;
      ghost var n0 := Count(Marked(cells, min, max, y, z, min.x, -1), -1);
      var x := min.x;
      while x <= max.x
        invariant min.x <= x <= max.x + 1 && |amounts| == |palette|
        invariant CountsMatch(amounts, Marked(cells, min, max, y, z, x, -1))
        invariant Count(Marked(cells, min, max, y, z, x, -1), -1) == n0 + (x - min.x)
      {
        UncountWalkStep(amounts, cells, min, max, y, z, x);
        var id := GetPalette(Pos(x, y, z));
        amounts := amounts[id := amounts[id] - 1];
        x := x + 1;
      }
      WalkRowEnd(cells, min, max, y, z, -1);
    }

    /** The state between the two loops of the general `fill`: the encoding
        and the palette hold, and the amounts count the cells outside the
        box, whose cells are about to be overwritten. */
    ghost predicate Cleared(min: Pos, max: Pos)
      reads this
    {
      Encoded() && PaletteOk() && CellsInPalette() && Ordered(min, max) &&
      CountsMatch(blockAmounts, Filled(cells, min, max, -1)) &&
      Count(Filled(cells, min, max, -1), -1) == Volume(min, max)
    }

    /** `remove` of a non-air entry that no cell outside the box uses: the
        blocks outside the box stay as they are. */
    method RemoveCleared(id: nat, ghost min: Pos, ghost max: Pos)
      requires Cleared(min, max) && 0 < id < |palette| && blockAmounts[id] == 0
      modifies this
      ensures Cleared(min, max)
      ensures blockAmounts == RemoveAt(old(blockAmounts), id)
      ensures Outside(palette, cells, min, max) == old(Outside(palette, cells, min, max))
      ensures bitsPerBlock == old(bitsPerBlock)
      ensures old(Ascending(palette)) ==> Ascending(palette)
    {
      ghost var f := Filled(cells, min, max, -1);
      assert Count(f, id) == 0;
      OutsideRemove(palette, cells, min, max, id);
      CountsRemove(blockAmounts, f, id);
      CountShiftDown(f, id, -1);
      FilledShiftDown(cells, min, max, id);
      if Ascending(palette) {
        RemoveAscending(palette, id);
      }
      Remove(id);
    }

    /** The removals of the general `fill`, largest id first, so that every
        id still to remove keeps its number: afterwards every non-air entry
        has a cell outside the box. */
    method Prune(ids: seq<nat>, ghost min: Pos, ghost max: Pos)
      requires Cleared(min, max) && ToRemove(blockAmounts, ids, |ids|)
      modifies this
      ensures Cleared(min, max)
      ensures forall i :: 1 <= i < |blockAmounts| ==> blockAmounts[i] != 0
      ensures Outside(palette, cells, min, max) == old(Outside(palette, cells, min, max))
      ensures bitsPerBlock == old(bitsPerBlock)
      ensures old(Ascending(palette)) ==> Ascending(palette)
    {
      var k := |ids|;
      while k > 0
        invariant 0 <= k <= |ids|
        invariant Cleared(min, max) && ToRemove(blockAmounts, ids, k)
        invariant Outside(palette, cells, min, max) == old(Outside(palette, cells, min, max))
        invariant bitsPerBlock == old(bitsPerBlock)
        invariant old(Ascending(palette)) ==> Ascending(palette)
      {
        PruneStep(blockAmounts, ids, k);
        RemoveCleared(ids[k - 1], min, max);
        k := k - 1;
      }
    }

    /** The part of the general `fill` before the new block goes in: the
        box's cells give back their amounts and every non-air entry left
        without cells is removed. Corrected: the unused entries go highest
        first (`Prune`), not in the ascending order the source uses, which
        `Box.PruneAsWritten` models. */
    method Clear(min: Pos, max: Pos)
      requires Valid() && Ordered(min, max)
      modifies this
      ensures Cleared(min, max)
      ensures forall i :: 1 <= i < |blockAmounts| ==> blockAmounts[i] != 0
      ensures Outside(palette, cells, min, max) == old(Outside(palette, cells, min, max))
      ensures bitsPerBlock == old(bitsPerBlock)
      ensures old(Ascending(palette)) ==> Ascending(palette)
    {
      var amounts := Uncount(min, max);
      blockAmounts := amounts;
      var ids := UnusedIds(amounts);
      Prune(ids, min, max);
    }

    /** `insert` of a block new to the palette between the two loops of the
        general `fill`. */
    method InsertCleared(ty: nat, ghost min: Pos, ghost max: Pos) returns (pid: nat)
      requires Cleared(min, max) && ty !in reversePalette
      requires forall i :: 1 <= i < |blockAmounts| ==> blockAmounts[i] != 0
      modifies this
      ensures Cleared(min, max) && pid < |palette| && palette[pid] == ty
      ensures forall i :: 1 <= i < |blockAmounts| && i != pid ==> blockAmounts[i] != 0
      ensures Outside(palette, cells, min, max) == old(Outside(palette, cells, min, max))
      ensures bitsPerBlock >= old(bitsPerBlock)
      ensures old(Ascending(palette)) ==> Ascending(palette)
    {
      ghost var p1, a1, c1 := palette, blockAmounts, cells;
      ghost var f1 := Filled(c1, min, max, -1);
      CountsBound(a1, f1);
      Pow2Thirteen();
      Pow2Strict(13, 63);
      pid := Insert(ty);
      OutsideInsert(p1, c1, min, max, pid, ty);
      CountsInsert(a1, f1, pid);
      FilledShiftUp(c1, min, max, pid);
      CountShiftUp(f1, pid, -1);
      if Ascending(p1) {
        InsertAscending(p1, ty, pid);
      }
    }

    /** The part of the general `fill` after the removals: the block gets a
        palette id (inserted when new), that id's amount grows by the volume
        of the box, and every cell of the box is set to it. */
    method Cover(min: Pos, max: Pos, ty: nat)
      requires Cleared(min, max)
      requires forall i :: 1 <= i < |blockAmounts| ==> blockAmounts[i] != 0
      modifies this
      ensures Valid()
      ensures Blocks() == Filled(old(Blocks()), min, max, ty)
      ensures bitsPerBlock >= old(bitsPerBlock)
      ensures old(Ascending(palette)) ==> Ascending(palette)
    {
      ghost var p0, c0 := palette, cells;
      var pid: nat;
      if ty in reversePalette {
        pid := reversePalette[ty];
      } else {
        pid := InsertCleared(ty, min, max);
      }
      CountsFill(blockAmounts, cells, min, max, pid);
      VolumeLayers(min, max);
      blockAmounts := blockAmounts[pid := blockAmounts[pid] + Volume(min, max)];
      OutsideFill(palette, cells, p0, c0, min, max, pid);
      Paint(min, max, pid);
      ZeroCountNone(blockAmounts[1..]);
    }

    /** The second loop of the general `fill`: every cell of the box gets
        palette id `pid`. */
    method Paint(min: Pos, max: Pos, pid: nat)
      requires Encoded() && |cells| == CELLS && Ordered(min, max) && pid < Pow2(bitsPerBlock)
      modifies this
      ensures Encoded() && cells == Filled(old(cells), min, max, pid)
      ensures bitsPerBlock == old(bitsPerBlock) && palette == old(palette)
      ensures blockAmounts == old(blockAmounts) && reversePalette == old(reversePalette)
    {
      ghost var c0 := cells;
      WalkStart(c0, min, max, pid);
      var y := min.y;
      while y <= max.y
        invariant min.y <= y <= max.y + 1
        invariant Encoded() && cells == Marked(c0, min, max, y, min.z, min.x, pid)
        invariant bitsPerBlock == old(bitsPerBlock) && palette == old(palette)
        invariant blockAmounts == old(blockAmounts) && reversePalette == old(reversePalette)
      {
        PaintLayer(min, max, y, pid, c0);
        y := y + 1;
      }
      WalkEnd(c0, min, max, pid);
    }

    /** One layer `y` of the second loop of `fill`. */
    method PaintLayer(min: Pos, max: Pos, y: int, pid: nat, ghost c0: seq<int>)
      requires Encoded() && |c0| == CELLS && Ordered(min, max) && min.y <= y <= max.y
      requires pid < Pow2(bitsPerBlock)
      requires cells == Marked(c0, min, max, y, min.z, min.x, pid)
      modifies this
      ensures Encoded() && cells == Marked(c0, min, max, y + 1, min.z, min.x, pid)
      ensures bitsPerBlock == old(bitsPerBlock) && palette == old(palette)
      ensures blockAmounts == old(blockAmounts) && reversePalette == old(reversePalette)
    {
      var z := min.z;
      while z <= max.z
        invariant min.z <= z <= max.z + 1
        invariant Encoded() && cells == Marked(c0, min, max, y, z, min.x, pid)
        invariant bitsPerBlock == old(bitsPerBlock) && palette == old(palette)
        invariant blockAmounts == old(blockAmounts) && reversePalette == old(reversePalette)
      {
        PaintRow(min, max, y, z, pid, c0);
        z := z + 1;
      }
      WalkLayerEnd(c0, min, max, y, pid);
    }

    /** One row `(y, z)` of the second loop of `fill`. */
    method PaintRow(min: Pos, max: Pos, y: int, z: int, pid: nat, ghost c0: seq<int>)
      requires Encoded() && |c0| == CELLS && Ordered(min, max)
      requires min.y <= y <= max.y && min.z <= z <= max.z
      requires pid < Pow2(bitsPerBlock)
      requires cells == Marked(c0, min, max, y, z, min.x, pid)
      modifies this
      ensures Encoded() && cells == Marked(c0, min, max, y, z + 1, min.x, pid)
      ensures bitsPerBlock == old(bitsPerBlock) && palette == old(palette)
      ensures blockAmounts == old(blockAmounts) && reversePalette == old(reversePalette)
    {
      var x := min.x;
      while x <= max.x
        invariant min.x <= x <= max.x + 1
        invariant Encoded() && cells == Marked(c0, min, max, y, z, x, pid)
        invariant bitsPerBlock == old(bitsPerBlock) && palette == old(palette)
        invariant blockAmounts == old(blockAmounts) && reversePalette == old(reversePalette)
      {
        WalkStep(c0, min, max, y, z, x, pid);
        SetPalette(Pos(x, y, z), pid);
        x := x + 1;
      }
      WalkRowEnd(c0, min, max, y, z, pid);
    }

    /** `fill` of the whole section: the section is replaced by one that
        holds `ty` everywhere (the default section for air). */
    method FillAll(ty: nat)
      modifies this
      ensures Valid() && Blocks() == seq(CELLS, _ => ty)
      ensures bitsPerBlock == 4
      ensures palette == if ty == 0 then [0] else [0, ty]
      ensures blockAmounts == if ty == 0 then [CELLS] else [0, CELLS]
    {
      if ty == 0 {
        ResetAir();
      } else {
        ResetTo(ty);
      }
    }

    /** `*self = Section::default()`. */
    method ResetAir()
      modifies this
      ensures Valid() && Blocks() == seq(CELLS, _ => 0)
      ensures bitsPerBlock == 4 && palette == [0] && blockAmounts == [CELLS]
      ensures |data| == 256 && (forall i :: 0 <= i < 256 ==> data[i] == 0) && reversePalette == map[0 := 0]
    {
      bitsPerBlock := 4;
      data := seq(256, _ => 0);
      palette := [0];
      blockAmounts := [CELLS];
      reversePalette := map[0 := 0];
      cells := seq(CELLS, _ => 0);
      ZerosEncode(data, 4);
      assert Encoded();
      assert PaletteOk();
      CountUniform(CELLS, 0, 0);
      assert CountsMatch(blockAmounts, cells);
      assert blockAmounts[1..] == [];
    }

    /** The section that holds non-air block `ty` in every cell: palette
        `[0, ty]`, every 4-bit cell 1, and air kept with no cells. */
    method ResetTo(ty: nat)
      requires ty != 0
      modifies this
      ensures Valid() && Blocks() == seq(CELLS, _ => ty)
      ensures bitsPerBlock == 4 && palette == [0, ty] && blockAmounts == [0, CELLS]
    {
      bitsPerBlock := 4;
      data := seq(256, _ => ONES4);
      palette := [0, ty];
      blockAmounts := [0, CELLS];
      reversePalette := map[0 := 0, ty := 1];
      cells := seq(CELLS, _ => 1);
      OnesEncode(data);
      assert Encoded();
      assert PaletteOk();
      CountUniform(CELLS, 1, 0);
      CountUniform(CELLS, 1, 1);
      assert CountsMatch(blockAmounts, cells);
      assert blockAmounts[1..] == [CELLS];
      assert ZeroCount([CELLS]) == 0 by { assert [CELLS][1..] == []; }
    }

    /** Sets every block of the box from `min` to `max` to `ty` (`fill`).
        The whole section is replaced outright; any other box gives back the
        amounts of its cells, drops the palette entries left without cells
        (air stays), takes a palette id for `ty` and overwrites its cells.
        Corrected: the unused entries are removed highest first (`Clear`);
        the source's ascending removal is `Box.PruneAsWritten`. */
    method Fill(min: Pos, max: Pos, ty: nat)
      requires Valid() && Ordered(min, max)
      modifies this
      ensures Valid()
      ensures Blocks() == Filled(old(Blocks()), min, max, ty)
      ensures min == Pos(0, 0, 0) && max == Pos(15, 15, 15) ==>
        bitsPerBlock == 4 && palette == (if ty == 0 then [0] else [0, ty])
      ensures !(min == Pos(0, 0, 0) && max == Pos(15, 15, 15)) ==>
        bitsPerBlock >= old(bitsPerBlock) && (old(Ascending(palette)) ==> Ascending(palette))
    {
      if min == Pos(0, 0, 0) && max == Pos(15, 15, 15) {
        WholeBox(Blocks(), ty);
        FillAll(ty);
      } else {
        ghost var p0, c0 := palette, cells;
        Clear(min, max);
        OutsideSame(palette, cells, p0, c0, min, max, ty);
        Cover(min, max, ty);
      }
    }

    /** A section assembled from parts that already agree with each other;
        `duplicate` and the protobuf readers build sections this way. */
    constructor Assemble(bpb: nat, words: seq<u64>, pal: seq<nat>, amounts: seq<nat>,
                         rev: map<nat, nat>, ghost cs: seq<int>)
      requires 4 <= bpb < 64 && |words| == 64 * bpb && Encodes(words, bpb, cs)
      requires |pal| >= 1 && pal[0] == 0 && |pal| <= Pow2(bpb) && |amounts| == |pal|
      requires Inverts(rev, pal)
      requires |cs| == CELLS && InRange(cs, |pal|) && CountsMatch(amounts, cs)
      requires Unused(amounts) <= MAX_UNUSED
      ensures Valid()
      ensures bitsPerBlock == bpb && data == words && palette == pal
      ensures blockAmounts == amounts && reversePalette == rev && cells == cs
    {
      bitsPerBlock := bpb;
      data := words;
      palette := pal;
      blockAmounts := amounts;
      reversePalette := rev;
      cells := cs;
    }

    /** An independent copy of the section (`duplicate`). */
    method Duplicate() returns (s: Section)
      requires Valid()
      ensures fresh(s) && s.Valid() && s.Blocks() == Blocks()
      ensures s.bitsPerBlock == bitsPerBlock && s.data == data && s.palette == palette
      ensures s.blockAmounts == blockAmounts && s.reversePalette == reversePalette
    {
      s := new Section.Assemble(bitsPerBlock, data, palette, blockAmounts, reversePalette, cells);
    }

    /** The section as the current protobuf format stores it
        (`to_latest_proto`): the number of non-air blocks is read off the
        amount of palette id 0. */
    function ToLatestProto(): (pb: ProtoSection)
      reads this
      requires Valid()
      ensures pb.palette == palette && pb.bitsPerBlock == bitsPerBlock && pb.data == data
      ensures pb.nonAirBlocks == CELLS - Count(Blocks(), 0)
    {
      InvertsDistinct(reversePalette, palette);
      CountAir(palette, cells);
      ProtoSection(palette, bitsPerBlock, CELLS - blockAmounts[0], data)
    }

    /** The section for an older block-id version (`to_old_proto`): the
        palette goes through the id conversion `f`, the cells stay. */
    function ToOldProto(f: nat -> nat): (pb: ProtoSection)
      reads this
      requires Valid()
      ensures |pb.palette| == |palette|
      ensures forall i :: 0 <= i < |palette| ==> pb.palette[i] == f(palette[i])
      ensures pb.bitsPerBlock == bitsPerBlock && pb.data == data
      ensures pb.nonAirBlocks == CELLS - Count(Blocks(), 0)
    {
      InvertsDistinct(reversePalette, palette);
      CountAir(palette, cells);
      ProtoSection(MapIds(f, palette), bitsPerBlock, CELLS - blockAmounts[0], data)
    }
  }
}
