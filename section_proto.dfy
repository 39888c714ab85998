/** Reading a paletted section back from its protobuf form
    (`validate_proto`, `from_latest_proto`, `from_old_proto`). A protobuf
    that `validate_proto` refuses makes the source panic; here it is an
    `Err`. Loading is corrected: it validates with `ValidateProto`, which
    also refuses 64 bits per block and a palette longer than `2^bpb`, two
    cases the source accepts and loads. */
module SectionProto {
  import opened Bits
  import opened Counting
  import opened Geometry
  import opened Palette
  import opened Wrappers
  import opened Paletted

  /** Why a protobuf section is refused. */
  datatype ProtoError =
    | InvalidBitsPerBlock(bpb: int)
    | PaletteTooLong(len: nat)
    | AirNotFirst(first: nat)
    | WrongDataLength(got: nat, expected: int)
    | CellOutOfPalette(id: nat)

  /** `validate_proto` as written: the width must lie in 4..=64, the palette
      must have at most 256 entries and start with air, and the data must be
      `4096 * bpb / 64` words long. */
  function ValidateProtoAsWritten(pb: ProtoSection): (r: Option<ProtoError>)
    ensures r.None? <==>
      4 <= pb.bitsPerBlock <= 64 && |pb.palette| <= 256 &&
      (|pb.palette| > 0 ==> pb.palette[0] == 0) && |pb.data| == 64 * pb.bitsPerBlock
    ensures r == Some(InvalidBitsPerBlock(pb.bitsPerBlock)) <==> !(4 <= pb.bitsPerBlock <= 64)
  {
    if pb.bitsPerBlock < 4 || pb.bitsPerBlock > 64 then Some(InvalidBitsPerBlock(pb.bitsPerBlock))
    else if |pb.palette| > 256 then Some(PaletteTooLong(|pb.palette|))
    else if |pb.palette| > 0 && pb.palette[0] != 0 then Some(AirNotFirst(pb.palette[0]))
    else if |pb.data| != CELLS * pb.bitsPerBlock / 64 then Some(WrongDataLength(|pb.data|, CELLS * pb.bitsPerBlock / 64))
    else None
  }

  /** `validate_proto` with the two checks the section needs: the width is
      below 64 (the 64-bit mask `(1 << bpb) - 1` of the encoding overflows at
      64) and every palette id fits in it. */
  function ValidateProto(pb: ProtoSection): (r: Option<ProtoError>)
    ensures r.None? <==>
      4 <= pb.bitsPerBlock < 64 && |pb.palette| <= 256 && |pb.palette| <= Pow2(pb.bitsPerBlock) &&
      (|pb.palette| > 0 ==> pb.palette[0] == 0) && |pb.data| == 64 * pb.bitsPerBlock
    ensures r.None? ==> ValidateProtoAsWritten(pb).None?
  {
    if pb.bitsPerBlock < 4 || pb.bitsPerBlock >= 64 then Some(InvalidBitsPerBlock(pb.bitsPerBlock))
    else if |pb.palette| > 256 || |pb.palette| > Pow2(pb.bitsPerBlock) then Some(PaletteTooLong(|pb.palette|))
    else if |pb.palette| > 0 && pb.palette[0] != 0 then Some(AirNotFirst(pb.palette[0]))
    else if |pb.data| != CELLS * pb.bitsPerBlock / 64 then Some(WrongDataLength(|pb.data|, CELLS * pb.bitsPerBlock / 64))
    else None
  }

  /** A 64-bit-wide protobuf section passes `validate_proto` as written,
      although a 64-bit cell has no mask: `1 << 64` overflows. */
  lemma WideSectionAccepted()
    ensures var pb := ProtoSection([0], 64, 0, seq(64 * 64, _ => 0));
      ValidateProtoAsWritten(pb).None? && ValidateProto(pb) == Some(InvalidBitsPerBlock(64))
  {
  }

  /** The global ids 0 to 255 in ascending order. */
  function Ramp(): (r: seq<nat>)
    ensures |r| == 256 && forall i :: 0 <= i < 256 ==> r[i] == i
  {
    seq(256, i requires 0 <= i < 256 => i)
  }

  /** A 4-bit protobuf section with a 256-entry palette passes
      `validate_proto` as written. Adding block 256 to it widens the cells
      once, to 5 bits (`insert` widens by one bit, not until the palette
      fits), and the palette search of `insert` then hands out palette id
      256 (no entry exceeds 256), which does not fit in 5 bits. */
  method LongPaletteAccepted() returns (width: nat, pid: nat)
    ensures var pb := ProtoSection(Ramp(), 4, 0, seq(64 * 4, _ => 0));
      ValidateProtoAsWritten(pb).None? && ValidateProto(pb) == Some(PaletteTooLong(256))
    ensures width == 5 && pid == 256 && pid >= Pow2(width)
  {
    var palette := Ramp();
    assert palette[0] == 0;
    width := InsertWidth(|palette|, 4);
    pid := InsertPosition(palette, 256);
  }

  /** The cells of a protobuf section that passes validation. */
  ghost function ProtoCells(pb: ProtoSection): (r: seq<int>)
    requires ValidateProto(pb).None?
    ensures |r| == CELLS
  {
    Decode(pb.data, pb.bitsPerBlock, CELLS)
  }

  /** A protobuf section can be read with palette `palette`: it passes
      validation and every cell holds an index into the palette. */
  ghost predicate Loadable(palette: seq<nat>, pb: ProtoSection)
  {
    ValidateProto(pb).None? && InRange(ProtoCells(pb), |palette|)
  }

  /** The reverse map of a palette (`reverse_palette.insert(v, i)` for every
      entry in order). */
  method ReverseMap(palette: seq<nat>) returns (rev: map<nat, nat>)
    ensures rev == ReverseOf(palette)
  {
    rev := map[];
    var i := 0;
    while i < |palette|
      invariant 0 <= i <= |palette| && rev == ReverseOf(palette[..i])
    {
      assert palette[..i + 1][..i] == palette[..i];
      rev := rev[palette[i] := i];
      i := i + 1;
    }
    assert palette[..i] == palette;
  }

  /** The amount of every palette id below `n`, counted over all cells in
      order (the counting loop of `from_*_proto`); `None` at the first cell
      whose id is not below `n`, where the source indexes past
      `block_amounts`. */
  method CountCells(words: seq<u64>, b: nat, n: nat) returns (r: Option<seq<nat>>)
    requires 1 <= b < 64 && |words| == 64 * b
    ensures r.Some? <==> InRange(Decode(words, b, CELLS), n)
    ensures r.Some? ==> |r.value| == n && CountsMatch(r.value, Decode(words, b, CELLS))
  {
    ghost var cs := Decode(words, b, CELLS);
    var amounts: seq<nat> := seq(n, _ => 0);
    var c := 0;
    while c < CELLS
      invariant 0 <= c <= CELLS && |amounts| == n
      invariant InRange(cs[..c], n)
      invariant CountsMatch(amounts, cs[..c])
    {
      DecodeAt(words, b, CELLS, c);
      var id := CellAt(words, b, c);
      if id >= n {
        return None;
      }
      var next := cs[..c + 1];
      assert next == cs[..c] + [id];
      var grown := amounts[id := amounts[id] + 1];
      forall v | 0 <= v < n
        ensures grown[v] == Count(next, v)
      {
        CountAppend(cs[..c], [id], v);
        CountSingle(id, v);
      }
      amounts := grown;
      c := c + 1;
    }
    assert cs[..c] == cs;
    r := Some(amounts);
  }

  /** The part `from_latest_proto` and `from_old_proto` share: validate
      (with the corrected `ValidateProto`), build the reverse map of
      `palette`, count the cells. */
  method Load(palette: seq<nat>, pb: ProtoSection) returns (r: Result<Section, ProtoError>)
    requires |palette| == |pb.palette| && Distinct(palette)
    requires |pb.palette| > 0 && pb.palette[0] == 0 ==> palette[0] == 0
    ensures r.Ok? <==> Loadable(palette, pb)
    ensures r.Err? && ValidateProto(pb).Some? ==> r.error == ValidateProto(pb).value
    ensures r.Ok? ==> fresh(r.value) && r.value.Valid()
    ensures r.Ok? ==> r.value.palette == palette && r.value.data == pb.data
    ensures r.Ok? ==> r.value.bitsPerBlock == pb.bitsPerBlock && r.value.cells == ProtoCells(pb)
  {
    var v := ValidateProto(pb);
    if v.Some? {
      return Err(v.value);
    }
    var bpb: nat := pb.bitsPerBlock;
    var rev := ReverseMap(palette);
    ReverseOfInverts(palette);
    var amounts := CountCells(pb.data, bpb, |palette|);
    if amounts.None? {
      return Err(CellOutOfPalette(|palette|));
    }
    ghost var cs := ProtoCells(pb);
    assert |palette| >= 1 by {
      assert 0 <= cs[0] < |palette|;
    }
    assert Unused(amounts.value) <= MAX_UNUSED;
    var s := new Section.Assemble(bpb, pb.data, palette, amounts.value, rev, cs);
    r := Ok(s);
  }

  /** `from_latest_proto`, corrected to validate with `ValidateProto`:
      the palette is taken as it is. */
  method FromLatestProto(pb: ProtoSection) returns (r: Result<Section, ProtoError>)
    requires Distinct(pb.palette)
    ensures r.Ok? <==> Loadable(pb.palette, pb)
    ensures r.Err? && ValidateProto(pb).Some? ==> r.error == ValidateProto(pb).value
    ensures r.Ok? ==> fresh(r.value) && r.value.Valid()
    ensures r.Ok? ==> r.value.palette == pb.palette && r.value.data == pb.data
    ensures r.Ok? ==> r.value.bitsPerBlock == pb.bitsPerBlock && r.value.cells == ProtoCells(pb)
  {
    r := Load(pb.palette, pb);
  }

  /** `from_old_proto`, corrected to validate with `ValidateProto`: every
      palette entry goes through the block-id conversion `f`, which keeps
      air and keeps distinct ids apart. */
  method FromOldProto(pb: ProtoSection, f: nat -> nat) returns (r: Result<Section, ProtoError>)
    requires f(0) == 0 && Distinct(MapIds(f, pb.palette))
    ensures r.Ok? <==> Loadable(pb.palette, pb)
    ensures r.Err? && ValidateProto(pb).Some? ==> r.error == ValidateProto(pb).value
    ensures r.Ok? ==> fresh(r.value) && r.value.Valid()
    ensures r.Ok? ==> r.value.palette == MapIds(f, pb.palette) && r.value.data == pb.data
    ensures r.Ok? ==> r.value.bitsPerBlock == pb.bitsPerBlock && r.value.cells == ProtoCells(pb)
  {
    r := Load(MapIds(f, pb.palette), pb);
  }

  /** A valid section's protobuf passes validation when its palette has at
      most 256 entries, and decodes to the same cells, so reading it back
      gives the same section. */
  lemma LatestRoundTrip(s: Section)
    requires s.Valid() && |s.palette| <= 256
    ensures Distinct(s.ToLatestProto().palette) && Loadable(s.palette, s.ToLatestProto())
    ensures ProtoCells(s.ToLatestProto()) == s.cells
  {
    InvertsDistinct(s.reversePalette, s.palette);
  }
}
