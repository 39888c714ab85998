# Bamboo core, modelled in Dafny

Bamboo is a Minecraft server written in Rust. It has a proxy that translates
between client protocol versions, a plugin system, and a command-line client.
This project models the parts of it that hold the most logic:

- **Paletted chunk sections** (`common/src/chunk/paletted/mod.rs`). A 16x16x16
  section stores one palette id per block. The ids are packed
  `bits_per_block` bits apiece into 64-bit words. The section keeps a
  palette of global block ids in ascending order, a reverse map from global
  id to palette id, and a count of blocks per palette entry.
  - Operations: reading and writing a cell, inserting and removing palette
    entries (with the re-numbering of every cell), widening the cells,
    placing one block, filling a box, duplicating, and conversion to and
    from the protobuf form.
  - The section is a class. `data` is a sequence of 64-bit words that the
    methods reassign. A ghost sequence `cells` holds the palette id of every
    cell, and `Valid` ties the packed words to it.
- **Chunk columns** (`common/src/chunk/mod.rs`): a vertical stack of
  optional sections, allocated on first write, with `set_block`, `fill` and
  `get_block` forwarded to the section that owns each layer.
- **The message reader of the `sc_transfer` wire format**
  (`sc_transfer/src/read.rs`).
  - Each field starts with a header byte: a 3-bit kind and 5 extra bits.
  - Field bodies are varints, 4- and 8-byte little-endian floats, nested
    structs and enums, and length-prefixed bytes.
  - The readers are classes with a cursor. Each method is proved against a
    reference function on `(data, position)` in module `TransferWire`.
- **Block id conversion between protocol versions**: the conversion tables
  built from the generated version file (`server/src/block/version.rs`), and
  the generator that computes the id mapping between an old and a new block
  list (`sc_data/src/block/cross.rs`).
- **Command tree serialization** (`sc_server/src/command/serialize.rs`): the
  command tree is flattened children-first into a node list, then encoded
  node by node (flags, children, name, parser, parser data).
- Smaller stateful pieces:
  - the per-item behaviour table (`bb_server/src/item/behavior/mod.rs`);
  - the player's sidebar scoreboard (`bb_server/src/player/scoreboard.rs`);
  - the scrolling output buffer of the command-line client
    (`bb_cli/src/cli/mod.rs`);
  - two helpers of the `cenum` FFI macro (`bb_ffi_macros/src/cenum.rs`);
  - the packet-description IR of the data generator
    (`sc_data/src/protocol/mod.rs`).

How integer widths and bits are represented:

- Integers are unbounded. A `u64` word is a `nat` below 2^64.
- Bitwise operations on words are recursive functions in module `Bits`,
  proved correct bit by bit.
- Where the source's fixed width matters (the varint accumulator, the
  `usize` add in `skip_bytes`, the 64-bit mask), the wrap-around or the
  limit is written out.

Panics in the source are modelled in one of two ways:

- Where the source handles the bad input itself, it becomes an error result
  (`Result`/`Option`).
- Where the source panics on a caller's mistake (an index out of range, a
  debug assertion), it becomes a precondition.

## Model

| member | source | states |
|---|---|---|
| Geometry.Index | common/src/chunk/paletted/mod.rs:117-118 | the cell number `y<<8 \| z<<4 \| x` of an in-section position is below 4096 |
| Geometry.IndexPosOf | common/src/chunk/paletted/mod.rs:117-118 | every cell number comes from exactly one position: `Index(PosOf(c)) == c` |
| Geometry.PosOfIndex | common/src/chunk/paletted/mod.rs:117-118 | `PosOf(Index(p)) == p` for every in-section position, so the numbering is a bijection |
| Packing.ReadAt | common/src/chunk/paletted/mod.rs:153-171 | the two-word read (`>> shift & mask`, or-ed with `<< (64-shift) & mask`) yields a value below `2^bpb` |
| Packing.BitOfRead | common/src/chunk/paletted/mod.rs:153-171 | bit k of the value read at bit offset `bi` is bit `bi+k` of the word array, for k < bpb, and 0 above |
| Packing.ReadAtValue | common/src/chunk/paletted/mod.rs:153-171 | `get_palette` equals the reference little-endian bit-field value, whether the cell lies in one word or spans two |
| Packing.BitOfStore | common/src/chunk/paletted/mod.rs:127-150 | the clear-then-or writes of `set_palette` change exactly the bits `bi..bi+bpb` of the word array, to the bits of the id |
| Packing.ReadStoreSame | common/src/chunk/paletted/mod.rs:127-171 | reading back the cell just written returns the written id |
| Packing.ReadStoreOther | common/src/chunk/paletted/mod.rs:127-171 | writing one cell leaves every non-overlapping cell unchanged |
| Packing.ReadZeros | common/src/chunk/paletted/mod.rs:27-40 | all-zero words decode to palette id 0 (air) in every cell |
| Paletted.StoreDecode | common/src/chunk/paletted/mod.rs:127-150 | storing id v at cell c changes the decoded cell sequence at c only |
| Paletted.ReadCell | common/src/chunk/paletted/mod.rs:153-171 | reading at bit offset `c*bpb` returns decoded cell c |
| Paletted.StoreId | common/src/chunk/paletted/mod.rs:127-150 | the store keeps the word count and encodes `cells[c := v]` |
| Paletted.OnesEncode | common/src/chunk/paletted/mod.rs:384-390 | 256 words of `0x1111…1111` at 4 bits per block encode palette id 1 in every cell |
| Paletted.ZerosEncode | common/src/chunk/paletted/mod.rs:27-40 | zero words encode palette id 0 in every cell at any width |
| Paletted.InsertPosition | common/src/chunk/paletted/mod.rs:182-188 | the insert position is the first palette index whose id exceeds `ty`: every earlier id is at most `ty` |
| Paletted.InsertWidth | common/src/chunk/paletted/mod.rs:179-181 | `insert` widens by exactly one bit, and exactly when the palette plus the new entry reaches `2^bpb` |
| Paletted.WideningRoom | common/src/chunk/paletted/mod.rs:179-181 | after one widening step a palette of n+1 entries fits the new width, which stays below 63 |
| Paletted.CountAir | common/src/chunk/paletted/mod.rs:450-457 | with air only at palette index 0, the cells holding block 0 are the cells holding palette id 0 |
| Paletted.Section.PaletteSmall | common/src/chunk/paletted/mod.rs:15-25 | a valid section's palette stays below 2^13 entries, so widening never reaches 64 bits |
| Paletted.Section.constructor | common/src/chunk/paletted/mod.rs:27-40 | a new section is valid and every block is air: 4 bits per block, 256 zero words, palette `[0]`, amounts `[4096]` and reverse map `{0: 0}` |
| Paletted.Section.GetPalette | common/src/chunk/paletted/mod.rs:153-171 | returns the palette id stored for the position |
| Paletted.Section.GetBlock | common/src/chunk/paletted/mod.rs:437-440 | returns the block at the position, `palette[cell]` |
| Paletted.Section.SetPalette | common/src/chunk/paletted/mod.rs:127-150 | changes the stored id of one cell and nothing else of the section |
| Paletted.Section.ShiftAllAbove | common/src/chunk/paletted/mod.rs:225-267 | every cell id at or above `id` moves up or down by one; the others stay |
| Paletted.Section.IncreaseBitsPerBlock | common/src/chunk/paletted/mod.rs:271-333 | re-encodes at one more bit per block with every cell id unchanged |
| Paletted.Section.Insert | common/src/chunk/paletted/mod.rs:178-200 | inserts `ty` at its sorted position, renumbers cells and reverse map above it, and widens exactly when the palette was full |
| Paletted.Section.AddEntry | common/src/chunk/paletted/mod.rs:182-198 | the insertion without widening: palette, counts, reverse map and cells all shifted at the insert position |
| Paletted.Section.Remove | common/src/chunk/paletted/mod.rs:206-220 | deletes palette entry `id`, its count and its reverse entry, and renumbers cells above it down |
| Paletted.Section.SetBlock | common/src/chunk/paletted/mod.rs:337-375 | the section stays valid, the block at the position becomes `ty` and no other block changes, the width never decreases, and the palette stays sorted |
| Paletted.Section.Place | common/src/chunk/paletted/mod.rs:369-373 | moving one cell to an existing entry updates both counts and drops the old entry once it is unused |
| Paletted.Section.MoveCount | common/src/chunk/paletted/mod.rs:369-373 | adjusting the two counts after a write restores validity without changing any block |
| Paletted.Section.RemoveUnused | common/src/chunk/paletted/mod.rs:369-373 | removing an unused entry keeps every block and the sortedness |
| Paletted.Section.Uncount | common/src/chunk/paletted/mod.rs:396-405 | after subtracting every cell of the box, the counts describe the cells outside the box, and exactly `Volume(min,max)` cells were taken |
| Paletted.Section.UncountLayer | common/src/chunk/paletted/mod.rs:396-405 | one y layer of the box is uncounted, with `(dz+1)*(dx+1)` more cells taken |
| Paletted.Section.UncountRow | common/src/chunk/paletted/mod.rs:396-405 | one x row of the box is uncounted, with `dx+1` more cells taken |
| Paletted.Section.RemoveCleared | common/src/chunk/paletted/mod.rs:418-420 | dropping an entry with count 0 leaves every block outside the box as it was |
| Paletted.Section.Prune | common/src/chunk/paletted/mod.rs:406-420 | removing the collected unused ids, highest first, leaves no unused non-air entry and keeps every block outside the box |
| Paletted.Section.Clear | common/src/chunk/paletted/mod.rs:396-420 | corrected (first finding): uncount then the highest-first prune, so no unused entry remains and the blocks outside the box are unchanged; the source's ascending removal does not keep them |
| Paletted.Section.InsertCleared | common/src/chunk/paletted/mod.rs:421-424 | after the fill block's palette id is looked up or inserted, it names `ty`, and the outside blocks are kept |
| Paletted.Section.Cover | common/src/chunk/paletted/mod.rs:421-433 | adding the box to the fill block's count and painting it yields the old blocks with the box set to `ty` |
| Paletted.Section.Paint | common/src/chunk/paletted/mod.rs:427-433 | every cell inside the box gets the palette id; cells outside keep theirs |
| Paletted.Section.PaintLayer | common/src/chunk/paletted/mod.rs:427-433 | one y layer of the box is painted |
| Paletted.Section.PaintRow | common/src/chunk/paletted/mod.rs:427-433 | one x row of the box is painted |
| Paletted.Section.FillAll | common/src/chunk/paletted/mod.rs:377-391 | a whole-section fill resets to 4 bits per block with palette `[0]` or `[0, ty]` and every block `ty` |
| Paletted.Section.Fill | common/src/chunk/paletted/mod.rs:376-436 | corrected (first finding, through `Clear`): the blocks become the old blocks with the box set to `ty`; the whole-section case yields the 4-bit reset |
| Paletted.Section.Duplicate | common/src/chunk/paletted/mod.rs:441-449 | a fresh, valid section with the same blocks, width, words, palette, counts and reverse map |
| Paletted.Section.ToLatestProto | common/src/chunk/paletted/mod.rs:450-457 | the protobuf carries the palette, width and words, and the non-air count is 4096 minus the air cells |
| Paletted.Section.ToOldProto | common/src/chunk/paletted/mod.rs:458-465 | the same, with every palette id mapped through the version conversion |
| Palette.InsertInverts | common/src/chunk/paletted/mod.rs:192-197 | shifting the reverse map up and adding `ty` keeps it the inverse of the palette after insertion |
| Palette.RemoveInverts | common/src/chunk/paletted/mod.rs:206-220 | shifting it down and removing the entry keeps it the inverse after removal |
| Palette.ReverseOfInverts | common/src/chunk/paletted/mod.rs:75-77 | the map built from a duplicate-free palette inverts it |
| Palette.InsertAscending | common/src/chunk/paletted/mod.rs:182-191 | inserting at the sorted position keeps the palette strictly ascending |
| Palette.RemoveAscending | common/src/chunk/paletted/mod.rs:206-220 | removing an entry keeps the palette strictly ascending |
| Palette.CountsInsert | common/src/chunk/paletted/mod.rs:189-198 | a zero count inserted with the cells shifted up keeps every count equal to its number of cells |
| Palette.CountsRemove | common/src/chunk/paletted/mod.rs:206-220 | removing a zero count with the cells shifted down keeps the counts exact |
| Palette.CountsMove | common/src/chunk/paletted/mod.rs:369-373 | one cell moving from `prev` to `pid` is one decrement and one increment |
| Palette.CountsSum | common/src/chunk/paletted/mod.rs:21 | exact counts sum to the number of cells, 4096 |
| Palette.BlocksSet | common/src/chunk/paletted/mod.rs:337-375 | writing a palette id into one cell changes one block, to that entry's global id |
| Palette.BlocksInsert | common/src/chunk/paletted/mod.rs:178-200 | inserting a palette entry with the matching renumbering changes no block |
| Palette.BlocksRemove | common/src/chunk/paletted/mod.rs:206-220 | removing an unused entry with the matching renumbering changes no block |
| Box.WalkEnd | common/src/chunk/paletted/mod.rs:396-433 | the y, z, x loops over the box visit exactly its cells |
| Box.UncountWalkStep | common/src/chunk/paletted/mod.rs:396-405 | one visited cell is one count decrement and one more cell taken |
| Box.CountsFill | common/src/chunk/paletted/mod.rs:425-426 | adding the box volume to the fill entry's count makes the counts exact for the filled cells |
| Box.OutsideRemove | common/src/chunk/paletted/mod.rs:418-420 | removing an entry no outside cell uses keeps the blocks outside the box |
| Box.OutsideInsert | common/src/chunk/paletted/mod.rs:421-424 | inserting an entry keeps the blocks outside the box |
| Box.UnusedIds | common/src/chunk/paletted/mod.rs:406-417 | collects, in ascending order, exactly the non-air palette ids whose count is 0 |
| Box.PruneStep | common/src/chunk/paletted/mod.rs:418-420 | removing the highest remaining collected id leaves the lower ones pointing at unused entries |
| Box.PruneAsWritten | common/src/chunk/paletted/mod.rs:418-420 | the removal loop as written, front to back without renumbering the later ids |
| Box.PruneAsWrittenChangesOutside | common/src/chunk/paletted/mod.rs:418-420 | with ids [1, 2] unused, the as-written loop turns a block outside the box from 3 into 2 |
| Box.VolumeLayers | common/src/chunk/paletted/mod.rs:396-405 | the box volume is layers times rows times columns, and at least 1 |
| Box.WholeBox | common/src/chunk/paletted/mod.rs:377-391 | filling 0..15 on every axis sets every cell |
| SectionProto.ValidateProtoAsWritten | common/src/chunk/paletted/mod.rs:46-65 | a protobuf passes exactly when bpb is in 4..=64, the palette has at most 256 entries and starts with air, and there are `64*bpb` words |
| SectionProto.ValidateProto | common/src/chunk/paletted/mod.rs:46-65 | the corrected check additionally demands bpb < 64 and a palette that fits in bpb bits; it accepts only what the as-written check accepts |
| SectionProto.WideSectionAccepted | common/src/chunk/paletted/mod.rs:47-49 | a 64-bit section passes as written and is refused by the corrected check |
| SectionProto.LongPaletteAccepted | common/src/chunk/paletted/mod.rs:46-65 | the 4-bit section with the 256-entry palette 0..255 passes the as-written check and is refused by the corrected one; `insert` of block 256 then widens once to 5 bits (`InsertWidth`) and its search (`InsertPosition`) gives palette id 256, which is not below 2^5 |
| SectionProto.ReverseMap | common/src/chunk/paletted/mod.rs:75-77 | builds the global-to-palette map of the protobuf palette |
| SectionProto.CountCells | common/src/chunk/paletted/mod.rs:78-85 | counts the cells per palette id, and fails exactly when some cell is outside the palette |
| SectionProto.Load | common/src/chunk/paletted/mod.rs:66-87 | corrected (validate_proto finding): succeeds exactly when the protobuf passes the corrected validation and every cell is in the palette, and reports the validation error otherwise; the section is then valid with the given palette and the protobuf's width, words and cells |
| SectionProto.FromLatestProto | common/src/chunk/paletted/mod.rs:66-87 | corrected (validate_proto finding): succeeds exactly when the protobuf passes the corrected validation and every cell is in the palette; the section then holds the protobuf's palette, width, words and cells |
| SectionProto.FromOldProto | common/src/chunk/paletted/mod.rs:94-115 | corrected (validate_proto finding): the same, with the palette mapped to the latest ids |
| SectionProto.LatestRoundTrip | common/src/chunk/paletted/mod.rs:450-457 | a section written to protobuf reads back with the same cells |
| Chunks.RelY | common/src/chunk/mod.rs:56-59 | the y coordinate relative to the section is within 0..16 |
| Chunks.LayerBoxCell | common/src/chunk/mod.rs:79-98 | a column position is in the fill box exactly when its cell is in the clamped per-layer box |
| Chunks.Chunk.constructor | common/src/chunk/mod.rs:31-33 | a new column has no sections and reads air everywhere |
| Chunks.Chunk.Pad | common/src/chunk/mod.rs:47-49 | pads the section list with empty layers up to the index, changing no block |
| Chunks.Chunk.Allocate | common/src/chunk/mod.rs:50-55 | a missing layer gets a fresh air section; an existing one is kept; no block changes |
| Chunks.Chunk.SetBlock | common/src/chunk/mod.rs:42-60 | errors exactly when the y layer is outside the column; otherwise only the block at the position changes, to `ty` |
| Chunks.Chunk.FillLayer | common/src/chunk/mod.rs:88-94 | fills the clamped box in one layer and leaves the other layers alone |
| Chunks.Chunk.Fill | common/src/chunk/mod.rs:64-100 | reports the first failing check (min layer, max layer, max below min); otherwise every block in the box becomes `ty` and every other block is kept; each layer uses the corrected section `Fill` (first finding) |
| Chunks.Chunk.GetBlock | common/src/chunk/mod.rs:104-117 | corrected (second finding): the section is asked for `(x, y % 16, z)`; errors exactly for a layer outside the column, otherwise returns the block `set_block` stored there, air for an unallocated layer |
| Chunks.Chunk.GetBlockAsWritten | common/src/chunk/mod.rs:104-117 | as written, the position is forwarded unconverted: it fails for any y >= 16 on an allocated layer and agrees with `GetBlock` elsewhere |
| Chunks.GetAboveFirstLayer | common/src/chunk/mod.rs:113-116 | after setting (0,16,0), reading it back fails as written and returns the block once corrected |
| Chunks.Chunk.ToLatestProto | common/src/chunk/mod.rs:120-131 | the map holds exactly the allocated layers, each converted; every missing layer is all air |
| Chunks.Chunk.ToOldProto | common/src/chunk/mod.rs:134-148 | the same with the ids converted to the old version |
| TransferWire.HeaderAt | sc_transfer/src/read.rs:213-216 | a header reads exactly when a byte remains and its low 3 bits name a kind; otherwise EOF or InvalidHeader of those bits |
| TransferWire.HeaderByte | sc_transfer/src/read.rs:213-216 | a header byte built from a kind and 5 extra bits reads back as that kind and those bits |
| TransferWire.VarIntAt | sc_transfer/src/read.rs:274-296 | an extra value below 16 is the value itself and consumes nothing; a longer varint stays within the data |
| TransferWire.FixedAt | sc_transfer/src/read.rs:301-322 | n bytes read as their little-endian value, or EOF when fewer than n remain |
| TransferWire.FieldEnd | sc_transfer/src/read.rs:229-256 | a skipped field ends after its start and within the data |
| TransferWire.FieldsSplit | sc_transfer/src/read.rs:220-225 | skipping n fields is skipping k, then n-k |
| TransferWire.LittleEndianSnoc | sc_transfer/src/read.rs:301-322 | appending a byte adds it at the next power of 256 |
| TransferWire.OrByte | sc_transfer/src/read.rs:301-322 | or-ing a byte shifted past the bytes read so far is the same as appending it |
| TransferWire.ExpectAt | sc_transfer/src/read.rs:449-474 | a header of the wrong kind gives WrongMessage(found, expected) and still leaves a skippable field |
| TransferWire.UnsignedAt | sc_transfer/src/read.rs:346-360 | a width-limited unsigned read is the u64 read, refused when it does not fit the width |
| TransferWire.StructAt | sc_transfer/src/read.rs:449-474 | a struct header plus its field count ends where skipping the whole struct field ends |
| TransferWire.EnumAt | sc_transfer/src/read.rs:475-513 | an enum's variant and its one field end where skipping the enum field ends |
| TransferWire.FieldValue | sc_transfer/src/read.rs:532-556 | a field beyond the struct's count reads as the default 0; errors are only invalid-data errors |
| TransferWire.U64FieldEnd | sc_transfer/src/read.rs:412-419 | a successful u64 read ends where skipping its field ends |
| TransferWire.ShortVarInt | sc_transfer/src/read.rs:274-278 | a varint header with extra below 16 is its own value, one byte long |
| TransferWire.TwoByteVarInt | sc_transfer/src/read.rs:279-296 | with the 0x10 bit set, the low 4 bits and the next byte's 7 bits form the value |
| TransferWire.VarIntTestVectors | sc_transfer/src/read.rs:788-811 | the byte vector of the `varints` test reads 0, 1, 15, 16, 255 and then EOF |
| TransferRead.MessageReader.ReadByte | sc_transfer/src/read.rs:262-269 | returns the byte at the cursor and advances, or EOF with the cursor kept |
| TransferRead.MessageReader.UndoReadByte | sc_transfer/src/read.rs:204-206 | moves the cursor back one byte |
| TransferRead.MessageReader.ReadHeader | sc_transfer/src/read.rs:213-216 | agrees with `HeaderAt` on result and new cursor |
| TransferRead.MessageReader.ReadVarint | sc_transfer/src/read.rs:274-296 | the byte loop agrees with `VarIntAt`, including VarIntTooLong after 9 continuation bytes |
| TransferRead.MessageReader.ReadFloat | sc_transfer/src/read.rs:301-307 | the four or-ed shifted bytes are the little-endian value of the next 4 bytes |
| TransferRead.MessageReader.ReadDouble | sc_transfer/src/read.rs:312-322 | the same for 8 bytes |
| TransferRead.MessageReader.ReadBuf | sc_transfer/src/read.rs:325-333 | corrected (no wrap of `idx + len`): returns the next `len` bytes and advances exactly when that many remain, otherwise InvalidBufLength with the cursor kept |
| TransferRead.MessageReader.SkipBytes | sc_transfer/src/read.rs:336-343 | advances by `len` when that many bytes remain, else InvalidBufLength with the cursor kept |
| TransferRead.MessageReader.SkipBytesAsWritten | sc_transfer/src/read.rs:336-343 | the same test on `idx + len` wrapped to 64 bits |
| TransferRead.MessageReader.SkipField | sc_transfer/src/read.rs:229-256 | the cursor reaches the end `FieldEnd` gives, or the error it gives |
| TransferRead.MessageReader.SkipFields | sc_transfer/src/read.rs:220-225 | the cursor reaches the end of n fields, or the first error |
| TransferRead.MessageReader.Expect | sc_transfer/src/read.rs:465-472 | reads a header of the expected kind; on WrongMessage the cursor is past the whole field |
| TransferRead.MessageReader.ReadNoneAsWritten | sc_transfer/src/read.rs:384-391 | as written: succeeds exactly on a None header and then stands after the field; on WrongMessage the cursor is left one byte into the field |
| TransferRead.MessageReader.ReadNone | sc_transfer/src/read.rs:384-391 | corrected (read_none finding): succeeds exactly on a None header; on success or WrongMessage the cursor stands after the whole field |
| TransferRead.MessageReader.ReadU64 | sc_transfer/src/read.rs:412-419 | agrees with the u64 reference read, and a WrongMessage leaves the cursor after the field |
| TransferRead.MessageReader.ReadU64AsWritten | sc_transfer/src/read.rs:412-419 | as written: on WrongMessage the cursor is left one byte into the field |
| TransferRead.MessageReader.ReadUnsigned | sc_transfer/src/read.rs:346-360 | corrected (built on the corrected `read_u64`): the u8/u16/u32 reads agree with the width-limited reference read |
| TransferRead.MessageReader.ReadBool | sc_transfer/src/read.rs:395-404 | corrected (built on the corrected `read_u64`): 0 reads false, 1 reads true, anything larger is VarIntTooLong |
| TransferRead.MessageReader.ReadF32 | sc_transfer/src/read.rs:428-435 | a Float header followed by the 4 payload bytes; a wrong header leaves the reader after the field |
| TransferRead.MessageReader.ReadF32AsWritten | sc_transfer/src/read.rs:428-435 | as written, it accepts only a VarInt header and reports the mismatch as Float |
| TransferRead.MessageReader.ReadF64 | sc_transfer/src/read.rs:438-445 | a Double header followed by 8 payload bytes |
| TransferRead.MessageReader.ReadF64AsWritten | sc_transfer/src/read.rs:438-445 | as written, it accepts only a VarInt header |
| TransferRead.MessageReader.ReadBytes | sc_transfer/src/read.rs:516-524 | a Bytes header, a length, and that many bytes, which it returns |
| TransferRead.MessageReader.ReadBytesAsWritten | sc_transfer/src/read.rs:516-524 | as written, it accepts only a VarInt header |
| TransferRead.MessageReader.ReadStruct | sc_transfer/src/read.rs:449-474 | checks the whole struct can be skipped, then returns a field reader over its fields with the cursor after the struct |
| TransferRead.MessageReader.ReadEnum | sc_transfer/src/read.rs:475-513 | the same for an enum, recording its variant |
| TransferRead.FieldsReader.Read | sc_transfer/src/read.rs:532-556 | reading field k returns the reference value of field k: the skipped earlier fields are passed, later ones default to 0 |
| TransferRead.FieldsReader.ReadAsWritten | sc_transfer/src/read.rs:532-556 | as written: once all fields are read, a later field skips one more field past the struct |
| TransferRead.FieldsReader.ReadField | sc_transfer/src/read.rs:532-556 | corrected (through the corrected `read_u64`): reads one in-range field at its position |
| TransferRead.FloatFieldRefused | sc_transfer/src/read.rs:428-435 | a float field `[0x02, 0, 0, 0, 0]` is refused as written and reads 0.0 when corrected |
| TransferRead.ReadAfterWrongNone | sc_transfer/src/read.rs:384-391 | after `read_none` refuses a bytes field, the next read parses a payload byte (value 12) as written, and reads the following varint (3) when corrected |
| TransferRead.ReadAfterWrongField | sc_transfer/src/read.rs:412-419 | after a u64 read refused on a bytes field, the next read parses a payload byte (value 12) as written, and reads the following varint (3) when corrected |
| TransferRead.ReadPastLastField | sc_transfer/src/read.rs:532-556 | in a 1-field struct at the end of the data, reading field 2 after field 0 is EOF as written and the default 0 when corrected |
| TransferRead.SkipBytesWraps | sc_transfer/src/read.rs:336-343 | skipping 2^64-1 bytes at position 1 moves the cursor back to 0 as written and is refused when corrected |
| BlockVersion.Converter.ToOld | server/src/block/version.rs:51-59 | the latest version keeps the id; otherwise the version's table entry, or 0 past the table |
| BlockVersion.Converter.ToLatest | server/src/block/version.rs:42-47 | corrected (last finding): the same version's reverse entry as `to_old` uses, or 0; the latest version keeps the id, a branch `to_old` has and the source's `to_latest` lacks |
| BlockVersion.Converter.ToLatestAsWritten | server/src/block/version.rs:42-47 | as written, it indexes the version list one entry later than `to_old`; for the newest old version and the latest version that index is past the list, where the source panics (`None`) |
| BlockVersion.GenerateVersions | server/src/block/version.rs:98-125 | builds, for each old version, the table of its column and the reverse map, newest version first |
| BlockVersion.Generated | server/src/block/version.rs:98-125 | one version per column after the first, each with its column's tables |
| BlockVersion.FirstLineTables | server/src/block/version.rs:106-110 | the first row seeds every table with id 0 mapping to 0 |
| BlockVersion.OldTableCells | server/src/block/version.rs:111-117 | the old table of a column lists that column row by row |
| BlockVersion.NewTableKeys | server/src/block/version.rs:116 | the reverse map has a key exactly for 0 and every value of the column |
| BlockVersion.NewTableLast | server/src/block/version.rs:116 | the reverse map points each old id at the last row holding it |
| BlockVersion.TablesAgree | server/src/block/version.rs:111-117 | the old table at the reverse-mapped row gives the old id back |
| BlockVersion.ToOldReadsCell | server/src/block/version.rs:51-59 | `to_old(id, ver)` is the cell of row `id` in the column of `ver` |
| BlockVersion.ToLatestAsWrittenReadsNextColumn | server/src/block/version.rs:42-59 | as written, `to_latest` for `ver` uses the column of `ver + 1` |
| BlockVersion.ConverterRoundTrip | server/src/block/version.rs:42-59 | converting an old id to the latest and back returns it |
| BlockVersion.ToLatestMissesTable | server/src/block/version.rs:42-59 | on a two-version table, old id 7 of version 1 maps back to 0 as written and to 1 corrected, and version 2 indexes past the list as written |
| BlockCross.UpdateOldBlocks | sc_data/src/block/cross.rs:119-131 | every pre-1.13 block id is shifted left by 4 and its properties replaced by one `id` property 0..16 |
| BlockCross.NameMap | sc_data/src/block/cross.rs:73 | the name map holds every block's name, each mapped to a block of that name |
| BlockCross.NameMapLast | sc_data/src/block/cross.rs:73 | a name maps to the last block carrying it |
| BlockCross.OldOrigin | sc_data/src/block/cross.rs:133-232 | the old block and metadata of each renamed block; water and lava of level 0 are the still forms, of level n the flowing forms with metadata n-1 |
| BlockCross.OldState | sc_data/src/block/cross.rs:133-232 | the old id is the origin block's shifted id plus its metadata, else the same-named block, else air |
| BlockCross.OldStateInSlot | sc_data/src/block/cross.rs:119-232 | after the shift, the old id divided by 16 is the old block id and the remainder the metadata |
| BlockCross.SameNamed | sc_data/src/block/cross.rs:87 | the same-named old block, or air |
| BlockCross.StateId | sc_data/src/block/cross.rs:78-101 | before 1.13 each state maps through `old_state`; after, to the same-named block's id plus the state index when the state counts match, else to its id |
| BlockCross.ToOldLayout | sc_data/src/block/cross.rs:78-101 | the `to_old` list holds every block's states consecutively, in block order |
| BlockCross.BoundAttained | sc_data/src/block/cross.rs:106-108 | the padded reverse table is exactly one longer than the largest old id |
| BlockCross.InvertIds | sc_data/src/block/cross.rs:103-116 | the reverse table maps every old id to the lowest new id converting to it, and gaps to 0 |
| BlockCross.PushStates | sc_data/src/block/cross.rs:78-101 | appends one block's state ids |
| BlockCross.FindIds | sc_data/src/block/cross.rs:67-117 | returns the per-state old ids and their inverse |
| CommandSerialize.Mask | sc_server/src/command/serialize.rs:4-12 | the node type occupies the two low flag bits |
| CommandSerialize.MaskDistinguishes | sc_server/src/command/serialize.rs:4-12 | root, literal and argument nodes get different type bits |
| CommandSerialize.BoundsMask | sc_server/src/command/serialize.rs:137-185 | bit 0 says a minimum follows, bit 1 a maximum; no other bit is set |
| CommandSerialize.Name | sc_server/src/command/serialize.rs:82-132 | the name of every parser is looked up by the client as that parser's kind, so no two kinds share a name |
| CommandSerialize.PlainNamed | sc_server/src/command/serialize.rs:82-132 | the name of every parser without data is looked up as that parser |
| CommandSerialize.WriteData | sc_server/src/command/serialize.rs:136-215 | appends exactly the parser's data tokens, the layout that `DataRoundTrip` decodes back |
| CommandSerialize.DataLayout | sc_server/src/command/serialize.rs:136-215 | the parser data of each parser kind: the bounds flag then the present bounds; the string kind as 0, 1 or 2; the entity and score-holder flag bits |
| CommandSerialize.WriteNodes | sc_server/src/command/serialize.rs:72-76 | appends the command's subtree children-first and returns the index of its own node, the last one written |
| CommandSerialize.WriteChildren | sc_server/src/command/serialize.rs:39-58 | appends all children's subtrees and returns their node indices |
| CommandSerialize.ChildrenFirstAll | sc_server/src/command/serialize.rs:39-58 | every child index points to an earlier node of the flattened list |
| CommandSerialize.ChildIndicesPointAtChildren | sc_server/src/command/serialize.rs:39-58 | each recorded child index points at a node with that child's name and type |
| CommandSerialize.Serialize | sc_server/src/command/serialize.rs:23-64 | the output is the encoding of the flattened tree under the root, followed by the index of the root, the last node |
| CommandSerialize.DataRoundTrip | sc_server/src/command/serialize.rs:136-215 | the parser data decode back to the parser they came from |
| CommandSerialize.IndicesRoundTrip | sc_server/src/command/serialize.rs:39-58 | the child index list decodes back |
| CommandSerialize.WriteNode | sc_server/src/command/serialize.rs:39-58 | one pass of the node loop appends exactly the node's tokens, the layout that `NodeRoundTrip` decodes back |
| CommandSerialize.NodeRoundTrip | sc_server/src/command/serialize.rs:23-64 | a written node decodes back to its flags, children, name and parser name |
| ItemBehavior.BehaviorList.constructor | bb_server/src/item/behavior/mod.rs:30 | a new table has no behaviour for any item |
| ItemBehavior.BehaviorList.Set | bb_server/src/item/behavior/mod.rs:31-36 | pads with empty slots up to the id, stores the behaviour there, and changes no other item's lookup |
| ItemBehavior.BehaviorList.Get | bb_server/src/item/behavior/mod.rs:37-42 | an item past the table or with an empty slot has none; otherwise its stored behaviour |
| ItemBehavior.Assigned | bb_server/src/item/behavior/mod.rs:31-36 | the table after `set` holds the behaviour at the id, keeps the slots before it, and has empty slots between |
| Scoreboards.Scoreboard.constructor | bb_server/src/player/scoreboard.rs:13-20 | fifteen empty lines, at the sidebar, hidden, nothing sent |
| Scoreboards.Scoreboard.Show | bb_server/src/player/scoreboard.rs:22-37 | a hidden scoreboard sends create and display and becomes shown; a shown one sends nothing |
| Scoreboards.Scoreboard.HideAsWritten | bb_server/src/player/scoreboard.rs:39-47 | as written: removes the objective only when it is hidden, and a shown scoreboard stays shown |
| Scoreboards.Scoreboard.Hide | bb_server/src/player/scoreboard.rs:39-47 | corrected: a shown scoreboard sends the remove and becomes hidden |
| Scoreboards.Scoreboard.SetDisplay | bb_server/src/player/scoreboard.rs:49-56 | sets the position, and sends it only when it changed and the objective is shown |
| Scoreboards.Scoreboard.ClearLine | bb_server/src/player/scoreboard.rs:58-65 | removes the line's score and empties the line |
| Scoreboards.Scoreboard.SetLine | bb_server/src/player/scoreboard.rs:66-85 | no change when the text is already there; otherwise pads the text with spaces until unique, removes the old score, creates the new one, and keeps non-empty lines distinct |
| Scoreboards.Unique | bb_server/src/player/scoreboard.rs:71-73 | the shortest space-padding of the text that no line holds |
| Scoreboards.HideAfterShow | bb_server/src/player/scoreboard.rs:39-47 | show then hide: shown as written, hidden when corrected |
| ScrollBuffer.ScrollBuf.constructor | bb_cli/src/cli/mod.rs:21-23 | empty buffer at the given row and height, restoring the cursor |
| ScrollBuffer.ScrollBuf.NoRestore | bb_cli/src/cli/mod.rs:24-26 | the same without restoring the cursor |
| ScrollBuffer.ScrollBuf.Trim | bb_cli/src/cli/mod.rs:43-54 | the backward scan keeps the text after the newline that exceeds `len` lines |
| ScrollBuffer.ScrollBuf.Write | bb_cli/src/cli/mod.rs:30-36 | appends the data, trims when the data holds a newline, and reports every byte written |
| ScrollBuffer.ScrollBuf.Back | bb_cli/src/cli/mod.rs:77-78 | drops the last byte, if any |
| ScrollBuffer.TrimmedSuffix | bb_cli/src/cli/mod.rs:43-54 | the trim keeps a suffix of the buffer |
| ScrollBuffer.TrimmedAll | bb_cli/src/cli/mod.rs:43-54 | a buffer with at most `len` newlines is kept whole |
| ScrollBuffer.TrimmedCount | bb_cli/src/cli/mod.rs:43-54 | a longer buffer keeps exactly `len` newlines and drops a prefix ending in a newline |
| CEnum.ToLower | bb_ffi_macros/src/cenum.rs:321-334 | the character loop produces the snake_case form |
| CEnum.Lowered | bb_ffi_macros/src/cenum.rs:321-334 | the snake_case form has no uppercase letter and one extra `_` per uppercase letter after the first character |
| CEnum.CamelLowered | bb_ffi_macros/src/cenum.rs:321-334 | camel-casing the snake_case form gives the name back, up to the case of its first letter |
| CEnum.GetIdent | bb_ffi_macros/src/cenum.rs:338-354 | a path has an identifier exactly when it is one bare segment without arguments |
| CEnum.IsCopyPath | bb_ffi_macros/src/cenum.rs:336-354 | a path is copyable exactly when it is one of the listed primitive names, and never panics |
| CEnum.AnyCopyExists | bb_ffi_macros/src/cenum.rs:356 | a tuple of handled types is copyable exactly when some element is |
| CEnum.AnyCopyStops | bb_ffi_macros/src/cenum.rs:356-357 | the tuple search stops at the first copyable element, before an element that would panic |
| Protocol.GetField | sc_data/src/protocol/mod.rs:312-320 | none exactly when no field has the name; otherwise a field of the packet with that name |
| Protocol.GetFieldFirst | sc_data/src/protocol/mod.rs:312-320 | the field found is the first with the name |
| Protocol.GetFieldMut | sc_data/src/protocol/mod.rs:321-328 | the slot of the first field with the name, the one `get_field` returns |
| Protocol.Precedence | sc_data/src/protocol/mod.rs:289-309 | ranks in 0..5; exactly the binary operators rank 2 or above, exactly a cast ranks 1 |
| Protocol.PrecedenceOrder | sc_data/src/protocol/mod.rs:289-309 | and binds tighter than the shifts, which tie, then divide, then add, then cast |
| Protocol.NewExpr | sc_data/src/protocol/mod.rs:331-333 | a new expression has the value and no operators |
| Protocol.AddOp | sc_data/src/protocol/mod.rs:334-337 | applying an operator appends it and keeps the rest |
| Protocol.BuildExpr | sc_data/src/protocol/mod.rs:331-337 | every expression is `new` followed by its operators in order |
| Protocol.ToRust | sc_data/src/protocol/mod.rs:271-286 | the Rust name of a class-free type reads back as that type, so distinct types get distinct names |
| Protocol.LitFrom | sc_data/src/protocol/mod.rs:341-345 | an `i32` becomes the integer literal holding it |

## Left out

- Integer widths:
  - Palette ids are `u32` and block ids `u32` in the source. Here they are unbounded naturals.
  - Every id the model reaches stays below 2^13 (`Paletted.Section.PaletteSmall`), so the widths never bind.
- Concurrency: the locks around sections and chunks (`RwLock`, async locks) are dropped. Each operation runs alone.
- `Header::from_id` is not part of this model's source files. The kind numbering 0 None, 1 VarInt, 2 Float, 3 Double, 4 Struct, 5 Enum, 6 Bytes, 7 invalid is taken from the header bytes the `simple` test in `sc_transfer/src/read.rs` writes.
- TransferRead.MessageReader.ReadFloat, ReadDouble: return the raw little-endian bits. `f32::from_bits` / `f64::from_bits` is floating point and is not modelled.
- The signed reads (`read_i8` … `read_i64`) are not modelled. They decode with `zag`, which is not part of this model's source files.
- TransferRead.MessageReader.ReadBytes: the UTF-8 check of the string reads (`InvalidUtf8`) is not modelled, because strings are read as byte sequences.
- TransferRead.MessageReader.ReadBuf: corrected, not as written. `read_buf` computes `idx + len` on `usize`, like `skip_bytes`, and `read_bytes` passes it a length read from the wire, which can be up to 2^64 - 1. At idx 1 with that length, `idx + len` wraps to 0 in a release build, the check passes and the slice `data[1..0]` panics; a debug build panics on the addition. ReadBuf refuses such a length with InvalidBufLength instead. The panic is not modelled.
- TransferRead.FieldsReader: `StructReader` and `EnumReader` share one class, since their `read` methods are the same code.
- TransferRead.FieldsReader.Read: `T::read` is generic. Here it is an unsigned varint field of width 8, 16, 32 or 64 bits, with default 0.
- The `bytes` test of `sc_transfer/src/read.rs` reads `b"hello"` as a bytes field. Its first byte `h` has kind 0 (None), so neither reading of `read_bytes` accepts it; the test is not used.
- Chunks.Chunk.SetBlock, Fill, GetBlock: require x and z in 0..16, and Chunks.FillBox requires ordered x and z. The source never checks them: `index` ors x into `z << 4`, so x = 16 silently writes another cell, and its doc comments promise a `PosError` for x or z outside 0..16 that the code never returns. The model covers neither that aliasing nor the promised error.
- Paletted.Section.Fill and Chunks.FillBox: require an ordered box (`Ordered`, and min.y <= max.y within one layer). With max below min in one layer, the source adds a wrapped negative volume to `block_amounts`; that case is not modelled.
- Chunks.ChunkY, RelY: `Pos::chunk_y` and `Pos::chunk_rel_y` are not part of this model's source files. They are taken as floor division and the non-negative remainder by 16.
- SectionProto.FromLatestProto: requires a palette without duplicates. The source builds the reverse map last-writer-wins and panics on nothing, but a duplicate makes its counts and reverse map disagree.
- SectionProto.FromOldProto: also requires that the conversion maps air to air (`f(0) == 0`). The version table fixes id 0 to 0, but the conversion is a parameter here.
- SectionProto.LatestRoundTrip: requires at most 256 palette entries, the limit `validate_proto` checks. Sections built by `set_block` can outgrow it, and such a section does not read back.
- The fixed-format sections (`common/src/chunk/fixed`) and the section trait are not part of this model.
- Paletted.Section.SetPalette: the debug assertion `id < 1 << bpb` is a precondition, and so are the other debug-only panics of the section.
- Scoreboards.Scoreboard.SetLine and ClearLine: require a line below 15. The source indexes the array and panics otherwise.
- Scoreboards: the connection is a log of the packets sent, and the text of a line arrives already formatted by `Chat::to_codes`. Display positions other than the sidebar are told apart only by a code.
- ScrollBuffer.ScrollBuf.Write: the terminal escape sequences that `flush` writes to standard output are I/O and are not modelled. The flush is the trim.
- ScrollBuffer: row and height are `u16` in the source and unbounded here. The `buf()` accessor only returns the buffer.
- ItemBehavior: the behaviour object is a type parameter. An item type is its numeric id.
- CEnum: only `to_lower` and `is_copy` are modelled. The rest of the macro generates Rust tokens.
- Protocol: the class-name conversion of `to_rust` is a function parameter. `RType::new`, code generation and (de)serialization are not modelled.
- Protocol.GetFieldMut: returns the index of the field instead of a mutable reference.
- Protocol: floats are kept as their 32-bit pattern.
- BlockCross:
  - A block's states are listed in order; `all_states` and the property accessors are abstracted to a state value with named properties.
  - The `HashMap` built from the old blocks keeps the last block of each name, as `collect` does.
  - Writing the generated Rust file is not modelled.
- BlockVersion: `to_index` of the generated tables is inferred from how `to_old` uses them, and `from_index_rev` is not modelled. The version file is given as parsed rows of ids.
- CommandSerialize:
  - The output buffer is a sequence of tokens (flag byte, varint, string, i32, f32/f64 bit pattern) rather than bytes.
  - The parser names of the unit parsers are grouped into one name table. `ParserNamed`, the client's lookup of a name, is this model's own reference, not code of the repository.
  - The top-level commands, which the source takes from a `HashMap` in its iteration order, are given as a sequence.

## Findings

| source | as written | input that shows it | evidently intended | confidence | as-written member | corrected member |
|---|---|---|---|---|---|---|
| common/src/chunk/paletted/mod.rs:418-420 | `fill` removes the collected unused palette ids in ascending order, but each removal renumbers the entries above it, so the later ids point one entry too high | palette [0,1,2,3], the box holds the only cells of blocks 1 and 2: after entry 1 is removed, removing id 2 drops block 3's entry, and the block-3 cell outside the box reads as block 2 | remove the ids highest first, so that the remaining ids stay valid | high, not executed | Box.PruneAsWrittenChangesOutside | Paletted.Section.Prune |
| common/src/chunk/mod.rs:113-116 | `get_block` passes the column position to the section unchanged, and the section needs y in 0..16 | set (0,16,0) then get (0,16,0): the allocated second layer is read at y = 16 | pass the y coordinate relative to the section, as `set_block` does | high, not executed | Chunks.GetAboveFirstLayer | Chunks.Chunk.GetBlock |
| bb_server/src/player/scoreboard.rs:39-47 | `hide` acts only when `!self.shown`, so a shown scoreboard is never hidden, and a hidden one sends a remove for an objective the client lacks | show, then hide: the scoreboard stays shown | act when shown, remove the objective, and mark it hidden | high, not executed | Scoreboards.HideAfterShow | Scoreboards.Scoreboard.Hide |
| common/src/chunk/paletted/mod.rs:46-65 | `validate_proto` accepts 64 bits per block, where the mask `(1 << 64) - 1` overflows, and a palette longer than `2^bpb` | bpb 64; or bpb 4 with the 256-entry palette 0..255, where inserting block 256 gives palette id 256 in 5-bit cells | also require bpb < 64 and a palette that fits in bpb bits | medium, not executed | SectionProto.LongPaletteAccepted | SectionProto.ValidateProto |
| sc_transfer/src/read.rs:428-445 | `read_f32`, `read_f64` and `read_bytes` accept only a `VarInt` header, so a float, double or bytes field is refused | the float field `[0x02, 0, 0, 0, 0]`: WrongMessage(Float, Float) | test for the Float, Double and Bytes headers | high, not executed | TransferRead.FloatFieldRefused | TransferRead.MessageReader.ReadF32 |
| sc_transfer/src/read.rs:412-419 | after a header of the wrong kind, `read_u64` returns WrongMessage with the cursor one byte into the field, so the next read parses payload | a 2-byte bytes field `[0x16, 0x61, 0x62]` then the varint 3: the second `read_u64` parses `0x61` as a header and returns 12 | skip the rest of the field, as `read_struct` does, so the reader stays valid | high, not executed | TransferRead.ReadAfterWrongField | TransferRead.MessageReader.ReadU64 |
| sc_transfer/src/read.rs:384-391 | `read_none` has the same defect as `read_u64`: a header of another kind gives WrongMessage with the cursor one byte into the field | the same bytes field then the varint 3: after `read_none` fails, the next `read_u64` returns 12 | skip the rest of the field, as `read_struct` does | high, not executed | TransferRead.ReadAfterWrongNone | TransferRead.MessageReader.ReadNone |
| sc_transfer/src/read.rs:532-556 | `StructReader::read` of a field above the last one skips one field even when all fields have been read, running past the struct | a 1-field struct at the end of the data: reading field 0, then field 2, gives EOF | return the default once every field is read | high, not executed | TransferRead.ReadPastLastField | TransferRead.FieldsReader.Read |
| sc_transfer/src/read.rs:336-343 | `skip_bytes` tests `idx + len > data.len()` on `usize`, which wraps in release builds | a two-byte message at index 1, length 2^64 - 1: `idx + len` wraps to 0, the check passes and the cursor moves back to 0 | check `len > data.len() - idx` | medium, not executed | TransferRead.SkipBytesWraps | TransferRead.MessageReader.SkipBytes |
| server/src/block/version.rs:42-59 | `to_latest` indexes the version list at `ver` while `to_old` uses `ver - 1`, so a version converts with the next version's table | tables [[0,0,0],[1,5,7]]: old id 7 of version 1 maps to 0, not back to 1; for version 2 (and the latest version) the index is past the list and the source panics | index `ver - 1` in both, keeping the id for the latest version as `to_old` does (that version has no table of its own) | medium, not executed | BlockVersion.ToLatestMissesTable | BlockVersion.Converter.ToLatest |
