/** The cursor that reads fields from a message (`MessageReader` in
    `sc_transfer/src/read.rs`) and the reader of a struct's or enum's fields
    (`StructReader`, `EnumReader`). Every read is proved to return what the
    functions of `TransferWire` decode at the cursor and to leave the cursor
    where they end. */
module TransferRead {
  import opened Bits
  import opened Wrappers
  import opened TransferWire

  /** `r` is what `spec` decodes, and on success the cursor `idx` is where
      it ends. */
  ghost predicate Agrees<T, E>(r: Result<T, E>, spec: Result<Parsed<T>, E>, idx: nat)
  {
    match spec
    case Ok(p) => r == Ok(p.value) && idx == p.end
    case Err(e) => r == Err(e)
  }

  /** `r` is the unit result of a skip that `spec` describes, and on
      success the cursor `idx` is where it ends. */
  ghost predicate Reaches<E>(r: Result<(), E>, spec: Result<nat, E>, idx: nat)
  {
    match spec
    case Ok(end) => r == Ok(()) && idx == end
    case Err(e) => r == Err(e)
  }

  /** After a success or a valid error the cursor has moved past exactly the
      field at `pos`: the reader is still at a field boundary. */
  ghost predicate Recovers<T>(data: seq<byte>, pos: nat, r: Result<T, ReadError>, idx: nat)
  {
    (r.Ok? || r.error.ValidError?) ==> pos <= |data| && FieldEnd(data, pos) == Ok(idx)
  }

  /** The four-byte assembly of `read_float` is the little-endian number of
      the bytes. */
  lemma Le4(b0: byte, b1: byte, b2: byte, b3: byte)
    ensures Or(Or(Or(b0, ShlWide(b1, 8)), ShlWide(b2, 16)), ShlWide(b3, 24)) == LittleEndian([b0, b1, b2, b3])
  {
    assert LittleEndian([b0]) == b0;
    OrByte([b0], b1);
    assert [b0] + [b1] == [b0, b1];
    OrByte([b0, b1], b2);
    assert [b0, b1] + [b2] == [b0, b1, b2];
    OrByte([b0, b1, b2], b3);
    assert [b0, b1, b2] + [b3] == [b0, b1, b2, b3];
  }

  /** The four upper bytes of `read_double` continue the little-endian
      number of the four lower ones. */
  lemma Le8(low: seq<byte>, b4: byte, b5: byte, b6: byte, b7: byte)
    requires |low| == 4
    ensures Or(Or(Or(Or(LittleEndian(low), ShlWide(b4, 32)), ShlWide(b5, 40)), ShlWide(b6, 48)), ShlWide(b7, 56))
      == LittleEndian(low + [b4, b5, b6, b7])
  {
    OrByte(low, b4);
    OrByte(low + [b4], b5);
    assert low + [b4] + [b5] == low + [b4, b5];
    OrByte(low + [b4, b5], b6);
    assert low + [b4, b5] + [b6] == low + [b4, b5, b6];
    OrByte(low + [b4, b5, b6], b7);
    assert low + [b4, b5, b6] + [b7] == low + [b4, b5, b6, b7];
  }

  /** Eight bytes read one by one are the slice of the message they came
      from. */
  lemma Slice8(data: seq<byte>, p: nat, b0: byte, b1: byte, b2: byte, b3: byte, b4: byte, b5: byte, b6: byte, b7: byte)
    requires p + 8 <= |data|
    requires data[p] == b0 && data[p + 1] == b1 && data[p + 2] == b2 && data[p + 3] == b3
    requires data[p + 4] == b4 && data[p + 5] == b5 && data[p + 6] == b6 && data[p + 7] == b7
    ensures data[p..p + 8] == [b0, b1, b2, b3] + [b4, b5, b6, b7]
  {
  }

  /** A cursor over a message. */
  class MessageReader {
    const data: seq<byte>
    var idx: nat

    /** The cursor never passes the end of the message. */
    ghost predicate Valid()
      reads this
    {
      idx <= |data|
    }

    /** `MessageReader::new`: the cursor starts at the first byte. */
    constructor (data: seq<byte>)
      ensures Valid() && this.data == data && idx == 0
    {
      this.data := data;
      idx := 0;
    }

    /** A cursor at `idx` (the inner reader `read_struct` builds). */
    constructor At(data: seq<byte>, idx: nat)
      requires idx <= |data|
      ensures Valid() && this.data == data && this.idx == idx
    {
      this.data := data;
      this.idx := idx;
    }

    /** `read_byte`: `EOF` at the end, otherwise the next byte, advancing the
        cursor by one. */
    method ReadByte() returns (r: Result<byte, InvalidReadError>)
      requires Valid()
      modifies this
      ensures Valid()
      ensures r.Ok? <==> old(idx) < |data|
      ensures r.Ok? ==> r.value == data[old(idx)] && idx == old(idx) + 1
      ensures r.Err? ==> r.error == EOF && idx == old(idx)
    {
      if idx >= |data| {
        return Err(EOF);
      }
      idx := idx + 1;
      r := Ok(data[idx - 1]);
    }

    /** `undo_read_byte`: moves the cursor back one byte. */
    method UndoReadByte()
      requires Valid() && idx > 0
      modifies this
      ensures Valid() && idx == old(idx) - 1
    {
      idx := idx - 1;
    }

    /** `read_header`: the kind (`val & 0x07`) and the extra (`val >> 3`) of
        the next byte. */
    method ReadHeader() returns (r: Result<(Header, nat), InvalidReadError>)
      requires Valid()
      modifies this
      ensures Valid() && Agrees(r, HeaderAt(data, old(idx)), idx)
    {
      var b := ReadByte();
      if b.Err? {
        return Err(b.error);
      }
      var h := FromId(b.value % 8);
      if h.None? {
        return Err(InvalidHeader(b.value % 8));
      }
      r := Ok((h.value, b.value / 8));
    }

    /** `read_varint`: the extra alone when its bit 0x10 is clear; otherwise
        its low 4 bits OR'd with the low 7 bits (`v & !0x80`) of each
        following byte shifted to `i * 7 + 4`, up to the first byte with bit
        0x80 clear, and `VarIntTooLong` after nine bytes. */
    method ReadVarint(extra: nat) returns (r: Result<u64, InvalidReadError>)
      requires Valid() && extra < 32
      modifies this
      ensures Valid() && Agrees(r, VarIntAt(data, old(idx), extra), idx)
    {
      if extra < 16 {
        return Ok(extra);
      }
      var out: u64 := extra % 16;
      var i := 0;
      while true
        invariant Valid() && i < 9
        invariant VarIntAt(data, old(idx), extra) == Continuation(data, idx, i, out)
        decreases 9 - i
      {
        var v := ReadByte();
        if v.Err? {
          return Err(v.error);
        }
        var done := v.value < 128;
        out := Or64(out, Shl(v.value % 128, i * 7 + 4));
        if done {
          return Ok(out);
        }
        i := i + 1;
        if i >= 9 {
          return Err(VarIntTooLong);
        }
      }
    }

    /** `read_float`: four bytes, least significant first (the bits that
        `f32::from_bits` takes). */
    method ReadFloat() returns (r: Result<nat, InvalidReadError>)
      requires Valid()
      modifies this
      ensures Valid() && Agrees(r, FixedAt(data, old(idx), 4), idx)
    {
      var b0 := ReadByte();
      if b0.Err? { return Err(b0.error); }
      var b1 := ReadByte();
      if b1.Err? { return Err(b1.error); }
      var b2 := ReadByte();
      if b2.Err? { return Err(b2.error); }
      var b3 := ReadByte();
      if b3.Err? { return Err(b3.error); }
      var n := Or(Or(Or(b0.value, ShlWide(b1.value, 8)), ShlWide(b2.value, 16)), ShlWide(b3.value, 24));
      assert data[old(idx)..idx] == [b0.value, b1.value, b2.value, b3.value];
      Le4(b0.value, b1.value, b2.value, b3.value);
      r := Ok(n);
    }

    /** `read_double`: eight bytes, least significant first (the bits that
        `f64::from_bits` takes). */
    method ReadDouble() returns (r: Result<nat, InvalidReadError>)
      requires Valid()
      modifies this
      ensures Valid() && Agrees(r, FixedAt(data, old(idx), 8), idx)
    {
      ghost var start := idx;
      var b0 := ReadByte();
      if b0.Err? { return Err(b0.error); }
      assert idx == start + 1 && b0.value == data[start + 0];
      var b1 := ReadByte();
      if b1.Err? { return Err(b1.error); }
      assert idx == start + 2 && b1.value == data[start + 1];
      var b2 := ReadByte();
      if b2.Err? { return Err(b2.error); }
      assert idx == start + 3 && b2.value == data[start + 2];
      var b3 := ReadByte();
      if b3.Err? { return Err(b3.error); }
      assert idx == start + 4 && b3.value == data[start + 3];
      var b4 := ReadByte();
      if b4.Err? { return Err(b4.error); }
      assert idx == start + 5 && b4.value == data[start + 4];
      var b5 := ReadByte();
      if b5.Err? { return Err(b5.error); }
      assert idx == start + 6 && b5.value == data[start + 5];
      var b6 := ReadByte();
      if b6.Err? { return Err(b6.error); }
      assert idx == start + 7 && b6.value == data[start + 6];
      var b7 := ReadByte();
      if b7.Err? { return Err(b7.error); }
      assert idx == start + 8 && b7.value == data[start + 7];
      var low := Or(Or(Or(b0.value, ShlWide(b1.value, 8)), ShlWide(b2.value, 16)), ShlWide(b3.value, 24));
      var n := Or(Or(Or(Or(low, ShlWide(b4.value, 32)), ShlWide(b5.value, 40)), ShlWide(b6.value, 48)), ShlWide(b7.value, 56));
      Le4(b0.value, b1.value, b2.value, b3.value);
      Le8([b0.value, b1.value, b2.value, b3.value], b4.value, b5.value, b6.value, b7.value);
      Slice8(data, start, b0.value, b1.value, b2.value, b3.value, b4.value, b5.value, b6.value, b7.value);
      r := Ok(n);
    }

    /** `read_buf`: the next `len` bytes; `InvalidBufLength`, with the
        cursor kept, when fewer are left. */
    method ReadBuf(len: nat) returns (r: Result<seq<byte>, InvalidReadError>)
      requires Valid()
      modifies this
      ensures Valid()
      ensures old(idx) + len > |data| ==> r == Err(InvalidBufLength) && idx == old(idx)
      ensures old(idx) + len <= |data| ==> r == Ok(data[old(idx)..old(idx) + len]) && idx == old(idx) + len
    {
      if idx + len > |data| {
        return Err(InvalidBufLength);
      }
      r := Ok(data[idx..idx + len]);
      idx := idx + len;
    }

    /** `skip_bytes`: moves the cursor `len` bytes on; `InvalidBufLength`,
        with the cursor kept, when fewer are left. */
    method SkipBytes(len: nat) returns (r: Result<(), InvalidReadError>)
      requires Valid()
      modifies this
      ensures Valid()
      ensures old(idx) + len > |data| ==> r == Err(InvalidBufLength) && idx == old(idx)
      ensures old(idx) + len <= |data| ==> r == Ok(()) && idx == old(idx) + len
    {
      if idx + len > |data| {
        return Err(InvalidBufLength);
      }
      idx := idx + len;
      r := Ok(());
    }

    /** `skip_bytes` as written, where `idx + len` is a `usize` sum that
        wraps around at 2^64 in a release build. */
    method SkipBytesAsWritten(len: u64) returns (r: Result<(), InvalidReadError>)
      requires Valid() && |data| < WORD_LIMIT
      modifies this
      ensures Valid()
      ensures (old(idx) + len) % WORD_LIMIT > |data| ==> r == Err(InvalidBufLength) && idx == old(idx)
      ensures (old(idx) + len) % WORD_LIMIT <= |data| ==> r == Ok(()) && idx == (old(idx) + len) % WORD_LIMIT
    {
      var end := (idx + len) % WORD_LIMIT;
      if end > |data| {
        return Err(InvalidBufLength);
      }
      idx := end;
      r := Ok(());
    }

    /** `skip_field`: the cursor moves to the end `FieldEnd` finds, and the
        error is the one it finds. */
    method SkipField() returns (r: Result<(), InvalidReadError>)
      requires Valid()
      modifies this
      ensures Valid() && Reaches(r, FieldEnd(data, old(idx)), idx)
      decreases |data| - idx, 0
    {
      var hd := ReadHeader();
      if hd.Err? {
        return Err(hd.error);
      }
      var (h, extra) := hd.value;
      match h
      case Nothing =>
        r := Ok(());
      case VarInt =>
        var v := ReadVarint(extra);
        if v.Err? {
          return Err(v.error);
        }
        r := Ok(());
      case Float =>
        var v := ReadFloat();
        if v.Err? {
          return Err(v.error);
        }
        r := Ok(());
      case Double =>
        var v := ReadDouble();
        if v.Err? {
          return Err(v.error);
        }
        r := Ok(());
      case Struct =>
        var n := ReadVarint(extra);
        if n.Err? {
          return Err(n.error);
        }
        r := SkipFields(n.value);
      case Enum =>
        var v := ReadVarint(extra);
        if v.Err? {
          return Err(v.error);
        }
        r := SkipField();
      case Bytes =>
        var len := ReadVarint(extra);
        if len.Err? {
          return Err(len.error);
        }
        r := SkipBytes(len.value);
    }

    /** `skip_fields`: `n` fields one after the other, stopping at the first
        error. */
    method SkipFields(n: nat) returns (r: Result<(), InvalidReadError>)
      requires Valid()
      modifies this
      ensures Valid() && Reaches(r, FieldsEnd(data, old(idx), n), idx)
      decreases |data| - idx, 1
    {
      var k := 0;
      while k < n
        invariant Valid() && k <= n && old(idx) <= idx
        invariant FieldsEnd(data, old(idx), k) == Ok(idx)
      {
        ghost var at := idx;
        var s := SkipField();
        if s.Err? {
          FieldsAfter(data, old(idx), k, n);
          FieldsStep(data, at, n - k);
          return Err(s.error);
        }
        FieldsSnoc(data, old(idx), k);
        k := k + 1;
      }
      r := Ok(());
    }

    /** The header check `read_struct` and `read_enum` make: a header of
        kind `h` gives its extra; any other field is skipped whole (undo the
        header byte, `skip_field`) and reported as `WrongMessage`. */
    method Expect(h: Header) returns (r: Result<nat, ReadError>)
      requires Valid()
      modifies this
      ensures Valid() && Agrees(r, ExpectAt(data, old(idx), h), idx)
      ensures r.Err? && r.error.ValidError? ==> FieldEnd(data, old(idx)) == Ok(idx)
    {
      var hd := ReadHeader();
      if hd.Err? {
        return Err(InvalidError(hd.error));
      }
      var (got, extra) := hd.value;
      if got != h {
        UndoReadByte();
        var s := SkipField();
        if s.Err? {
          return Err(InvalidError(s.error));
        }
        return Err(ValidError(WrongMessage(got, h)));
      }
      r := Ok(extra);
    }

    /** The header check of `read_none`, `read_u64`, `read_f32`, `read_f64`
        and `read_bytes` as written: a header of kind `accepted` gives its
        extra; any other is reported as `WrongMessage(_, reported)` with the
        cursor just after the header byte. */
    method CheckHeader(accepted: Header, reported: Header) returns (r: Result<nat, ReadError>)
      requires Valid()
      modifies this
      ensures Valid() && Agrees(r, HeaderCheckAt(data, old(idx), accepted, reported), idx)
      ensures r.Err? && r.error.ValidError? ==> idx == old(idx) + 1
    {
      var hd := ReadHeader();
      if hd.Err? {
        return Err(InvalidError(hd.error));
      }
      var (got, extra) := hd.value;
      if got != accepted {
        return Err(ValidError(WrongMessage(got, reported)));
      }
      r := Ok(extra);
    }

    /** `read_none` as written: a `None` field, one byte. A header of
        another kind is `WrongMessage` with the cursor left one byte into
        that field, as in `ReadU64AsWritten`. */
    method ReadNoneAsWritten() returns (r: Result<(), ReadError>)
      requires Valid()
      modifies this
      ensures Valid() && (r.Ok? ==> FieldEnd(data, old(idx)) == Ok(idx))
      ensures r.Ok? <==> HeaderCheckAt(data, old(idx), Nothing, Nothing).Ok?
      ensures r.Err? ==> r.error == HeaderCheckAt(data, old(idx), Nothing, Nothing).error
      ensures r.Err? && r.error.ValidError? ==> idx == old(idx) + 1
    {
      var x := CheckHeader(Nothing, Nothing);
      if x.Err? {
        return Err(x.error);
      }
      r := Ok(());
    }

    /** `read_none` with the header check `read_struct` makes: a `None`
        field, one byte; any other field is skipped whole. */
    method ReadNone() returns (r: Result<(), ReadError>)
      requires Valid()
      modifies this
      ensures Valid() && Recovers(data, old(idx), r, idx)
      ensures r.Ok? <==> ExpectAt(data, old(idx), Nothing).Ok?
      ensures r.Err? ==> r.error == ExpectAt(data, old(idx), Nothing).error
    {
      var x := Expect(Nothing);
      if x.Err? {
        return Err(x.error);
      }
      r := Ok(());
    }

    /** `read_u64` with the header check `read_struct` makes: the value of a
        `VarInt` field; any other field is skipped whole. */
    method ReadU64() returns (r: Result<u64, ReadError>)
      requires Valid()
      modifies this
      ensures Valid() && Agrees(r, U64At(data, old(idx)), idx) && Recovers(data, old(idx), r, idx)
    {
      var x := Expect(VarInt);
      if x.Err? {
        return Err(x.error);
      }
      var v := ReadVarint(x.value);
      if v.Err? {
        return Err(InvalidError(v.error));
      }
      r := Ok(v.value);
    }

    /** `read_u64` as written: a field of another kind is reported with the
        cursor inside it, just after its header byte. */
    method ReadU64AsWritten() returns (r: Result<u64, ReadError>)
      requires Valid()
      modifies this
      ensures Valid() && Agrees(r, ThenVarInt(data, HeaderCheckAt(data, old(idx), VarInt, VarInt)), idx)
      ensures r.Err? && r.error.ValidError? ==> idx == old(idx) + 1
    {
      var x := CheckHeader(VarInt, VarInt);
      if x.Err? {
        return Err(x.error);
      }
      var v := ReadVarint(x.value);
      if v.Err? {
        return Err(InvalidError(v.error));
      }
      r := Ok(v.value);
    }

    /** `read_u8`, `read_u16`, `read_u32`: `read_u64`, then
        `VarIntTooLong` when the value does not fit in `width` bits. Built
        on the corrected `ReadU64`, so a wrong kind leaves the cursor after
        the field rather than one byte into it. */
    method ReadUnsigned(width: nat) returns (r: Result<nat, ReadError>)
      requires Valid()
      modifies this
      ensures Valid() && Agrees(r, UnsignedAt(data, old(idx), width), idx) && Recovers(data, old(idx), r, idx)
    {
      var v := ReadU64();
      if v.Err? {
        return Err(v.error);
      }
      if v.value >= Pow2(width) {
        return Err(InvalidError(VarIntTooLong));
      }
      r := Ok(v.value);
    }

    /** `read_bool`: a `VarInt` of 0 or 1; a larger value is
        `VarIntTooLong`. Built on the corrected `ReadU64`. */
    method ReadBool() returns (r: Result<bool, ReadError>)
      requires Valid()
      modifies this
      ensures Valid() && Recovers(data, old(idx), r, idx)
      ensures r.Ok? <==> U64At(data, old(idx)).Ok? && U64At(data, old(idx)).value.value < 2
      ensures r.Ok? ==> r.value == (U64At(data, old(idx)).value.value == 1)
      ensures U64At(data, old(idx)).Err? ==> r == Err(U64At(data, old(idx)).error)
    {
      var num := ReadU64();
      if num.Err? {
        return Err(num.error);
      }
      if num.value == 0 {
        r := Ok(false);
      } else if num.value == 1 {
        r := Ok(true);
      } else {
        r := Err(InvalidError(VarIntTooLong));
      }
    }

    /** `read_f32` checking for a `Float` header: the four bytes of a
        `Float` field; any other field is skipped whole. */
    method ReadF32() returns (r: Result<nat, ReadError>)
      requires Valid()
      modifies this
      ensures Valid() && Agrees(r, ThenFixed(data, ExpectAt(data, old(idx), Float), 4), idx)
      ensures Recovers(data, old(idx), r, idx)
    {
      var x := Expect(Float);
      if x.Err? {
        return Err(x.error);
      }
      var v := ReadFloat();
      if v.Err? {
        return Err(InvalidError(v.error));
      }
      r := Ok(v.value);
      FixedFieldEnd(data, old(idx));
    }

    /** `read_f32` as written: it accepts a `VarInt` header and refuses a
        `Float` one. */
    method ReadF32AsWritten() returns (r: Result<nat, ReadError>)
      requires Valid()
      modifies this
      ensures Valid() && Agrees(r, ThenFixed(data, HeaderCheckAt(data, old(idx), VarInt, Float), 4), idx)
    {
      var x := CheckHeader(VarInt, Float);
      if x.Err? {
        return Err(x.error);
      }
      var v := ReadFloat();
      if v.Err? {
        return Err(InvalidError(v.error));
      }
      r := Ok(v.value);
    }

    /** `read_f64` checking for a `Double` header: the eight bytes of a
        `Double` field; any other field is skipped whole. */
    method ReadF64() returns (r: Result<nat, ReadError>)
      requires Valid()
      modifies this
      ensures Valid() && Agrees(r, ThenFixed(data, ExpectAt(data, old(idx), Double), 8), idx)
      ensures Recovers(data, old(idx), r, idx)
    {
      var x := Expect(Double);
      if x.Err? {
        return Err(x.error);
      }
      var v := ReadDouble();
      if v.Err? {
        return Err(InvalidError(v.error));
      }
      r := Ok(v.value);
      FixedFieldEnd(data, old(idx));
    }

    /** `read_f64` as written: it accepts a `VarInt` header and refuses a
        `Double` one. */
    method ReadF64AsWritten() returns (r: Result<nat, ReadError>)
      requires Valid()
      modifies this
      ensures Valid() && Agrees(r, ThenFixed(data, HeaderCheckAt(data, old(idx), VarInt, Double), 8), idx)
    {
      var x := CheckHeader(VarInt, Double);
      if x.Err? {
        return Err(x.error);
      }
      var v := ReadDouble();
      if v.Err? {
        return Err(InvalidError(v.error));
      }
      r := Ok(v.value);
    }

    /** `read_bytes` checking for a `Bytes` header: the length varint, then
        that many bytes; any other field is skipped whole. */
    method ReadBytes() returns (r: Result<seq<byte>, ReadError>)
      requires Valid()
      modifies this
      ensures Valid() && Agrees(r, ThenBytes(data, ExpectAt(data, old(idx), Bytes)), idx)
      ensures Recovers(data, old(idx), r, idx)
    {
      var x := Expect(Bytes);
      if x.Err? {
        return Err(x.error);
      }
      var len := ReadVarint(x.value);
      if len.Err? {
        return Err(InvalidError(len.error));
      }
      var b := ReadBuf(len.value);
      if b.Err? {
        return Err(InvalidError(b.error));
      }
      r := Ok(b.value);
      BytesFieldEnd(data, old(idx));
    }

    /** `read_bytes` as written: it accepts a `VarInt` header and refuses a
        `Bytes` one. */
    method ReadBytesAsWritten() returns (r: Result<seq<byte>, ReadError>)
      requires Valid()
      modifies this
      ensures Valid() && Agrees(r, ThenBytes(data, HeaderCheckAt(data, old(idx), VarInt, Bytes)), idx)
    {
      var x := CheckHeader(VarInt, Bytes);
      if x.Err? {
        return Err(x.error);
      }
      var len := ReadVarint(x.value);
      if len.Err? {
        return Err(InvalidError(len.error));
      }
      var b := ReadBuf(len.value);
      if b.Err? {
        return Err(InvalidError(b.error));
      }
      r := Ok(b.value);
    }

    /** `read_struct`: a `Struct` field whose fields all skip cleanly. The
        cursor moves past the whole struct before the fields are read, and
        the reader of its fields (`StructReader`, which `S::read_struct`
        receives) starts at the first of them. Any other field is skipped
        whole. */
    method ReadStruct() returns (r: Result<FieldsReader, ReadError>)
      requires Valid()
      modifies this
      ensures Valid() && Recovers(data, old(idx), r, idx)
      ensures r.Ok? <==> StructAt(data, old(idx)).Ok?
      ensures r.Err? ==> r.error == StructAt(data, old(idx)).error
      ensures r.Ok? ==> fresh(r.value) && fresh(r.value.reader) && r.value.Valid() && r.value.reader.data == data
      ensures r.Ok? ==> (r.value.start, r.value.maxFields) == StructAt(data, old(idx)).value.value
      ensures r.Ok? ==> r.value.currentField == 0 && r.value.variant == None
    {
      var x := Expect(Struct);
      if x.Err? {
        return Err(x.error);
      }
      var maxFields := ReadVarint(x.value);
      if maxFields.Err? {
        return Err(InvalidError(maxFields.error));
      }
      var start := idx;
      var s := SkipFields(maxFields.value);
      if s.Err? {
        return Err(InvalidError(s.error));
      }
      var inner := new MessageReader.At(data, start);
      var fields := new FieldsReader(inner, maxFields.value, None);
      r := Ok(fields);
    }

    /** `read_enum`: an `Enum` field, its variant, then a `Struct` field
        whose fields all skip cleanly; the reader of those fields
        (`EnumReader`) carries the variant. A field of another kind in
        either place is skipped whole. */
    method ReadEnum() returns (r: Result<FieldsReader, ReadError>)
      requires Valid()
      modifies this
      ensures Valid() && Recovers(data, old(idx), r, idx)
      ensures r.Ok? <==> EnumAt(data, old(idx)).Ok?
      ensures r.Err? ==> r.error == EnumAt(data, old(idx)).error
      ensures r.Ok? ==> fresh(r.value) && fresh(r.value.reader) && r.value.Valid() && r.value.reader.data == data
      ensures r.Ok? ==> r.value.variant == Some(EnumAt(data, old(idx)).value.value.0)
      ensures r.Ok? ==> (r.value.start, r.value.maxFields) == (EnumAt(data, old(idx)).value.value.1, EnumAt(data, old(idx)).value.value.2)
      ensures r.Ok? ==> r.value.currentField == 0
    {
      var x := Expect(Enum);
      if x.Err? {
        return Err(x.error);
      }
      var variant := ReadVarint(x.value);
      if variant.Err? {
        return Err(InvalidError(variant.error));
      }
      ghost var inner := idx;
      var y := Expect(Struct);
      if y.Err? {
        return Err(y.error);
      }
      var maxFields := ReadVarint(y.value);
      if maxFields.Err? {
        return Err(InvalidError(maxFields.error));
      }
      var start := idx;
      var s := SkipFields(maxFields.value);
      if s.Err? {
        return Err(InvalidError(s.error));
      }
      var reader := new MessageReader.At(data, start);
      var fields := new FieldsReader(reader, maxFields.value, Some(variant.value));
      r := Ok(fields);
    }
  }

  /** The reader of a struct's fields (`StructReader`), or of the struct of
      an enum's data with its variant (`EnumReader`). Field `k` is read after
      the `k` before it; a field past `maxFields` reads as the default. */
  class FieldsReader {
    const reader: MessageReader
    const start: nat
    const maxFields: nat
    const variant: Option<nat>
    var currentField: nat

    /** The struct's fields all skip cleanly, and the cursor has consumed
        the first `currentField` of them (all of them once `currentField`
        reaches `maxFields`). */
    ghost predicate Valid()
      reads this, reader
    {
      reader.Valid() && start <= |reader.data| && FieldsEnd(reader.data, start, maxFields).Ok? &&
      FieldsEnd(reader.data, start, Min(currentField, maxFields)) == Ok(reader.idx)
    }

    /** A reader at the first of `maxFields` fields. */
    constructor (reader: MessageReader, maxFields: nat, variant: Option<nat>)
      requires reader.Valid() && FieldsEnd(reader.data, reader.idx, maxFields).Ok?
      ensures Valid() && this.reader == reader && start == reader.idx && this.maxFields == maxFields
      ensures this.variant == variant && currentField == 0
    {
      this.reader := reader;
      start := reader.idx;
      this.maxFields := maxFields;
      this.variant := variant;
      currentField := 0;
    }

    /** `read(field)` as written: the fields between the last one read and
        `field` are skipped, and the field is read as an unsigned integer of
        `width` bits (`T::read`); a value of another kind reads as 0. When the
        last field was already read, a later `field` still skips one field,
        the one after the struct. */
    method ReadAsWritten(field: nat, width: nat) returns (r: Result<nat, ReadError>)
      requires Valid() && currentField <= field
      modifies this, reader
      ensures old(currentField) < maxFields || field == old(currentField) ==>
        r == FieldValue(reader.data, start, maxFields, field, width)
      ensures (old(currentField) < maxFields || field == old(currentField)) && r.Ok? ==>
        Valid() && currentField <= field + 1 && Min(currentField, maxFields) == Min(field + 1, maxFields)
      ensures old(currentField) >= maxFields && field > old(currentField) ==>
        (r.Ok? <==> FieldEnd(reader.data, old(reader.idx)).Ok?) &&
        (r.Ok? ==> r.value == 0 && reader.idx == FieldEnd(reader.data, old(reader.idx)).value) &&
        (r.Err? ==> r.error == InvalidError(FieldEnd(reader.data, old(reader.idx)).error))
    {
      ghost var data := reader.data;
      ghost var inside := currentField < maxFields;
      ghost var at := reader.idx;
      var current := currentField + 1;
      while current <= field
        invariant reader.Valid() && current <= field + 1
        invariant inside ==> current - 1 < maxFields && FieldsEnd(data, start, current - 1) == Ok(reader.idx)
        invariant !inside ==> current == old(currentField) + 1 && reader.idx == at
        decreases field + 1 - current
      {
        if inside {
          FieldsSplit(data, start, maxFields, current);
          FieldsSnoc(data, start, current - 1);
          assert FieldEnd(data, reader.idx).Ok?;
        }
        var s := reader.SkipField();
        if s.Err? {
          currentField := current;
          return Err(InvalidError(s.error));
        }
        assert inside ==> FieldsEnd(data, start, current) == Ok(reader.idx);
        if current >= maxFields {
          currentField := current;
          return Ok(0);
        }
        current := current + 1;
      }
      currentField := current;
      if field >= maxFields {
        return Ok(0);
      }
      r := ReadField(field, width);
    }

    /** The read of field `field` itself (`T::read`, a value of another kind
        giving the default) once the fields before it are consumed, through
        the corrected `ReadU64`. */
    method ReadField(field: nat, width: nat) returns (r: Result<nat, ReadError>)
      requires reader.Valid() && start <= |reader.data| && FieldsEnd(reader.data, start, maxFields).Ok?
      requires field < maxFields && FieldsEnd(reader.data, start, field) == Ok(reader.idx)
      modifies reader
      ensures r == FieldValue(reader.data, start, maxFields, field, width)
      ensures r.Ok? ==> reader.Valid() && FieldsEnd(reader.data, start, field + 1) == Ok(reader.idx)
    {
      FieldsSplit(reader.data, start, maxFields, field + 1);
      FieldsSnoc(reader.data, start, field);
      var v := reader.ReadUnsigned(width);
      match v
      case Ok(x) =>
        r := Ok(x);
      case Err(ValidError(_)) =>
        r := Ok(0);
      case Err(InvalidError(e)) =>
        r := Err(InvalidError(e));
    }

    /** `read(field)` with the skip guarded: once the last field has been
        read, every later field reads as the default and the cursor stays at
        the end of the struct. */
    method Read(field: nat, width: nat) returns (r: Result<nat, ReadError>)
      requires Valid() && currentField <= field
      modifies this, reader
      ensures r == FieldValue(reader.data, start, maxFields, field, width)
      ensures r.Ok? ==> Valid() && currentField <= field + 1 && Min(currentField, maxFields) == Min(field + 1, maxFields)
    {
      if currentField >= maxFields && field > currentField {
        currentField := field + 1;
        return Ok(0);
      }
      r := ReadAsWritten(field, width);
    }
  }

  function Min(a: nat, b: nat): nat
  {
    if a <= b then a else b
  }

  // ---------------------------------------------------------------------
  // Inputs on which the readers as written and as intended differ

  /** The float field of the source's `simple` test: `read_f32` as written
      refuses it, the corrected reader returns its bits and moves past it. */
  method FloatFieldRefused() returns (asWritten: Result<nat, ReadError>, corrected: Result<nat, ReadError>, end: nat)
    ensures asWritten == Err(ValidError(WrongMessage(Float, Float)))
    ensures corrected == Ok(0) && end == 5
  {
    var msg: seq<byte> := [HeaderByte(Float, 0), 0, 0, 0, 0];
    assert HeaderAt(msg, 0) == Ok(Parsed((Float, 0), 1));
    assert HeaderCheckAt(msg, 0, VarInt, Float) == Err(ValidError(WrongMessage(Float, Float)));
    var a := new MessageReader(msg);
    asWritten := a.ReadF32AsWritten();
    assert msg[1..5] == [0, 0, 0, 0];
    assert ExpectAt(msg, 0, Float) == Ok(Parsed(0, 1));
    assert ThenFixed(msg, ExpectAt(msg, 0, Float), 4) == Ok(Parsed(0, 5));
    var c := new MessageReader(msg);
    corrected := c.ReadF32();
    end := c.idx;
  }

  /** A `u64` read meets a two-byte string and then a `VarInt` of 3. As
      written, the cursor is left inside the string, and the next read takes
      its first byte, `a` (0x61), for a `VarInt` header of 12; skipping the
      string first gives 3. */
  method ReadAfterWrongField() returns (asWritten: Result<u64, ReadError>, corrected: Result<u64, ReadError>)
    ensures asWritten == Ok(12) && corrected == Ok(3)
  {
    var msg: seq<byte> := [HeaderByte(Bytes, 2), 0x61, 0x62, HeaderByte(VarInt, 3)];
    var a := new MessageReader(msg);
    var first := a.ReadU64AsWritten();
    assert a.idx == 1;
    asWritten := a.ReadU64AsWritten();
    var c := new MessageReader(msg);
    first := c.ReadU64();
    assert c.idx == 3;
    corrected := c.ReadU64();
  }

  /** `read_none` meets the same two-byte string and `VarInt` of 3: as
      written the next `u64` read again takes `a` for a header of 12, and
      with the string skipped it reads 3. */
  method ReadAfterWrongNone() returns (asWritten: Result<u64, ReadError>, corrected: Result<u64, ReadError>)
    ensures asWritten == Ok(12) && corrected == Ok(3)
  {
    var msg: seq<byte> := [HeaderByte(Bytes, 2), 0x61, 0x62, HeaderByte(VarInt, 3)];
    var a := new MessageReader(msg);
    var first := a.ReadNoneAsWritten();
    assert a.idx == 1;
    asWritten := a.ReadU64AsWritten();
    var c := new MessageReader(msg);
    first := c.ReadNone();
    assert c.idx == 3;
    corrected := c.ReadU64();
  }

  /** A struct with one field, the last thing in the message: after field 0
      is read, reading field 2 as written skips a field past the end of the
      struct and fails with `EOF`; the default 0 is intended. */
  method ReadPastLastField() returns (asWritten: Result<nat, ReadError>, corrected: Result<nat, ReadError>)
    ensures asWritten == Err(InvalidError(EOF)) && corrected == Ok(0)
  {
    var msg: seq<byte> := [HeaderByte(Struct, 1), HeaderByte(VarInt, 2)];
    assert StructAt(msg, 0) == Ok(Parsed((1, 1), 2));
    var a := new MessageReader(msg);
    var s := a.ReadStruct();
    var first := s.value.Read(0, 8);
    asWritten := s.value.ReadAsWritten(2, 8);
    var c := new MessageReader(msg);
    s := c.ReadStruct();
    first := s.value.Read(0, 8);
    corrected := s.value.Read(2, 8);
  }

  /** `skip_bytes` as written: one byte into a two-byte message, skipping
      2^64 - 1 bytes wraps `idx + len` around to 0, passes the length check
      and moves the cursor back to the start. */
  method SkipBytesWraps() returns (asWritten: Result<(), InvalidReadError>, cursor: nat, corrected: Result<(), InvalidReadError>)
    ensures asWritten == Ok(()) && cursor == 0
    ensures corrected == Err(InvalidBufLength)
  {
    var a := new MessageReader([0, 0]);
    var b := a.ReadByte();
    asWritten := a.SkipBytesAsWritten(WORD_LIMIT - 1);
    cursor := a.idx;
    var c := new MessageReader([0, 0]);
    b := c.ReadByte();
    corrected := c.SkipBytes(WORD_LIMIT - 1);
  }
}
