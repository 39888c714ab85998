/** The field format that `sc_transfer/src/read.rs` decodes, as functions of
    the message bytes and a position in them. Every field starts with one
    header byte: the low 3 bits name the kind of field, the other 5 bits
    ("extra") start its varint. A varint whose extra has bit 0x10 clear is the
    extra itself; otherwise the low 4 bits of the extra are followed by
    7-bit groups, least significant first, each with bit 0x80 set while more
    follow. */
module TransferWire {
  import opened Bits
  import opened Wrappers

  type byte = x: nat | x < 256

  /** The kind of a field (`Header`); `Nothing` is the source's
      `Header::None`. */
  datatype Header = Nothing | VarInt | Float | Double | Struct | Enum | Bytes

  /** Errors after which the reader is in an undefined state. */
  datatype InvalidReadError = InvalidBufLength | VarIntTooLong | InvalidHeader(id: nat) | EOF

  /** Errors after which the reader is still positioned at a field
      boundary (`InvalidUtf8` is not part of this model). */
  datatype ValidReadError = InvalidVariant(variant: nat) | WrongMessage(got: Header, expected: Header)

  /** `ReadError`. */
  datatype ReadError = ValidError(valid: ValidReadError) | InvalidError(invalid: InvalidReadError)

  /** A decoded value and the position just after it. */
  datatype Parsed<T> = Parsed(value: T, end: nat)

  /** The header of a 3-bit id, in the order the message layouts of the
      tests use; id 7 names no header. */
  function FromId(id: nat): (h: Option<Header>)
    ensures h.None? <==> id >= 7
  {
    match id
    case 0 => Some(Nothing)
    case 1 => Some(VarInt)
    case 2 => Some(Float)
    case 3 => Some(Double)
    case 4 => Some(Struct)
    case 5 => Some(Enum)
    case 6 => Some(Bytes)
    case _ => None
  }

  /** The header byte of a field of kind `h` with 5-bit extra `extra`. */
  function HeaderByte(h: Header, extra: nat): (b: byte)
    requires extra < 32
    ensures FromId(b % 8) == Some(h) && b / 8 == extra
  {
    var id := match h
      case Nothing => 0 case VarInt => 1 case Float => 2 case Double => 3
      case Struct => 4 case Enum => 5 case Bytes => 6;
    id + 8 * extra
  }

  /** The header at `pos` and its extra (`read_header`): `EOF` past the end,
      `InvalidHeader` for id 7; one byte is consumed. */
  function HeaderAt(data: seq<byte>, pos: nat): (r: Result<Parsed<(Header, nat)>, InvalidReadError>)
    ensures r.Ok? <==> pos < |data| && data[pos] % 8 < 7
    ensures r.Ok? ==> r.value.end == pos + 1 && r.value.value.1 < 32
    ensures r.Err? ==> r.error == if pos >= |data| then EOF else InvalidHeader(data[pos] % 8)
  {
    if pos >= |data| then Err(EOF)
    else match FromId(data[pos] % 8)
      case None => Err(InvalidHeader(data[pos] % 8))
      case Some(h) => Ok(Parsed((h, data[pos] / 8), pos + 1))
  }

  /** The continuation bytes of a varint from `pos`, the `i`-th group next
      and `acc` decoded so far: each byte adds its low 7 bits at bit
      `7 * i + 4` of the 64-bit value; a clear bit 0x80 ends the varint, and
      a ninth byte with it set is `VarIntTooLong`. */
  function Continuation(data: seq<byte>, pos: nat, i: nat, acc: u64): (r: Result<Parsed<u64>, InvalidReadError>)
    requires i < 9
    ensures r.Ok? ==> pos < r.value.end <= |data|
    decreases 9 - i
  {
    if pos >= |data| then Err(EOF)
    else
      var v := data[pos];
      var next := Or64(acc, Shl(v % 128, 7 * i + 4));
      if v < 128 then Ok(Parsed(next, pos + 1))
      else if i + 1 >= 9 then Err(VarIntTooLong)
      else Continuation(data, pos + 1, i + 1, next)
  }

  /** The varint whose header bits are `extra` and whose continuation bytes,
      if any, start at `pos` (`read_varint`). */
  function VarIntAt(data: seq<byte>, pos: nat, extra: nat): (r: Result<Parsed<u64>, InvalidReadError>)
    requires pos <= |data| && extra < 32
    ensures r.Ok? ==> pos <= r.value.end <= |data|
    ensures extra < 16 ==> r == Ok(Parsed(extra, pos))
  {
    if extra < 16 then Ok(Parsed(extra, pos))
    else Continuation(data, pos, 0, extra % 16)
  }

  /** The little-endian number of a byte sequence. */
  function LittleEndian(bs: seq<byte>): nat
  {
    if |bs| == 0 then 0 else bs[0] + 256 * LittleEndian(bs[1..])
  }

  /** 2^8 */
  lemma Pow2Byte()
    ensures Pow2(8) == 256
  {
  }

  /** The arithmetic step of `LittleEndianSnoc`. */
  lemma ShiftByte(x: nat, l: nat, b: nat, p: nat)
    ensures x + 256 * (l + b * p) == (x + 256 * l) + b * (256 * p)
  {
  }

  /** The arithmetic step of `LittleEndianBound`. */
  lemma ByteBelow(x: nat, l: nat, p: nat)
    requires x < 256 && l < p
    ensures x + 256 * l < 256 * p
  {
  }

  /** One more byte adds its value times 2^(8 * position). */
  lemma {:induction false} LittleEndianSnoc(bs: seq<byte>, b: byte)
    ensures LittleEndian(bs + [b]) == LittleEndian(bs) + b * Pow2(8 * |bs|)
  {
    if |bs| > 0 {
      var rest := bs[1..];
      assert (bs + [b])[1..] == rest + [b] && (bs + [b])[0] == bs[0];
      LittleEndianSnoc(rest, b);
      Pow2Add(8, 8 * |rest|);
      Pow2Byte();
      assert 8 * |bs| == 8 + 8 * |rest|;
      ShiftByte(bs[0], LittleEndian(rest), b, Pow2(8 * |rest|));
    }
  }

  /** A little-endian number of `n` bytes is below 2^(8 * n). */
  lemma {:induction false} LittleEndianBound(bs: seq<byte>)
    ensures LittleEndian(bs) < Pow2(8 * |bs|)
  {
    if |bs| > 0 {
      var rest := bs[1..];
      LittleEndianBound(rest);
      Pow2Add(8, 8 * |rest|);
      Pow2Byte();
      assert 8 * |bs| == 8 + 8 * |rest|;
      ByteBelow(bs[0], LittleEndian(rest), Pow2(8 * |rest|));
    }
  }

  /** OR-ing the next byte in at its shift (`b as u32 << 8 * k`) appends it
      to the little-endian number. */
  lemma OrByte(bs: seq<byte>, b: byte)
    ensures Or(LittleEndian(bs), ShlWide(b, 8 * |bs|)) == LittleEndian(bs + [b])
  {
    LittleEndianBound(bs);
    OrBelow(LittleEndian(bs), b, 8 * |bs|);
    LittleEndianSnoc(bs, b);
  }

  /** `n` bytes read as a little-endian number (`read_float`,
      `read_double`, before `from_bits`). */
  function FixedAt(data: seq<byte>, pos: nat, n: nat): (r: Result<Parsed<nat>, InvalidReadError>)
    ensures r.Ok? <==> pos + n <= |data|
    ensures r.Ok? ==> r.value.end == pos + n && r.value.value == LittleEndian(data[pos..pos + n])
    ensures r.Err? ==> r.error == EOF
  {
    if pos + n > |data| then Err(EOF) else Ok(Parsed(LittleEndian(data[pos..pos + n]), pos + n))
  }

  /** The position just after the field at `pos` (`skip_field`). */
  function FieldEnd(data: seq<byte>, pos: nat): (r: Result<nat, InvalidReadError>)
    requires pos <= |data|
    ensures r.Ok? ==> pos < r.value <= |data|
    decreases |data| - pos, 0, 0
  {
    match HeaderAt(data, pos)
    case Err(e) => Err(e)
    case Ok(Parsed((h, extra), p)) =>
      match h
      case Nothing => Ok(p)
      case VarInt => (match VarIntAt(data, p, extra) case Err(e) => Err(e) case Ok(v) => Ok(v.end))
      case Float => (match FixedAt(data, p, 4) case Err(e) => Err(e) case Ok(v) => Ok(v.end))
      case Double => (match FixedAt(data, p, 8) case Err(e) => Err(e) case Ok(v) => Ok(v.end))
      case Struct =>
        (match VarIntAt(data, p, extra)
         case Err(e) => Err(e)
         case Ok(n) => FieldsEnd(data, n.end, n.value))
      case Enum =>
        (match VarIntAt(data, p, extra)
         case Err(e) => Err(e)
         case Ok(v) => FieldEnd(data, v.end))
      case Bytes =>
        (match VarIntAt(data, p, extra)
         case Err(e) => Err(e)
         case Ok(len) => if len.end + len.value > |data| then Err(InvalidBufLength) else Ok(len.end + len.value))
  }

  /** The position just after `n` consecutive fields from `pos`
      (`skip_fields`). */
  function FieldsEnd(data: seq<byte>, pos: nat, n: nat): (r: Result<nat, InvalidReadError>)
    requires pos <= |data|
    ensures r.Ok? ==> pos <= r.value <= |data|
    ensures r.Ok? && n > 0 ==> pos < r.value
    decreases |data| - pos, 1, n
  {
    if n == 0 then Ok(pos)
    else match FieldEnd(data, pos)
      case Err(e) => Err(e)
      case Ok(p) => FieldsEnd(data, p, n - 1)
  }

  /** A field of kind `h` at `pos`: its extra and the position after its
      header. Any other field is skipped whole and reported as
      `WrongMessage`, the way `read_struct` and `read_enum` treat a field of
      the wrong kind (undo the header byte, `skip_field`). */
  function ExpectAt(data: seq<byte>, pos: nat, h: Header): (r: Result<Parsed<nat>, ReadError>)
    requires pos <= |data|
    ensures r.Ok? ==> HeaderAt(data, pos) == Ok(Parsed((h, r.value.value), r.value.end))
    ensures r.Err? && r.error.ValidError? ==>
      FieldEnd(data, pos).Ok? && HeaderAt(data, pos).Ok? &&
      r.error.valid == WrongMessage(HeaderAt(data, pos).value.value.0, h) && HeaderAt(data, pos).value.value.0 != h
  {
    match HeaderAt(data, pos)
    case Err(e) => Err(InvalidError(e))
    case Ok(Parsed((got, extra), p)) =>
      if got == h then Ok(Parsed(extra, p))
      else match FieldEnd(data, pos)
        case Err(e) => Err(InvalidError(e))
        case Ok(_) => Err(ValidError(WrongMessage(got, h)))
  }

  /** The header at `pos` checked against `accepted` alone, with no skip on
      a mismatch: the error names `reported`, and the cursor stays just after
      the header byte (`read_none`, and `read_u64`, `read_f32`, `read_f64`
      and `read_bytes` as written). */
  function HeaderCheckAt(data: seq<byte>, pos: nat, accepted: Header, reported: Header): (r: Result<Parsed<nat>, ReadError>)
    ensures r.Ok? ==> HeaderAt(data, pos) == Ok(Parsed((accepted, r.value.value), r.value.end))
    ensures r.Err? && r.error.ValidError? ==>
      HeaderAt(data, pos).Ok? && HeaderAt(data, pos).value.value.0 != accepted &&
      r.error.valid == WrongMessage(HeaderAt(data, pos).value.value.0, reported)
  {
    match HeaderAt(data, pos)
    case Err(e) => Err(InvalidError(e))
    case Ok(Parsed((got, extra), p)) =>
      if got == accepted then Ok(Parsed(extra, p)) else Err(ValidError(WrongMessage(got, reported)))
  }

  /** A header step that, on success, leaves an extra of 5 bits and a
      position inside the message. */
  ghost predicate HeaderStep(data: seq<byte>, hd: Result<Parsed<nat>, ReadError>)
  {
    hd.Ok? ==> hd.value.end <= |data| && hd.value.value < 32
  }

  /** The varint that follows a header step. */
  function ThenVarInt(data: seq<byte>, hd: Result<Parsed<nat>, ReadError>): (r: Result<Parsed<u64>, ReadError>)
    requires HeaderStep(data, hd)
    ensures r.Ok? ==> hd.Ok? && r.value.end <= |data|
  {
    match hd
    case Err(e) => Err(e)
    case Ok(x) =>
      match VarIntAt(data, x.end, x.value)
      case Err(e) => Err(InvalidError(e))
      case Ok(v) => Ok(v)
  }

  /** The `n` raw bytes that follow a header step. */
  function ThenFixed(data: seq<byte>, hd: Result<Parsed<nat>, ReadError>, n: nat): (r: Result<Parsed<nat>, ReadError>)
    requires HeaderStep(data, hd)
    ensures r.Ok? ==> hd.Ok? && r.value.end == hd.value.end + n <= |data|
  {
    match hd
    case Err(e) => Err(e)
    case Ok(x) =>
      match FixedAt(data, x.end, n)
      case Err(e) => Err(InvalidError(e))
      case Ok(v) => Ok(v)
  }

  /** The length-prefixed byte string that follows a header step
      (`read_varint`, then `read_buf`). */
  function ThenBytes(data: seq<byte>, hd: Result<Parsed<nat>, ReadError>): (r: Result<Parsed<seq<byte>>, ReadError>)
    requires HeaderStep(data, hd)
    ensures r.Ok? ==> r.value.end <= |data| && |r.value.value| <= r.value.end
    ensures r.Ok? ==> r.value.value == data[r.value.end - |r.value.value|..r.value.end]
  {
    match ThenVarInt(data, hd)
    case Err(e) => Err(e)
    case Ok(len) =>
      if len.end + len.value > |data| then Err(InvalidError(InvalidBufLength))
      else Ok(Parsed(data[len.end..len.end + len.value], len.end + len.value))
  }

  /** A `u64` field at `pos` (`read_u64`): a `VarInt` field's value; any
      other field is skipped and reported as `WrongMessage`. */
  function U64At(data: seq<byte>, pos: nat): (r: Result<Parsed<u64>, ReadError>)
    requires pos <= |data|
  {
    ThenVarInt(data, ExpectAt(data, pos, VarInt))
  }

  /** An unsigned field of `width` bits (`read_u8`, `read_u16`, `read_u32`,
      `read_u64`): a value that does not fit is `VarIntTooLong`. */
  function UnsignedAt(data: seq<byte>, pos: nat, width: nat): (r: Result<Parsed<nat>, ReadError>)
    requires pos <= |data|
    ensures r.Ok? ==> r.value.value < Pow2(width)
    ensures r.Ok? ==> U64At(data, pos).Ok? && r.value == Parsed(U64At(data, pos).value.value as nat, U64At(data, pos).value.end)
  {
    match U64At(data, pos)
    case Err(e) => Err(e)
    case Ok(v) => if v.value < Pow2(width) then Ok(Parsed(v.value as nat, v.end)) else Err(InvalidError(VarIntTooLong))
  }

  /** A struct field at `pos` (`read_struct`): where its fields start, how
      many there are, and where the struct ends. */
  function StructAt(data: seq<byte>, pos: nat): (r: Result<Parsed<(nat, nat)>, ReadError>)
    requires pos <= |data|
    ensures r.Ok? ==> r.value.value.0 <= |data| && FieldsEnd(data, r.value.value.0, r.value.value.1) == Ok(r.value.end)
    ensures r.Ok? ==> FieldEnd(data, pos) == Ok(r.value.end)
  {
    match ThenVarInt(data, ExpectAt(data, pos, Struct))
    case Err(e) => Err(e)
    case Ok(m) =>
      match FieldsEnd(data, m.end, m.value)
      case Err(e) => Err(InvalidError(e))
      case Ok(end) => Ok(Parsed((m.end, m.value as nat), end))
  }

  /** An enum field at `pos` (`read_enum`): its variant, then the struct of
      its data (any other field there is skipped and reported as
      `WrongMessage(_, Struct)`). */
  function EnumAt(data: seq<byte>, pos: nat): (r: Result<Parsed<(nat, nat, nat)>, ReadError>)
    requires pos <= |data|
    ensures r.Ok? ==> r.value.value.1 <= |data| && FieldsEnd(data, r.value.value.1, r.value.value.2) == Ok(r.value.end)
    ensures r.Ok? ==> FieldEnd(data, pos) == Ok(r.value.end)
  {
    match ThenVarInt(data, ExpectAt(data, pos, Enum))
    case Err(e) => Err(e)
    case Ok(v) =>
      match StructAt(data, v.end)
      case Err(e) => Err(e)
      case Ok(s) => Ok(Parsed((v.value as nat, s.value.0, s.value.1), s.end))
  }

  /** What reading field `field` of width `width` from a struct whose
      `maxFields` fields start at `start` gives (`StructReader::read` and
      `EnumReader::read`): the default 0 past the last field or when the
      field holds another kind of value, and the invalid errors of the
      read. */
  function FieldValue(data: seq<byte>, start: nat, maxFields: nat, field: nat, width: nat): (r: Result<nat, ReadError>)
    requires start <= |data| && FieldsEnd(data, start, maxFields).Ok?
    ensures r.Err? ==> r.error.InvalidError?
    ensures field >= maxFields ==> r == Ok(0)
  {
    if field >= maxFields then Ok(0)
    else
      FieldsSplit(data, start, maxFields, field);
      match UnsignedAt(data, FieldsEnd(data, start, field).value, width)
      case Ok(v) => Ok(v.value)
      case Err(ValidError(_)) => Ok(0)
      case Err(InvalidError(e)) => Err(InvalidError(e))
  }

  // ---------------------------------------------------------------------
  // Every read consumes exactly one field

  /** A varint field read as a `u64` ends where `skip_field` ends. */
  lemma U64FieldEnd(data: seq<byte>, pos: nat)
    requires pos <= |data| && U64At(data, pos).Ok?
    ensures FieldEnd(data, pos) == Ok(U64At(data, pos).value.end)
  {
  }

  /** One field, then the other `n - 1`. */
  lemma FieldsStep(data: seq<byte>, pos: nat, n: nat)
    requires pos <= |data| && n > 0
    ensures FieldsEnd(data, pos, n) ==
      if FieldEnd(data, pos).Ok? then FieldsEnd(data, FieldEnd(data, pos).value, n - 1)
      else Err(FieldEnd(data, pos).error)
  {
  }

  /** The fields after the first `k` of `n` fields are the remaining
      `n - k`. */
  lemma {:induction false} FieldsSplit(data: seq<byte>, pos: nat, n: nat, k: nat)
    requires pos <= |data| && k <= n && FieldsEnd(data, pos, n).Ok?
    ensures FieldsEnd(data, pos, k).Ok?
    ensures FieldsEnd(data, FieldsEnd(data, pos, k).value, n - k) == FieldsEnd(data, pos, n)
    decreases k
  {
    if k > 0 {
      FieldsStep(data, pos, n);
      FieldsStep(data, pos, k);
      FieldsSplit(data, FieldEnd(data, pos).value, n - 1, k - 1);
    }
  }

  /** The first `k + 1` fields are the first `k` and one more. */
  lemma {:induction false} FieldsSnoc(data: seq<byte>, pos: nat, k: nat)
    requires pos <= |data| && FieldsEnd(data, pos, k).Ok?
    ensures FieldsEnd(data, pos, k + 1) == FieldEnd(data, FieldsEnd(data, pos, k).value)
    decreases k
  {
    if k > 0 {
      FieldsStep(data, pos, k);
      FieldsStep(data, pos, k + 1);
      FieldsSnoc(data, FieldEnd(data, pos).value, k - 1);
    }
  }

  /** The fields after the first `k` are the remaining `n - k`, whatever
      becomes of them. */
  lemma {:induction false} FieldsAfter(data: seq<byte>, pos: nat, k: nat, n: nat)
    requires pos <= |data| && k <= n && FieldsEnd(data, pos, k).Ok?
    ensures FieldsEnd(data, FieldsEnd(data, pos, k).value, n - k) == FieldsEnd(data, pos, n)
    decreases k
  {
    if k > 0 {
      FieldsStep(data, pos, n);
      FieldsStep(data, pos, k);
      FieldsAfter(data, FieldEnd(data, pos).value, k - 1, n - 1);
    }
  }

  /** A float or double field read whole ends where `skip_field` ends. */
  lemma FixedFieldEnd(data: seq<byte>, pos: nat)
    requires pos <= |data|
    ensures ThenFixed(data, ExpectAt(data, pos, Float), 4).Ok? ==>
      FieldEnd(data, pos) == Ok(ThenFixed(data, ExpectAt(data, pos, Float), 4).value.end)
    ensures ThenFixed(data, ExpectAt(data, pos, Double), 8).Ok? ==>
      FieldEnd(data, pos) == Ok(ThenFixed(data, ExpectAt(data, pos, Double), 8).value.end)
  {
  }

  /** A byte string read whole ends where `skip_field` ends. */
  lemma BytesFieldEnd(data: seq<byte>, pos: nat)
    requires pos <= |data| && ThenBytes(data, ExpectAt(data, pos, Bytes)).Ok?
    ensures FieldEnd(data, pos) == Ok(ThenBytes(data, ExpectAt(data, pos, Bytes)).value.end)
  {
  }

  /** A `VarInt` field whose extra is below 16 is one byte, its value the
      extra. */
  lemma ShortVarInt(data: seq<byte>, pos: nat)
    requires pos < |data| && data[pos] % 8 == 1 && data[pos] / 8 < 16
    ensures U64At(data, pos) == Ok(Parsed(data[pos] / 8, pos + 1))
  {
    assert HeaderAt(data, pos) == Ok(Parsed((VarInt, data[pos] / 8), pos + 1));
    assert ExpectAt(data, pos, VarInt) == Ok(Parsed(data[pos] / 8, pos + 1));
  }

  /** The first continuation group lands above the 4 bits of the header. */
  lemma OrShift4(low: nat, v: nat)
    requires low < 16 && v < 128
    ensures Or64(low, Shl(v, 4)) == low + 16 * v
  {
    assert Pow2(4) == 16;
    ShlSmall(v, 4);
    ShlWideMul(v, 4);
    OrBelow(low, v, 4);
  }

  /** A `VarInt` field whose extra has bit 0x10 set, followed by one byte
      below 0x80, is two bytes: the low 4 bits of the extra, then the byte
      shifted up by 4. */
  lemma TwoByteVarInt(data: seq<byte>, pos: nat)
    requires pos + 1 < |data| && data[pos] % 8 == 1 && data[pos] / 8 >= 16 && data[pos + 1] < 128
    ensures U64At(data, pos) == Ok(Parsed((data[pos] as nat) / 8 % 16 + 16 * (data[pos + 1] as nat), pos + 2))
  {
    var extra: nat := data[pos] / 8;
    assert HeaderAt(data, pos) == Ok(Parsed((VarInt, extra), pos + 1));
    assert ExpectAt(data, pos, VarInt) == Ok(Parsed(extra, pos + 1));
    var v: nat := data[pos + 1];
    assert v % 128 == v;
    OrShift4(extra % 16, v);
    var value := extra % 16 + 16 * v;
    assert Continuation(data, pos + 1, 0, extra % 16) == Ok(Parsed(value, pos + 2));
  }

  /** The message of the source's `varints` test: one-byte varints 0, 1 and
      15, then 16 and 255 with one continuation byte each, then the end of
      the message. */
  lemma VarIntTestVectors()
    ensures var msg: seq<byte> := [1, 9, 121, 129, 1, 249, 15];
      U64At(msg, 0) == Ok(Parsed(0, 1)) && U64At(msg, 1) == Ok(Parsed(1, 2)) &&
      U64At(msg, 2) == Ok(Parsed(15, 3)) && U64At(msg, 3) == Ok(Parsed(16, 5)) &&
      U64At(msg, 5) == Ok(Parsed(255, 7)) && UnsignedAt(msg, 7, 32) == Err(InvalidError(EOF))
  {
    var msg: seq<byte> := [1, 9, 121, 129, 1, 249, 15];
    ShortVarInt(msg, 0);
    ShortVarInt(msg, 1);
    ShortVarInt(msg, 2);
    assert msg[3] == 129 && msg[4] == 1 && msg[5] == 249 && msg[6] == 15;
    assert 129 / 8 == 16 && 249 / 8 == 31;
    TwoByteVarInt(msg, 3);
    TwoByteVarInt(msg, 5);
    assert HeaderAt(msg, 7) == Err(EOF);
  }
}
