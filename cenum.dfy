/** Two helpers of the `cenum` attribute macro
    (`bb_ffi_macros/src/cenum.rs`): turning a CamelCase variant name into
    snake_case, and deciding whether a field type is plain copyable data.
    Characters are classified as ASCII, as the source does. */
module CEnum {
  import opened Wrappers

  predicate IsUpper(c: char)
  {
    'A' <= c <= 'Z'
  }

  function ToAsciiLower(c: char): char
  {
    if IsUpper(c) then (c as int + 32) as char else c
  }

  function ToAsciiUpper(c: char): char
  {
    if 'a' <= c <= 'z' then (c as int - 32) as char else c
  }

  /** What one input character becomes: an uppercase letter turns into its
      lowercase form, preceded by `_` unless nothing has been written yet;
      any other character is copied. */
  function Piece(c: char, atStart: bool): string
  {
    if IsUpper(c) then (if atStart then [] else ['_']) + [ToAsciiLower(c)] else [c]
  }

  /** The number of uppercase characters of `s`. */
  function Uppers(s: string): nat
  {
    if s == [] then 0 else (if IsUpper(s[0]) then 1 else 0) + Uppers(s[1..])
  }

  /** The snake_case form of `s`, `atStart` telling whether nothing has
      been written before it. It holds no uppercase character and is one
      character longer than `s` for every uppercase character that does
      not open the output. */
  function Lowered(s: string, atStart: bool): (r: string)
    ensures forall i :: 0 <= i < |r| ==> !IsUpper(r[i])
    ensures |r| == |s| + Uppers(s) - (if atStart && s != [] && IsUpper(s[0]) then 1 else 0)
  {
    if s == [] then [] else Piece(s[0], atStart) + Lowered(s[1..], false)
  }

  /** Appending one character appends its piece. */
  lemma {:induction false} LoweredSnoc(s: string, c: char, atStart: bool)
    ensures Lowered(s + [c], atStart) == Lowered(s, atStart) + Piece(c, atStart && s == [])
    decreases |s|
  {
    if s == [] {
      assert [c][1..] == [];
    } else {
      assert (s + [c])[0] == s[0];
      assert (s + [c])[1..] == s[1..] + [c];
      LoweredSnoc(s[1..], c, false);
    }
  }

  /** `to_lower`: build the output character by character. */
  method ToLower(s: string) returns (out: string)
    ensures out == Lowered(s, true)
  {
    out := [];
    var i := 0;
    while i < |s|
      invariant 0 <= i <= |s|
      invariant out == Lowered(s[..i], true)
      invariant out == [] <==> i == 0
    {
      var c := s[i];
      assert s[..i + 1] == s[..i] + [c];
      LoweredSnoc(s[..i], c, true);
      if IsUpper(c) {
        if out != [] {
          out := out + ['_'];
        }
        out := out + [ToAsciiLower(c)];
      } else {
        out := out + [c];
      }
      i := i + 1;
    }
    assert s[..i] == s;
  }

  /** Reading snake_case back: every `_` and the letter after it become
      that letter in uppercase. */
  function Camel(t: string): string
  {
    if t == [] then []
    else if t[0] == '_' && |t| >= 2 then [ToAsciiUpper(t[1])] + Camel(t[2..])
    else [t[0]] + Camel(t[1..])
  }

  /** A name without underscores comes back from its snake_case form,
      except that a leading uppercase letter comes back in lowercase. */
  lemma {:induction false} CamelLowered(s: string, atStart: bool)
    requires forall i :: 0 <= i < |s| ==> s[i] != '_'
    ensures Camel(Lowered(s, atStart)) ==
      if atStart && s != [] && IsUpper(s[0]) then [ToAsciiLower(s[0])] + s[1..] else s
  {
    if s != [] {
      var rest := Lowered(s[1..], false);
      CamelLowered(s[1..], false);
      var c := s[0];
      if IsUpper(c) && !atStart {
        assert Lowered(s, atStart) == ['_', ToAsciiLower(c)] + rest;
        assert (['_', ToAsciiLower(c)] + rest)[2..] == rest;
      } else if IsUpper(c) {
        assert Lowered(s, atStart) == [ToAsciiLower(c)] + rest;
        assert ([ToAsciiLower(c)] + rest)[1..] == rest;
      } else {
        assert Lowered(s, atStart) == [c] + rest;
        assert ([c] + rest)[1..] == rest;
      }
      assert s == [c] + s[1..];
    }
  }

  // -------------------------------------------------------------------------
  // is_copy
  // -------------------------------------------------------------------------

  datatype Segment = Segment(ident: string, hasArguments: bool)

  /** The field types the macro meets: a path, a tuple, or any other form
      of type (a reference, an array, ...). */
  datatype FieldType =
    | PathType(leadingColon: bool, segments: seq<Segment>)
    | Tuple(elems: seq<FieldType>)
    | OtherType

  /** The identifiers that name plain copyable data. */
  const CopyIdents: set<string> :=
    {"u8", "i8", "u16", "i16", "u32", "i32", "u64", "i64", "f32", "f64", "CBool", "CPos"}

  /** `Path::get_ident`: the identifier of a path that is one bare
      identifier, with no leading `::` and no generic arguments. */
  function GetIdent(leadingColon: bool, segments: seq<Segment>): (r: Option<string>)
    ensures r.Some? <==> !leadingColon && |segments| == 1 && !segments[0].hasArguments
    ensures r.Some? ==> r.value == segments[0].ident
  {
    if !leadingColon && |segments| == 1 && !segments[0].hasArguments then Some(segments[0].ident) else None
  }

  /** `is_copy`: `None` stands for the panic on a type form the macro does
      not handle. A tuple asks its elements in order and stops at the
      first copyable one, as `Iterator::any` does. */
  function IsCopy(t: FieldType): Option<bool>
    decreases t, 1
  {
    match t
    case PathType(colon, segments) =>
      (match GetIdent(colon, segments)
       case Some(ident) => Some(ident in CopyIdents)
       case None => Some(false))
    case Tuple(elems) => AnyCopy(elems)
    case OtherType => None
  }

  function AnyCopy(elems: seq<FieldType>): Option<bool>
    decreases elems, 0
  {
    if elems == [] then Some(false)
    else
      match IsCopy(elems[0])
      case None => None
      case Some(true) => Some(true)
      case Some(false) => AnyCopy(elems[1..])
  }

  /** A path is copyable exactly when it is one of the listed identifiers
      on its own; a path never panics. */
  lemma IsCopyPath(colon: bool, segments: seq<Segment>)
    ensures IsCopy(PathType(colon, segments)).Some?
    ensures IsCopy(PathType(colon, segments)) == Some(true) <==>
      !colon && |segments| == 1 && !segments[0].hasArguments && segments[0].ident in CopyIdents
  {
  }

  /** A tuple whose elements are all handled is copyable exactly when some
      element is. */
  lemma {:induction false} AnyCopyExists(elems: seq<FieldType>)
    requires forall i :: 0 <= i < |elems| ==> IsCopy(elems[i]).Some?
    ensures AnyCopy(elems) == Some(exists i :: 0 <= i < |elems| && IsCopy(elems[i]) == Some(true))
  {
    if elems != [] {
      AnyCopyExists(elems[1..]);
      if IsCopy(elems[0]) == Some(false) {
        assert forall i :: 1 <= i < |elems| ==> IsCopy(elems[i]) == IsCopy(elems[1..][i - 1]);
        if exists i :: 0 <= i < |elems| && IsCopy(elems[i]) == Some(true) {
          var i :| 0 <= i < |elems| && IsCopy(elems[i]) == Some(true);
          assert IsCopy(elems[1..][i - 1]) == Some(true);
        }
      }
    }
  }

  /** A tuple panics only at an element it reaches: an unhandled element
      after a copyable one is never asked about. */
  lemma AnyCopyStops(elems: seq<FieldType>)
    requires |elems| >= 2 && IsCopy(elems[0]) == Some(true) && elems[1] == OtherType
    ensures IsCopy(Tuple(elems)) == Some(true)
    ensures IsCopy(Tuple(elems[1..])) == None
  {
    var tail := elems[1..];
    assert tail != [] && tail[0] == OtherType;
    assert IsCopy(tail[0]) == None;
    assert AnyCopy(tail) == None;
  }
}
