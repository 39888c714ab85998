/** The packet description the data generator reads
    (`sc_data/src/protocol/mod.rs`): packets with typed fields and reader
    and writer instruction lists in a small Rust-like language, and the
    helpers the code generator uses on them. Names are strings; 32-bit
    integers are `int`s kept in range by `IsI32`; float literals keep
    their bit pattern only. */
module Protocol {
  import opened Wrappers

  predicate IsI32(v: int)
  {
    -0x8000_0000 <= v < 0x8000_0000
  }

  /** A Java field type. `Void` appears only as a return type. */
  datatype Type =
    | Void
    | Byte
    | Char
    | Double
    | Float
    | Int
    | Long
    | Short
    | Bool
    | Class(name: string)
    | Array(elem: Type)

  /** A literal; a float keeps its 32-bit pattern. */
  datatype Lit = IntLit(i: int) | FloatLit(bits: nat) | StringLit(s: string)

  datatype Var = This | Buf | Local(index: nat)

  datatype Value =
    | Null
    | Literal(lit: Lit)
    | VarRef(v: Var)
    | FieldRef(field: string)
    | Static(owner: string, name: string)
    | ArrayOf(len: Expr)
    | CallStatic(owner: string, name: string, args: seq<Expr>)
    | MethodRef(owner: string, name: string)
    | Closure(args: seq<Expr>, body: seq<Instr>)
    | NewObj(owner: string, args: seq<Expr>)

  datatype Instr =
    | Super
    | Set(field: string, value: Expr)
    | SetArr(arr: Expr, index: Value, value: Expr)
    | Let(local: nat, value: Expr)
    | IfInstr(cond: Cond, then_: seq<Instr>, else_: seq<Instr>)
    | For(v: Var, range: Range, body: seq<Instr>)
    | Switch(on: Expr, arms: seq<(int, seq<Instr>)>)
    | CheckStrLen(s: Expr, len: Value)
    | ExprInstr(e: Expr)
    | Return(e: Expr)

  datatype Range = Range(min: Expr, max: Expr)

  /** An initial value and the operators applied to it in order. */
  datatype Expr = Expr(initial: Value, ops: seq<Op>)

  datatype Cond =
    | Eq(l: Expr, r: Expr)
    | Neq(l: Expr, r: Expr)
    | Less(l: Expr, r: Expr)
    | Greater(l: Expr, r: Expr)
    | Lte(l: Expr, r: Expr)
    | Gte(l: Expr, r: Expr)
    | Or(a: Cond, b: Cond)

  datatype Op =
    | BitAnd(e: Expr)
    | Shr(e: Expr)
    | UShr(e: Expr)
    | Shl(e: Expr)
    | Add(e: Expr)
    | Div(e: Expr)
    | Len
    | Idx(e: Expr)
    | FieldOf(name: string)
    | IfOp(cond: Cond, e: Expr)
    | Call(owner: string, name: string, args: seq<Expr>)
    | Cast(ty: Type)

  datatype RType = RType(name: string, generics: seq<RType>)

  datatype Field = Field(name: string, ty: Type, readerType: Option<RType>, option: bool, initialized: bool)

  datatype Packet = Packet(superclass: string, name: string, fields: seq<Field>, reader: seq<Instr>, writer: seq<Instr>)

  // -------------------------------------------------------------------------
  // Packet::get_field / get_field_mut
  // -------------------------------------------------------------------------

  /** `Packet::get_field`: the first field named `name`, if any. */
  function GetField(fields: seq<Field>, name: string): (r: Option<Field>)
    ensures r.None? <==> forall i :: 0 <= i < |fields| ==> fields[i].name != name
    ensures r.Some? ==> r.value in fields && r.value.name == name
  {
    if fields == [] then None
    else if fields[0].name == name then Some(fields[0])
    else GetField(fields[1..], name)
  }

  /** `Packet::get_field_mut`: the same search, handing out the field's
      slot (its index) so that the caller can change it in place. The slot
      holds the field `get_field` finds, and no earlier field has the name. */
  method GetFieldMut(p: Packet, name: string) returns (r: Option<nat>)
    ensures r.Some? ==> r.value < |p.fields| && p.fields[r.value].name == name
    ensures r.Some? ==> forall j :: 0 <= j < r.value ==> p.fields[j].name != name
    ensures r.None? <==> GetField(p.fields, name).None?
    ensures r.Some? ==> GetField(p.fields, name) == Some(p.fields[r.value])
  {
    for i := 0 to |p.fields|
      invariant forall j :: 0 <= j < i ==> p.fields[j].name != name
      invariant GetField(p.fields, name) == GetField(p.fields[i..], name)
    {
      assert p.fields[i..][1..] == p.fields[i + 1..];
      if p.fields[i].name == name {
        return Some(i);
      }
    }
    return None;
  }

  /** `get_field` finds the first match: every field before the one it
      returns has another name. */
  lemma {:induction false} GetFieldFirst(fields: seq<Field>, name: string, i: nat)
    requires i < |fields| && fields[i].name == name
    ensures GetField(fields, name).Some?
    ensures (forall j :: 0 <= j < i ==> fields[j].name != name) ==> GetField(fields, name) == Some(fields[i])
  {
    if i > 0 && fields[0].name != name {
      GetFieldFirst(fields[1..], name, i - 1);
      assert forall j :: 0 <= j < i - 1 ==> fields[1..][j] == fields[j + 1];
    }
  }

  // -------------------------------------------------------------------------
  // Op::precedence
  // -------------------------------------------------------------------------

  /** `Op::precedence`: how tightly an operator binds when the generated
      code writes it. The binary arithmetic operators rank from 2 (add) to
      5 (bitwise and), a cast ranks 1, every postfix form 0. */
  function Precedence(op: Op): (r: int)
    ensures 0 <= r <= 5
    ensures r >= 2 <==> op.BitAnd? || op.Shr? || op.UShr? || op.Shl? || op.Div? || op.Add?
    ensures r == 1 <==> op.Cast?
  {
    match op
    case BitAnd(_) => 5
    case Shr(_) => 4
    case UShr(_) => 4
    case Shl(_) => 4
    case Div(_) => 3
    case Add(_) => 2
    case Cast(_) => 1
    case Len => 0
    case Idx(_) => 0
    case FieldOf(_) => 0
    case IfOp(_, _) => 0
    case Call(_, _, _) => 0
  }

  /** The ranking of the binary operators: and above the three shifts,
      which share a level, above divide, above add. */
  lemma PrecedenceOrder(a: Expr, b: Expr)
    ensures Precedence(BitAnd(a)) > Precedence(Shr(b)) > Precedence(Div(a)) > Precedence(Add(b)) > Precedence(Cast(Int))
    ensures Precedence(Shr(a)) == Precedence(UShr(b)) == Precedence(Shl(a))
  {
  }

  // -------------------------------------------------------------------------
  // Expr::new / Expr::op
  // -------------------------------------------------------------------------

  /** `Expr::new`: the value with no operators yet. */
  function NewExpr(initial: Value): (r: Expr)
    ensures r.initial == initial && |r.ops| == 0
  {
    Expr(initial, [])
  }

  /** `Expr::op`: the expression with `op` applied last; the value and the
      operators before it stay as they were. */
  function AddOp(e: Expr, op: Op): (r: Expr)
    ensures r.initial == e.initial && |r.ops| == |e.ops| + 1
    ensures r.ops[..|e.ops|] == e.ops && r.ops[|e.ops|] == op
  {
    e.(ops := e.ops + [op])
  }

  /** Starting from `new(initial)` and applying `op` for each operator in
      turn. */
  function Build(initial: Value, ops: seq<Op>): Expr
  {
    if ops == [] then NewExpr(initial) else AddOp(Build(initial, ops[..|ops| - 1]), ops[|ops| - 1])
  }

  /** Every expression is built by `new` followed by one `op` per
      operator, in order. */
  lemma {:induction false} BuildExpr(initial: Value, ops: seq<Op>)
    ensures Build(initial, ops) == Expr(initial, ops)
  {
    if ops != [] {
      BuildExpr(initial, ops[..|ops| - 1]);
      assert ops[..|ops| - 1] + [ops[|ops| - 1]] == ops;
    }
  }

  // -------------------------------------------------------------------------
  // Type::to_rust
  // -------------------------------------------------------------------------

  /** The types `to_rust` accepts: `Void` is unreachable there, also as an
      array element. */
  predicate NoVoid(t: Type)
  {
    match t
    case Void => false
    case Array(e) => NoVoid(e)
    case _ => true
  }

  /** A type without class names: the part of `to_rust` that does not call
      into the class-name conversion. */
  predicate Primitive(t: Type)
  {
    match t
    case Void => false
    case Class(_) => false
    case Array(e) => Primitive(e)
    case _ => true
  }

  /** `Type::to_rust`: fixed names for the primitives, `Vec<..>` around an
      array's element type; a class name goes to `classOf(field, name)`,
      the conversion of the code generator's `convert` module. The name of
      a class-free type reads back as that type, whatever the class
      conversion, so distinct primitive types get distinct Rust names. */
  function ToRust(t: Type, field: string, classOf: (string, string) -> string): (r: string)
    requires NoVoid(t)
    ensures Primitive(t) ==> FromRust(r) == Some(t)
  {
    match t
    case Bool => "bool"
    case Byte => "u8"
    case Short => "i16"
    case Int => "i32"
    case Long => "i64"
    case Float => "f32"
    case Double => "f64"
    case Char => "char"
    case Class(name) => classOf(field, name)
    case Array(e) =>
      var inner := ToRust(e, field, classOf);
      var s := "Vec<" + inner + ">";
      assert s[..4] == "Vec<" && s[4..|s| - 1] == inner;
      s
  }

  /** Reading a Rust type name back into a primitive Java type. */
  function FromRust(s: string): Option<Type>
    decreases |s|
  {
    if s == "bool" then Some(Bool)
    else if s == "u8" then Some(Byte)
    else if s == "i16" then Some(Short)
    else if s == "i32" then Some(Int)
    else if s == "i64" then Some(Long)
    else if s == "f32" then Some(Float)
    else if s == "f64" then Some(Double)
    else if s == "char" then Some(Char)
    else if |s| >= 5 && s[..4] == "Vec<" && s[|s| - 1] == '>' then
      match FromRust(s[4..|s| - 1])
      case Some(e) => Some(Array(e))
      case None => None
    else None
  }

  // -------------------------------------------------------------------------
  // From<i32> for Lit
  // -------------------------------------------------------------------------

  /** `Lit::from(i32)`: an integer literal holding the value. */
  function LitFrom(v: int): (r: Lit)
    requires IsI32(v)
    ensures r.IntLit? && r.i == v
  {
    IntLit(v)
  }
}
