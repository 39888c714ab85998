/** Serializing the command tree for the `DeclareCommands` packet: the tree
    is flattened children-first into a list of nodes that refer to each other
    by index, and every node is written as a flag byte, its child indices and,
    for named nodes, its name and argument parser. Buffer writes are kept as a
    sequence of typed tokens. */
module CommandSerialize {
  import opened Wrappers

  /** The bit pattern of a floating-point bound; never interpreted. */
  datatype FloatBits = FloatBits(bits: nat)

  datatype StringType = Word | Quotable | Greedy

  /** The argument parsers that carry no data. */
  datatype PlainParser =
    | Bool | GameProfile | BlockPos | ColumnPos | Vec3 | Vec2 | BlockState | BlockPredicate
    | ItemStack | ItemPredicate | Color | Component | Message | Nbt | NbtPath
    | Objective | ObjectiveCriteria | Operation | Particle | Rotation | Angle
    | ScoreboardSlot | Swizzle | Team | ItemSlot | ResourceLocation | MobEffect
    | Function | EntityAnchor
    | IntRange | FloatRange | ItemEnchantment | EntitySummon | Dimension | Uuid
    | NbtTag | NbtCompoundTag | Time | Modid | Enum

  /** The argument parsers a client knows; the ones without data are
      grouped under `Plain`. */
  datatype Parser =
    | Double(dmin: Option<FloatBits>, dmax: Option<FloatBits>)
    | Float(fmin: Option<FloatBits>, fmax: Option<FloatBits>)
    | Int(imin: Option<int>, imax: Option<int>)
    | String(ty: StringType)
    | Entity(single: bool, players: bool)
    | ScoreHolder(multiple: bool)
    | Range(decimals: bool)
    | Plain(kind: PlainParser)

  datatype NodeType = Root | Literal | Argument(parser: Parser)

  /** A command and its sub-commands. */
  datatype Command = Command(name: string, ty: NodeType, children: seq<Command>)

  /** A flattened node: its children are indices into the node list. */
  datatype IndexNode = IndexNode(name: string, ty: NodeType, children: seq<nat>)

  /** One write to the packet buffer. */
  datatype Token =
    | U8(b: bv8)
    | VarInt(v: int)
    | Str(s: string)
    | I32(i: int)
    | F32(f: FloatBits)
    | F64(d: FloatBits)
    | BoolToken(flag: bool)

  // -------------------------------------------------------------------------
  // Flags and parser data

  /** `NodeType::mask`: the node-type bits of the flag byte. */
  function Mask(ty: NodeType): (r: bv8)
    ensures r & 0xFC == 0
  {
    match ty
    case Root => 0x00
    case Literal => 0x01
    case Argument(_) => 0x02
  }

  /** The node type a flag byte announces; `None` for other bits. */
  function TypeOfMask(b: bv8): (r: Option<int>)
  {
    if b == 0x00 then Some(0) else if b == 0x01 then Some(1) else if b == 0x02 then Some(2) else None
  }

  /** The mask tells the three node types apart. */
  lemma MaskDistinguishes(a: NodeType, b: NodeType)
    ensures Mask(a) == Mask(b) <==> (a.Root? && b.Root?) || (a.Literal? && b.Literal?) || (a.Argument? && b.Argument?)
  {
  }

  /** A parser with its data left out: what `Parser::name` tells apart. */
  datatype ParserKind =
    | DoubleKind | FloatKind | IntKind | StringKind | EntityKind | ScoreHolderKind | RangeKind
    | PlainKind(plain: PlainParser)

  function Kind(p: Parser): ParserKind
  {
    match p
    case Double(_, _) => DoubleKind
    case Float(_, _) => FloatKind
    case Int(_, _) => IntKind
    case String(_) => StringKind
    case Entity(_, _) => EntityKind
    case ScoreHolder(_) => ScoreHolderKind
    case Range(_) => RangeKind
    case Plain(k) => PlainKind(k)
  }

  /** The client's side of `Parser::name`: the parser a name stands for,
      looked up among the names of the same length and the same last two
      characters. */
  function ParserNamed(s: string): Option<ParserKind>
  {
    if |s| == 10 then
      if s[8] == 'u' && s[9] == 'm' then
        if s == "forge:enum" then Some(PlainKind(Enum))
        else None
      else None
    else if |s| == 11 then
      if s[9] == 'i' && s[10] == 'd' then
        if s == "forge:modid" then Some(PlainKind(Modid))
        else None
      else None
    else if |s| == 13 then
      if s[11] == 'b' && s[12] == 't' then
        if s == "minecraft:nbt" then Some(PlainKind(Nbt))
        else None
      else if s[11] == 'n' && s[12] == 't' then
        if s == "brigadier:int" then Some(IntKind)
        else None
      else None
    else if |s| == 14 then
      if s[12] == 'a' && s[13] == 'm' then
        if s == "minecraft:team" then Some(PlainKind(Team))
        else None
      else if s[12] == 'c' && s[13] == '2' then
        if s == "minecraft:vec2" then Some(PlainKind(Vec2))
        else None
      else if s[12] == 'c' && s[13] == '3' then
        if s == "minecraft:vec3" then Some(PlainKind(Vec3))
        else None
      else if s[12] == 'i' && s[13] == 'd' then
        if s == "minecraft:uuid" then Some(PlainKind(Uuid))
        else None
      else if s[12] == 'm' && s[13] == 'e' then
        if s == "minecraft:time" then Some(PlainKind(Time))
        else None
      else if s[12] == 'o' && s[13] == 'l' then
        if s == "brigadier:bool" then Some(PlainKind(Bool))
        else None
      else None
    else if |s| == 15 then
      if s[13] == 'a' && s[14] == 't' then
        if s == "brigadier:float" then Some(FloatKind)
        else None
      else if s[13] == 'g' && s[14] == 'e' then
        if s == "minecraft:range" then Some(RangeKind)
        else None
      else if s[13] == 'l' && s[14] == 'e' then
        if s == "minecraft:angle" then Some(PlainKind(Angle))
        else None
      else if s[13] == 'o' && s[14] == 'r' then
        if s == "minecraft:color" then Some(PlainKind(Color))
        else None
      else None
    else if |s| == 16 then
      if s[14] == 'l' && s[15] == 'e' then
        if s == "brigadier:double" then Some(DoubleKind)
        else None
      else if s[14] == 'n' && s[15] == 'g' then
        if s == "brigadier:string" then Some(StringKind)
        else None
      else if s[14] == 't' && s[15] == 'y' then
        if s == "minecraft:entity" then Some(EntityKind)
        else None
      else None
    else if |s| == 17 then
      if s[15] == 'a' && s[16] == 'g' then
        if s == "minecraft:nbt_tag" then Some(PlainKind(NbtTag))
        else None
      else if s[15] == 'g' && s[16] == 'e' then
        if s == "minecraft:message" then Some(PlainKind(Message))
        else None
      else if s[15] == 'l' && s[16] == 'e' then
        if s == "minecraft:swizzle" then Some(PlainKind(Swizzle))
        else None
      else None
    else if |s| == 18 then
      if s[16] == 'l' && s[17] == 'e' then
        if s == "minecraft:particle" then Some(PlainKind(Particle))
        else None
      else if s[16] == 'o' && s[17] == 'n' then
        if s == "minecraft:rotation" then Some(PlainKind(Rotation))
        else if s == "minecraft:function" then Some(PlainKind(Function))
        else None
      else if s[16] == 't' && s[17] == 'h' then
        if s == "minecraft:nbt_path" then Some(PlainKind(NbtPath))
        else None
      else None
    else if |s| == 19 then
      if s[17] == 'g' && s[18] == 'e' then
        if s == "minecraft:int_range" then Some(PlainKind(IntRange))
        else None
      else if s[17] == 'n' && s[18] == 't' then
        if s == "minecraft:component" then Some(PlainKind(Component))
        else None
      else if s[17] == 'o' && s[18] == 'n' then
        if s == "minecraft:operation" then Some(PlainKind(Operation))
        else if s == "minecraft:dimension" then Some(PlainKind(Dimension))
        else None
      else if s[17] == 'o' && s[18] == 's' then
        if s == "minecraft:block_pos" then Some(PlainKind(BlockPos))
        else None
      else if s[17] == 'o' && s[18] == 't' then
        if s == "minecraft:item_slot" then Some(PlainKind(ItemSlot))
        else None
      else if s[17] == 'v' && s[18] == 'e' then
        if s == "minecraft:objective" then Some(PlainKind(Objective))
        else None
      else None
    else if |s| == 20 then
      if s[18] == 'c' && s[19] == 'k' then
        if s == "minecraft:item_stack" then Some(PlainKind(ItemStack))
        else None
      else if s[18] == 'c' && s[19] == 't' then
        if s == "minecraft:mob_effect" then Some(PlainKind(MobEffect))
        else None
      else if s[18] == 'o' && s[19] == 's' then
        if s == "minecraft:column_pos" then Some(PlainKind(ColumnPos))
        else None
      else None
    else if |s| == 21 then
      if s[19] == 'g' && s[20] == 'e' then
        if s == "minecraft:float_range" then Some(PlainKind(FloatRange))
        else None
      else if s[19] == 't' && s[20] == 'e' then
        if s == "minecraft:block_state" then Some(PlainKind(BlockState))
        else None
      else None
    else if |s| == 22 then
      if s[20] == 'e' && s[21] == 'r' then
        if s == "minecraft:score_holder" then Some(ScoreHolderKind)
        else None
      else if s[20] == 'l' && s[21] == 'e' then
        if s == "minecraft:game_profile" then Some(PlainKind(GameProfile))
        else None
      else None
    else if |s| == 23 then
      if s[21] == 'o' && s[22] == 'n' then
        if s == "minecraft:entity_summon" then Some(PlainKind(EntitySummon))
        else None
      else if s[21] == 'o' && s[22] == 'r' then
        if s == "minecraft:entity_anchor" then Some(PlainKind(EntityAnchor))
        else None
      else None
    else if |s| == 24 then
      if s[22] == 't' && s[23] == 'e' then
        if s == "minecraft:item_predicate" then Some(PlainKind(ItemPredicate))
        else None
      else None
    else if |s| == 25 then
      if s[23] == 'o' && s[24] == 't' then
        if s == "minecraft:scoreboard_slot" then Some(PlainKind(ScoreboardSlot))
        else None
      else if s[23] == 't' && s[24] == 'e' then
        if s == "minecraft:block_predicate" then Some(PlainKind(BlockPredicate))
        else None
      else None
    else if |s| == 26 then
      if s[24] == 'a' && s[25] == 'g' then
        if s == "minecraft:nbt_compound_tag" then Some(PlainKind(NbtCompoundTag))
        else None
      else if s[24] == 'n' && s[25] == 't' then
        if s == "minecraft:item_enchantment" then Some(PlainKind(ItemEnchantment))
        else None
      else None
    else if |s| == 27 then
      if s[25] == 'o' && s[26] == 'n' then
        if s == "minecraft:resource_location" then Some(PlainKind(ResourceLocation))
        else None
      else None
    else if |s| == 28 then
      if s[26] == 'i' && s[27] == 'a' then
        if s == "minecraft:objective_criteria" then Some(PlainKind(ObjectiveCriteria))
        else None
      else None
    else None
  }

  /** `Parser::name`: the identifier the client knows the parser by. No
      two kinds of parser share a name, so the client can tell which
      parser, and so which data layout, follows. */
  function Name(p: Parser): (r: string)
    ensures ParserNamed(r) == Some(Kind(p))
  {
    match p
    case Double(_, _) => "brigadier:double"
    case Float(_, _) => "brigadier:float"
    case Int(_, _) => "brigadier:int"
    case String(_) => "brigadier:string"
    case Entity(_, _) => "minecraft:entity"
    case ScoreHolder(_) => "minecraft:score_holder"
    case Range(_) => "minecraft:range"
    case Plain(kind) => PlainNamed(kind); PlainName(kind)
  }

  /** The name of a parser without data is looked up as that parser. */
  lemma PlainNamed(k: PlainParser)
    ensures ParserNamed(PlainName(k)) == Some(PlainKind(k))
  {
    if k.Bool? || k.GameProfile? || k.BlockPos? || k.ColumnPos? || k.Vec3? || k.Vec2? ||
       k.BlockState? || k.BlockPredicate? || k.ItemStack? || k.ItemPredicate? {
      PlainNamedInFirst(k);
    } else if k.Color? || k.Component? || k.Message? || k.Nbt? || k.NbtPath? || k.Objective? ||
              k.ObjectiveCriteria? || k.Operation? || k.Particle? || k.Rotation? {
      PlainNamedInSecond(k);
    } else if k.Angle? || k.ScoreboardSlot? || k.Swizzle? || k.Team? || k.ItemSlot? ||
              k.ResourceLocation? || k.MobEffect? || k.Function? || k.EntityAnchor? ||
              k.IntRange? {
      PlainNamedInThird(k);
    } else {
      PlainNamedInFourth(k);
    }
  }

  /** `PlainNamed` for the parsers named in `PlainNamesFirst`. */
  lemma PlainNamedInFirst(k: PlainParser)
    requires k.Bool? || k.GameProfile? || k.BlockPos? || k.ColumnPos? || k.Vec3? || k.Vec2? ||
             k.BlockState? || k.BlockPredicate? || k.ItemStack? || k.ItemPredicate?
    ensures ParserNamed(PlainName(k)) == Some(PlainKind(k))
  {
    PlainNamesFirst();
    match k {
      case Bool =>
      case GameProfile =>
      case BlockPos =>
      case ColumnPos =>
      case Vec3 =>
      case Vec2 =>
      case BlockState =>
      case BlockPredicate =>
      case ItemStack =>
      case ItemPredicate =>
      case _ =>
    }
  }

  /** `PlainNamed` for the parsers named in `PlainNamesSecond`. */
  lemma PlainNamedInSecond(k: PlainParser)
    requires k.Color? || k.Component? || k.Message? || k.Nbt? || k.NbtPath? || k.Objective? ||
             k.ObjectiveCriteria? || k.Operation? || k.Particle? || k.Rotation?
    ensures ParserNamed(PlainName(k)) == Some(PlainKind(k))
  {
    PlainNamesSecond();
    match k {
      case Color =>
      case Component =>
      case Message =>
      case Nbt =>
      case NbtPath =>
      case Objective =>
      case ObjectiveCriteria =>
      case Operation =>
      case Particle =>
      case Rotation =>
      case _ =>
    }
  }

  /** `PlainNamed` for the parsers named in `PlainNamesThird`. */
  lemma PlainNamedInThird(k: PlainParser)
    requires k.Angle? || k.ScoreboardSlot? || k.Swizzle? || k.Team? || k.ItemSlot? ||
             k.ResourceLocation? || k.MobEffect? || k.Function? || k.EntityAnchor? ||
             k.IntRange?
    ensures ParserNamed(PlainName(k)) == Some(PlainKind(k))
  {
    PlainNamesThird();
    match k {
      case Angle =>
      case ScoreboardSlot =>
      case Swizzle =>
      case Team =>
      case ItemSlot =>
      case ResourceLocation =>
      case MobEffect =>
      case Function =>
      case EntityAnchor =>
      case IntRange =>
      case _ =>
    }
  }

  /** `PlainNamed` for the parsers named in `PlainNamesFourth`. */
  lemma PlainNamedInFourth(k: PlainParser)
    requires k.FloatRange? || k.ItemEnchantment? || k.EntitySummon? || k.Dimension? ||
             k.Uuid? || k.NbtTag? || k.NbtCompoundTag? || k.Time? || k.Modid? || k.Enum?
    ensures ParserNamed(PlainName(k)) == Some(PlainKind(k))
  {
    PlainNamesFourth();
    match k {
      case FloatRange =>
      case ItemEnchantment =>
      case EntitySummon =>
      case Dimension =>
      case Uuid =>
      case NbtTag =>
      case NbtCompoundTag =>
      case Time =>
      case Modid =>
      case Enum =>
      case _ =>
    }
  }

  /** The lookup of the first 10 names of `PlainName`. */
  lemma PlainNamesFirst()
    ensures ParserNamed("brigadier:bool") == Some(PlainKind(Bool))
    ensures ParserNamed("minecraft:game_profile") == Some(PlainKind(GameProfile))
    ensures ParserNamed("minecraft:block_pos") == Some(PlainKind(BlockPos))
    ensures ParserNamed("minecraft:column_pos") == Some(PlainKind(ColumnPos))
    ensures ParserNamed("minecraft:vec3") == Some(PlainKind(Vec3))
    ensures ParserNamed("minecraft:vec2") == Some(PlainKind(Vec2))
    ensures ParserNamed("minecraft:block_state") == Some(PlainKind(BlockState))
    ensures ParserNamed("minecraft:block_predicate") == Some(PlainKind(BlockPredicate))
    ensures ParserNamed("minecraft:item_stack") == Some(PlainKind(ItemStack))
    ensures ParserNamed("minecraft:item_predicate") == Some(PlainKind(ItemPredicate))
  {
  }

  /** The lookup of the next 10 names of `PlainName`. */
  lemma PlainNamesSecond()
    ensures ParserNamed("minecraft:color") == Some(PlainKind(Color))
    ensures ParserNamed("minecraft:component") == Some(PlainKind(Component))
    ensures ParserNamed("minecraft:message") == Some(PlainKind(Message))
    ensures ParserNamed("minecraft:nbt") == Some(PlainKind(Nbt))
    ensures ParserNamed("minecraft:nbt_path") == Some(PlainKind(NbtPath))
    ensures ParserNamed("minecraft:objective") == Some(PlainKind(Objective))
    ensures ParserNamed("minecraft:objective_criteria") == Some(PlainKind(ObjectiveCriteria))
    ensures ParserNamed("minecraft:operation") == Some(PlainKind(Operation))
    ensures ParserNamed("minecraft:particle") == Some(PlainKind(Particle))
    ensures ParserNamed("minecraft:rotation") == Some(PlainKind(Rotation))
  {
  }

  /** The lookup of the next 10 names of `PlainName`. */
  lemma PlainNamesThird()
    ensures ParserNamed("minecraft:angle") == Some(PlainKind(Angle))
    ensures ParserNamed("minecraft:scoreboard_slot") == Some(PlainKind(ScoreboardSlot))
    ensures ParserNamed("minecraft:swizzle") == Some(PlainKind(Swizzle))
    ensures ParserNamed("minecraft:team") == Some(PlainKind(Team))
    ensures ParserNamed("minecraft:item_slot") == Some(PlainKind(ItemSlot))
    ensures ParserNamed("minecraft:resource_location") == Some(PlainKind(ResourceLocation))
    ensures ParserNamed("minecraft:mob_effect") == Some(PlainKind(MobEffect))
    ensures ParserNamed("minecraft:function") == Some(PlainKind(Function))
    ensures ParserNamed("minecraft:entity_anchor") == Some(PlainKind(EntityAnchor))
    ensures ParserNamed("minecraft:int_range") == Some(PlainKind(IntRange))
  {
  }

  /** The lookup of the next 10 names of `PlainName`. */
  lemma PlainNamesFourth()
    ensures ParserNamed("minecraft:float_range") == Some(PlainKind(FloatRange))
    ensures ParserNamed("minecraft:item_enchantment") == Some(PlainKind(ItemEnchantment))
    ensures ParserNamed("minecraft:entity_summon") == Some(PlainKind(EntitySummon))
    ensures ParserNamed("minecraft:dimension") == Some(PlainKind(Dimension))
    ensures ParserNamed("minecraft:uuid") == Some(PlainKind(Uuid))
    ensures ParserNamed("minecraft:nbt_tag") == Some(PlainKind(NbtTag))
    ensures ParserNamed("minecraft:nbt_compound_tag") == Some(PlainKind(NbtCompoundTag))
    ensures ParserNamed("minecraft:time") == Some(PlainKind(Time))
    ensures ParserNamed("forge:modid") == Some(PlainKind(Modid))
    ensures ParserNamed("forge:enum") == Some(PlainKind(Enum))
  {
  }

  /** `Parser::name` for the parsers without data. */
  function PlainName(kind: PlainParser): string
  {
    match kind
    case Bool => "brigadier:bool"
    case GameProfile => "minecraft:game_profile"
    case BlockPos => "minecraft:block_pos"
    case ColumnPos => "minecraft:column_pos"
    case Vec3 => "minecraft:vec3"
    case Vec2 => "minecraft:vec2"
    case BlockState => "minecraft:block_state"
    case BlockPredicate => "minecraft:block_predicate"
    case ItemStack => "minecraft:item_stack"
    case ItemPredicate => "minecraft:item_predicate"
    case Color => "minecraft:color"
    case Component => "minecraft:component"
    case Message => "minecraft:message"
    case Nbt => "minecraft:nbt"
    case NbtPath => "minecraft:nbt_path"
    case Objective => "minecraft:objective"
    case ObjectiveCriteria => "minecraft:objective_criteria"
    case Operation => "minecraft:operation"
    case Particle => "minecraft:particle"
    case Rotation => "minecraft:rotation"
    case Angle => "minecraft:angle"
    case ScoreboardSlot => "minecraft:scoreboard_slot"
    case Swizzle => "minecraft:swizzle"
    case Team => "minecraft:team"
    case ItemSlot => "minecraft:item_slot"
    case ResourceLocation => "minecraft:resource_location"
    case MobEffect => "minecraft:mob_effect"
    case Function => "minecraft:function"
    case EntityAnchor => "minecraft:entity_anchor"
    case IntRange => "minecraft:int_range"
    case FloatRange => "minecraft:float_range"
    case ItemEnchantment => "minecraft:item_enchantment"
    case EntitySummon => "minecraft:entity_summon"
    case Dimension => "minecraft:dimension"
    case Uuid => "minecraft:uuid"
    case NbtTag => "minecraft:nbt_tag"
    case NbtCompoundTag => "minecraft:nbt_compound_tag"
    case Time => "minecraft:time"
    case Modid => "forge:modid"
    case Enum => "forge:enum"
  }

  /** The presence byte of a pair of optional bounds: bit 0x01 for a
      minimum, bit 0x02 for a maximum. */
  function BoundsMask(hasMin: bool, hasMax: bool): (r: bv8)
    ensures (r & 0x01 != 0) == hasMin && (r & 0x02 != 0) == hasMax && r & 0xFC == 0
  {
    var low: bv8 := if hasMin then 0x01 else 0x00;
    if hasMax then low | 0x02 else low
  }

  /** The tokens of `Parser::write_data`. */
  function DataTokens(p: Parser): seq<Token>
  {
    match p
    case Double(lo, hi) =>
      [U8(BoundsMask(lo.Some?, hi.Some?))] +
      (if lo.Some? then [F64(lo.value)] else []) + (if hi.Some? then [F64(hi.value)] else [])
    case Float(lo, hi) =>
      [U8(BoundsMask(lo.Some?, hi.Some?))] +
      (if lo.Some? then [F32(lo.value)] else []) + (if hi.Some? then [F32(hi.value)] else [])
    case Int(lo, hi) =>
      [U8(BoundsMask(lo.Some?, hi.Some?))] +
      (if lo.Some? then [I32(lo.value)] else []) + (if hi.Some? then [I32(hi.value)] else [])
    case String(ty) => [VarInt(match ty case Word => 0 case Quotable => 1 case Greedy => 2)]
    case Entity(single, players) =>
      var low: bv8 := if single then 0x01 else 0x00;
      [U8(if players then low | 0x02 else low)]
    case ScoreHolder(multiple) => [U8(if multiple then 0x01 else 0x00)]
    case Range(decimals) => [BoolToken(decimals)]
    case _ => []
  }

  /** What `write_data` writes for the parsers that carry data: the presence
      byte and the bounds, minimum first; the string kind as 0, 1 or 2; the
      entity and score-holder flags. */
  lemma DataLayout(p: Parser)
    ensures p.Int? ==> |DataTokens(p)| == 1 + (if p.imin.Some? then 1 else 0) + (if p.imax.Some? then 1 else 0)
    ensures p.Int? ==> DataTokens(p)[0] == U8(BoundsMask(p.imin.Some?, p.imax.Some?))
    ensures p.Int? && p.imin.Some? ==> DataTokens(p)[1] == I32(p.imin.value)
    ensures p.Int? && p.imax.Some? ==> DataTokens(p)[|DataTokens(p)| - 1] == I32(p.imax.value)
    ensures p.String? ==> DataTokens(p) == [VarInt(if p.ty.Word? then 0 else if p.ty.Quotable? then 1 else 2)]
    ensures p.Entity? ==> exists b: bv8 ::
      DataTokens(p) == [U8(b)] && (b & 0x01 != 0) == p.single && (b & 0x02 != 0) == p.players
    ensures p.ScoreHolder? ==> exists b: bv8 :: DataTokens(p) == [U8(b)] && (b & 0x01 != 0) == p.multiple
  {
    if p.Entity? {
      var b := BoundsMask(p.single, p.players);
      assert DataTokens(p) == [U8(b)];
    }
    if p.ScoreHolder? {
      var b := BoundsMask(p.multiple, false);
      assert DataTokens(p) == [U8(b)];
    }
  }

  // -------------------------------------------------------------------------
  // Flattening

  /** The number of nodes of a command tree. */
  function Size(c: Command): (r: nat)
    ensures r >= 1
    decreases c, 1
  {
    1 + SizeAll(c.children)
  }

  function SizeAll(cs: seq<Command>): nat
    decreases cs, 0
  {
    if cs == [] then 0 else SizeAll(cs[..|cs| - 1]) + Size(cs[|cs| - 1])
  }

  /** The nodes `write_nodes` pushes for `c` onto a list of length `base`:
      the children's nodes in order, then `c` itself. */
  function Flatten(c: Command, base: nat): (r: seq<IndexNode>)
    ensures |r| == Size(c)
    decreases c, 1
  {
    FlattenAll(c.children, base) + [IndexNode(c.name, c.ty, ChildIndices(c.children, base))]
  }

  function FlattenAll(cs: seq<Command>, base: nat): (r: seq<IndexNode>)
    ensures |r| == SizeAll(cs)
    decreases cs, 0
  {
    if cs == [] then []
    else
      var prefix := cs[..|cs| - 1];
      FlattenAll(prefix, base) + Flatten(cs[|cs| - 1], base + SizeAll(prefix))
  }

  /** The index each child of a node gets: the position of its own node,
      the last of its block. */
  function ChildIndices(cs: seq<Command>, base: nat): (r: seq<nat>)
  {
    seq(|cs|, i requires 0 <= i < |cs| => base + SizeAll(cs[..i]) + Size(cs[i]) - 1)
  }

  lemma FlattenAllStep(cs: seq<Command>, i: nat, base: nat)
    requires i < |cs|
    ensures FlattenAll(cs[..i + 1], base) == FlattenAll(cs[..i], base) + Flatten(cs[i], base + SizeAll(cs[..i]))
  {
    assert cs[..i + 1][..i] == cs[..i];
  }

  lemma ChildIndicesStep(cs: seq<Command>, i: nat, base: nat)
    requires i < |cs|
    ensures ChildIndices(cs[..i + 1], base) == ChildIndices(cs[..i], base) + [base + SizeAll(cs[..i]) + Size(cs[i]) - 1]
  {
    var longer := ChildIndices(cs[..i + 1], base);
    var shorter := ChildIndices(cs[..i], base);
    assert cs[..i + 1][..i] == cs[..i];
    forall k | 0 <= k < i
      ensures longer[k] == shorter[k]
    {
      assert cs[..i + 1][..k] == cs[..i][..k];
    }
  }

  lemma AppendTwo<T>(s: seq<T>, a: seq<T>, b: seq<T>)
    ensures s + a + b == s + (a + b)
  {
  }

  /** `Command::write_nodes`: push the nodes of every child, then this
      node with the children's indices; return this node's index. */
  method WriteNodes(c: Command, nodes: seq<IndexNode>) returns (out: seq<IndexNode>, index: nat)
    ensures out == nodes + Flatten(c, |nodes|)
    ensures index == |out| - 1 == |nodes| + Size(c) - 1
    decreases c, 1
  {
    var children;
    out, children := WriteChildren(c.children, nodes);
    out := out + [IndexNode(c.name, c.ty, children)];
    index := |out| - 1;
  }

  /** The loop of `write_nodes` over the children, collecting their indices. */
  method WriteChildren(cs: seq<Command>, nodes: seq<IndexNode>) returns (out: seq<IndexNode>, children: seq<nat>)
    ensures out == nodes + FlattenAll(cs, |nodes|)
    ensures children == ChildIndices(cs, |nodes|)
    decreases cs, 0
  {
    children := [];
    out := nodes;
    var i := 0;
    while i < |cs|
      invariant 0 <= i <= |cs|
      invariant out == nodes + FlattenAll(cs[..i], |nodes|)
      invariant children == ChildIndices(cs[..i], |nodes|)
    {
      FlattenAllStep(cs, i, |nodes|);
      ChildIndicesStep(cs, i, |nodes|);
      ghost var before := out;
      var idx;
      out, idx := WriteNodes(cs[i], out);
      AppendTwo(nodes, FlattenAll(cs[..i], |nodes|), Flatten(cs[i], |before|));
      children := children + [idx];
      i := i + 1;
    }
    assert cs[..i] == cs;
  }

  /** Every child index points strictly before its parent (and not before
      the first node pushed). */
  lemma {:induction false} ChildrenFirst(c: Command, base: nat)
    ensures forall k, j :: 0 <= k < |Flatten(c, base)| && j in Flatten(c, base)[k].children ==> base <= j < base + k
    decreases c, 1
  {
    var nodes := Flatten(c, base);
    var below := FlattenAll(c.children, base);
    ChildrenFirstAll(c.children, base);
    forall k, j | 0 <= k < |nodes| && j in nodes[k].children
      ensures base <= j < base + k
    {
      if k < |below| {
        assert nodes[k] == below[k];
      } else {
        var i :| 0 <= i < |c.children| && ChildIndices(c.children, base)[i] == j;
        SizeAllPrefix(c.children, i + 1);
        assert c.children[..i + 1] == c.children[..i] + [c.children[i]];
      }
    }
  }

  lemma {:induction false} ChildrenFirstAll(cs: seq<Command>, base: nat)
    ensures forall k, j :: 0 <= k < |FlattenAll(cs, base)| && j in FlattenAll(cs, base)[k].children ==> base <= j < base + k
    decreases cs, 0
  {
    if cs != [] {
      var prefix := cs[..|cs| - 1];
      var at := base + SizeAll(prefix);
      ChildrenFirstAll(prefix, base);
      ChildrenFirst(cs[|cs| - 1], at);
      var nodes := FlattenAll(cs, base);
      forall k, j | 0 <= k < |nodes| && j in nodes[k].children
        ensures base <= j < base + k
      {
        if k < |FlattenAll(prefix, base)| {
          assert nodes[k] == FlattenAll(prefix, base)[k];
        } else {
          assert nodes[k] == Flatten(cs[|cs| - 1], at)[k - SizeAll(prefix)];
        }
      }
    }
  }

  /** The sizes of a prefix of children add up to no more than all of them. */
  lemma {:induction false} SizeAllPrefix(cs: seq<Command>, n: nat)
    requires n <= |cs|
    ensures SizeAll(cs[..n]) <= SizeAll(cs)
    decreases |cs|
  {
    if n < |cs| {
      assert cs[..n] == cs[..|cs| - 1][..n];
      SizeAllPrefix(cs[..|cs| - 1], n);
    } else {
      assert cs[..n] == cs;
    }
  }

  /** The last node is the tree's own root, and each of its child indices
      points at the node of that child. */
  lemma ChildIndicesPointAtChildren(c: Command, base: nat, i: nat)
    requires i < |c.children|
    ensures Flatten(c, base)[Size(c) - 1] == IndexNode(c.name, c.ty, ChildIndices(c.children, base))
    ensures var j := ChildIndices(c.children, base)[i] - base;
      0 <= j < Size(c) - 1 && Flatten(c, base)[j].name == c.children[i].name && Flatten(c, base)[j].ty == c.children[i].ty
  {
    ChildNode(c.children, base, i);
  }

  lemma {:induction false} ChildNode(cs: seq<Command>, base: nat, i: nat)
    requires i < |cs|
    ensures var j := SizeAll(cs[..i]) + Size(cs[i]) - 1;
      j < SizeAll(cs) && FlattenAll(cs, base)[j].name == cs[i].name && FlattenAll(cs, base)[j].ty == cs[i].ty
  {
    var prefix := cs[..|cs| - 1];
    if i == |cs| - 1 {
      assert cs[..i] == prefix;
    } else {
      ChildNode(prefix, base, i);
      assert prefix[..i] == cs[..i] && prefix[i] == cs[i];
    }
  }

  // -------------------------------------------------------------------------
  // The node list in the packet

  /** The child indices of a node, each as a `VarInt`. */
  function IndexTokens(children: seq<nat>): (r: seq<Token>)
    ensures |r| == |children| && forall k :: 0 <= k < |children| ==> r[k] == VarInt(children[k])
  {
    if children == [] then [] else [VarInt(children[0])] + IndexTokens(children[1..])
  }

  /** The tokens of one node: flag byte, child count, child indices, then the
      name of a literal or argument, and the parser of an argument. */
  function NodeTokens(n: IndexNode): seq<Token>
  {
    [U8(Mask(n.ty)), VarInt(|n.children|)] + IndexTokens(n.children) + NodeTail(n)
  }

  /** What follows a node's child indices: its name unless it is the root,
      then for an argument the parser's name and data. */
  function NodeTail(n: IndexNode): seq<Token>
  {
    match n.ty
    case Argument(p) => [Str(n.name), Str(Name(p))] + DataTokens(p)
    case Literal => [Str(n.name)]
    case Root => []
  }

  function NodesTokens(nodes: seq<IndexNode>): seq<Token>
  {
    if nodes == [] then [] else NodesTokens(nodes[..|nodes| - 1]) + NodeTokens(nodes[|nodes| - 1])
  }

  /** The node list of the packet: the node count, then every node. */
  function Encoding(nodes: seq<IndexNode>): seq<Token>
  {
    [VarInt(|nodes|)] + NodesTokens(nodes)
  }

  /** The root command: every registered command as a child of an unnamed
      root node. */
  function RootOf(commands: seq<Command>): Command
  {
    Command("", Root, commands)
  }

  /** `Parser::write_data` on the buffer. */
  method WriteData(p: Parser, buf: seq<Token>) returns (out: seq<Token>)
    ensures out == buf + DataTokens(p)
  {
    out := buf;
    match p {
      case Double(lo, hi) =>
        var bitmask: bv8 := 0;
        if lo.Some? { bitmask := bitmask | 0x01; }
        if hi.Some? { bitmask := bitmask | 0x02; }
        out := out + [U8(bitmask)];
        if lo.Some? { out := out + [F64(lo.value)]; }
        if hi.Some? { out := out + [F64(hi.value)]; }
      case Float(lo, hi) =>
        var bitmask: bv8 := 0;
        if lo.Some? { bitmask := bitmask | 0x01; }
        if hi.Some? { bitmask := bitmask | 0x02; }
        out := out + [U8(bitmask)];
        if lo.Some? { out := out + [F32(lo.value)]; }
        if hi.Some? { out := out + [F32(hi.value)]; }
      case Int(lo, hi) =>
        var bitmask: bv8 := 0;
        if lo.Some? { bitmask := bitmask | 0x01; }
        if hi.Some? { bitmask := bitmask | 0x02; }
        out := out + [U8(bitmask)];
        if lo.Some? { out := out + [I32(lo.value)]; }
        if hi.Some? { out := out + [I32(hi.value)]; }
      case String(ty) =>
        out := out + [VarInt(match ty case Word => 0 case Quotable => 1 case Greedy => 2)];
      case Entity(single, players) =>
        var bitmask: bv8 := 0;
        if single { bitmask := bitmask | 0x01; }
        if players { bitmask := bitmask | 0x02; }
        out := out + [U8(bitmask)];
      case ScoreHolder(multiple) =>
        var bitmask: bv8 := 0;
        if multiple { bitmask := bitmask | 0x01; }
        out := out + [U8(bitmask)];
      case Range(decimals) =>
        out := out + [BoolToken(decimals)];
      case _ =>
    }
  }

  /** The child-index loop inside the node loop of `CommandTree::serialize`. */
  method WriteIndices(children: seq<nat>, buf: seq<Token>) returns (out: seq<Token>)
    ensures out == buf + IndexTokens(children)
  {
    out := buf;
    var k := 0;
    while k < |children|
      invariant 0 <= k <= |children|
      invariant out == buf + IndexTokens(children[..k])
    {
      assert IndexTokens(children[..k + 1]) == IndexTokens(children[..k]) + [VarInt(children[k])];
      out := out + [VarInt(children[k])];
      k := k + 1;
    }
    assert children[..k] == children;
  }

  /** One pass of the node loop of `CommandTree::serialize`: the flag
      byte, the child indices, then the name, parser name and parser data
      that the node type calls for. */
  method WriteNode(node: IndexNode, buf: seq<Token>) returns (out: seq<Token>)
    ensures out == buf + NodeTokens(node)
  {
    var head := [U8(Mask(node.ty)), VarInt(|node.children|)];
    out := buf + head;
    out := WriteIndices(node.children, out);
    ghost var mid := out;
    match node.ty {
      case Argument(p) =>
        out := out + [Str(node.name), Str(Name(p))];
        out := WriteData(p, out);
      case Literal =>
        out := out + [Str(node.name)];
      case Root =>
    }
    assert out == mid + NodeTail(node);
    AppendThree(buf, head, IndexTokens(node.children), NodeTail(node));
  }

  lemma AppendThree<T>(s: seq<T>, a: seq<T>, b: seq<T>, c: seq<T>)
    ensures s + a + b + c == s + (a + b + c)
  {
  }

  /** `CommandTree::serialize`: flatten the tree under an unnamed root, then
      write the node count and every node; the root's index is the last. */
  method Serialize(commands: seq<Command>) returns (data: seq<Token>, rootIndex: nat)
    ensures data == Encoding(Flatten(RootOf(commands), 0))
    ensures rootIndex == |Flatten(RootOf(commands), 0)| - 1
  {
    var nodes, _ := WriteNodes(RootOf(commands), []);
    data := [VarInt(|nodes|)];
    var i := 0;
    while i < |nodes|
      invariant 0 <= i <= |nodes|
      invariant data == [VarInt(|nodes|)] + NodesTokens(nodes[..i])
    {
      assert nodes[..i + 1][..i] == nodes[..i];
      assert NodesTokens(nodes[..i + 1]) == NodesTokens(nodes[..i]) + NodeTokens(nodes[i]);
      AppendTwo([VarInt(|nodes|)], NodesTokens(nodes[..i]), NodeTokens(nodes[i]));
      data := WriteNode(nodes[i], data);
      i := i + 1;
    }
    assert nodes[..i] == nodes;
    rootIndex := |nodes| - 1;
  }

  // -------------------------------------------------------------------------
  // Reading the node list back

  function OptionalF64(present: bool, ts: seq<Token>): Option<(Option<FloatBits>, seq<Token>)>
  {
    if !present then Some((None, ts))
    else if |ts| > 0 && ts[0].F64? then Some((Some(ts[0].d), ts[1..])) else None
  }

  function OptionalF32(present: bool, ts: seq<Token>): Option<(Option<FloatBits>, seq<Token>)>
  {
    if !present then Some((None, ts))
    else if |ts| > 0 && ts[0].F32? then Some((Some(ts[0].f), ts[1..])) else None
  }

  function OptionalI32(present: bool, ts: seq<Token>): Option<(Option<int>, seq<Token>)>
  {
    if !present then Some((None, ts))
    else if |ts| > 0 && ts[0].I32? then Some((Some(ts[0].i), ts[1..])) else None
  }

  /** The presence byte of a pair of bounds, if `ts` starts with one. */
  function ReadBoundsMask(ts: seq<Token>): Option<(bool, bool)>
  {
    if |ts| == 0 || !ts[0].U8? || ts[0].b & 0xFC != 0 then None
    else Some((ts[0].b & 0x01 != 0, ts[0].b & 0x02 != 0))
  }

  /** The data of a parser of the same kind as `kind`, read from `ts`; what
      a client does once the parser name told it the kind. */
  function ReadData(kind: Parser, ts: seq<Token>): Option<(Parser, seq<Token>)>
  {
    match kind
    case Double(_, _) =>
      (match ReadBoundsMask(ts)
       case None => None
       case Some((hasMin, hasMax)) =>
         match OptionalF64(hasMin, ts[1..])
         case None => None
         case Some((lo, rest)) =>
           match OptionalF64(hasMax, rest)
           case None => None
           case Some((hi, rest')) => Some((Double(lo, hi), rest')))
    case Float(_, _) =>
      (match ReadBoundsMask(ts)
       case None => None
       case Some((hasMin, hasMax)) =>
         match OptionalF32(hasMin, ts[1..])
         case None => None
         case Some((lo, rest)) =>
           match OptionalF32(hasMax, rest)
           case None => None
           case Some((hi, rest')) => Some((Float(lo, hi), rest')))
    case Int(_, _) =>
      (match ReadBoundsMask(ts)
       case None => None
       case Some((hasMin, hasMax)) =>
         match OptionalI32(hasMin, ts[1..])
         case None => None
         case Some((lo, rest)) =>
           match OptionalI32(hasMax, rest)
           case None => None
           case Some((hi, rest')) => Some((Int(lo, hi), rest')))
    case String(_) =>
      if |ts| == 0 || !ts[0].VarInt? || !(0 <= ts[0].v <= 2) then None
      else Some((String(if ts[0].v == 0 then Word else if ts[0].v == 1 then Quotable else Greedy), ts[1..]))
    case Entity(_, _) =>
      (match ReadBoundsMask(ts)
       case None => None
       case Some((single, players)) => Some((Entity(single, players), ts[1..])))
    case ScoreHolder(_) =>
      if |ts| == 0 || !ts[0].U8? || ts[0].b & 0xFE != 0 then None
      else Some((ScoreHolder(ts[0].b & 0x01 != 0), ts[1..]))
    case Range(_) =>
      if |ts| == 0 || !ts[0].BoolToken? then None else Some((Range(ts[0].flag), ts[1..]))
    case _ => Some((kind, ts))
  }

  /** The data `write_data` writes reads back as the same parser. */
  lemma DataRoundTrip(p: Parser, rest: seq<Token>)
    ensures ReadData(p, DataTokens(p) + rest) == Some((p, rest))
  {
    var ts := DataTokens(p) + rest;
    match p {
      case Double(lo, hi) =>
        assert ts[1..] == (if lo.Some? then [F64(lo.value)] else []) + (if hi.Some? then [F64(hi.value)] else []) + rest;
      case Float(lo, hi) =>
        assert ts[1..] == (if lo.Some? then [F32(lo.value)] else []) + (if hi.Some? then [F32(hi.value)] else []) + rest;
      case Int(lo, hi) =>
        assert ts[1..] == (if lo.Some? then [I32(lo.value)] else []) + (if hi.Some? then [I32(hi.value)] else []) + rest;
      case Entity(single, players) =>
        assert ts[1..] == rest;
      case ScoreHolder(_) =>
        assert ts[1..] == rest;
      case String(_) =>
        assert ts[1..] == rest;
      case Range(_) =>
        assert ts[1..] == rest;
      case _ =>
        assert ts == rest;
    }
  }

  /** `n` child indices, each a non-negative `VarInt`. */
  function ReadIndices(ts: seq<Token>, n: nat): Option<(seq<nat>, seq<Token>)>
  {
    if n == 0 then Some(([], ts))
    else if |ts| == 0 || !ts[0].VarInt? || ts[0].v < 0 then None
    else
      match ReadIndices(ts[1..], n - 1)
      case None => None
      case Some((more, rest)) => Some(([ts[0].v as nat] + more, rest))
  }

  /** The head of a node as a client reads it: the flag byte, the child
      indices, the name (unless the node is the root) and the parser name
      (only for an argument), followed by what is left. */
  datatype NodeHead = NodeHead(mask: bv8, children: seq<nat>, name: Option<string>, parserName: Option<string>)

  function ReadNodeHead(ts: seq<Token>): Option<(NodeHead, seq<Token>)>
  {
    if |ts| < 2 || !ts[0].U8? || !ts[1].VarInt? || ts[1].v < 0 || TypeOfMask(ts[0].b).None? then None
    else
      match ReadIndices(ts[2..], ts[1].v as nat)
      case None => None
      case Some((children, rest)) => ReadNames(ts[0].b, children, rest)
  }

  /** What follows the child indices: no name for the root, a name for a
      literal, a name and a parser name for an argument. */
  function ReadNames(mask: bv8, children: seq<nat>, rest: seq<Token>): Option<(NodeHead, seq<Token>)>
  {
    if mask == 0x00 then Some((NodeHead(mask, children, None, None), rest))
    else if |rest| == 0 || !rest[0].Str? then None
    else if mask == 0x01 then Some((NodeHead(mask, children, Some(rest[0].s), None), rest[1..]))
    else if |rest| < 2 || !rest[1].Str? then None
    else Some((NodeHead(mask, children, Some(rest[0].s), Some(rest[1].s)), rest[2..]))
  }

  lemma {:induction false} IndicesRoundTrip(children: seq<nat>, rest: seq<Token>)
    ensures ReadIndices(IndexTokens(children) + rest, |children|) ==
      Some((children, rest))
  {
    var ts := IndexTokens(children) + rest;
    if children != [] {
      var tail := children[1..];
      assert ts[0] == VarInt(children[0]);
      assert ts[1..] == IndexTokens(tail) + rest;
      IndicesRoundTrip(tail, rest);
      assert [children[0]] + tail == children;
    } else {
      assert ts == rest;
    }
  }

  /** The names after a node's indices read back as written. */
  lemma NamesRoundTrip(n: IndexNode, rest: seq<Token>)
    ensures var after := if n.ty.Argument? then DataTokens(n.ty.parser) + rest else rest;
      ReadNames(Mask(n.ty), n.children, NodeTail(n) + rest) == Some((NodeHead(
        Mask(n.ty), n.children,
        if n.ty.Root? then None else Some(n.name),
        if n.ty.Argument? then Some(Name(n.ty.parser)) else None), after))
  {
    var tail := NodeTail(n);
    match n.ty {
      case Argument(p) =>
        assert tail + rest == [Str(n.name), Str(Name(p))] + (DataTokens(p) + rest);
      case Literal =>
        assert tail + rest == [Str(n.name)] + rest;
      case Root =>
        assert tail + rest == rest;
    }
  }

  /** A node reads back with its type's flag byte and its child indices;
      the name is present exactly for literals and arguments and the parser
      name exactly for arguments, with the parser data right after it. */
  lemma NodeRoundTrip(n: IndexNode, rest: seq<Token>)
    ensures var after := if n.ty.Argument? then DataTokens(n.ty.parser) + rest else rest;
      ReadNodeHead(NodeTokens(n) + rest) == Some((NodeHead(
        Mask(n.ty), n.children,
        if n.ty.Root? then None else Some(n.name),
        if n.ty.Argument? then Some(Name(n.ty.parser)) else None), after))
  {
    var indices := IndexTokens(n.children);
    var tail := NodeTail(n);
    var ts := NodeTokens(n) + rest;
    assert ts[2..] == indices + (tail + rest);
    IndicesRoundTrip(n.children, tail + rest);
    assert ts[0] == U8(Mask(n.ty)) && ts[1] == VarInt(|n.children|);
    assert ReadNodeHead(ts) == ReadNames(Mask(n.ty), n.children, tail + rest);
    NamesRoundTrip(n, rest);
  }
}
