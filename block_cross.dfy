/** Matching the blocks of an older Minecraft version to the blocks of the
    latest one (`find_ids`, `update_old_blocks`, `old_state`). Block
    definitions come from data files; here they are plain values. */
module BlockCross {
  import opened Wrappers

  /** The value of one block property in one state. */
  datatype PropValue = IntValue(i: int) | EnumValue(e: string) | BoolValue(b: bool)

  /** The kind of a block property. */
  datatype PropKind = IntKind(min: int, max: int) | EnumKind(values: seq<string>) | BoolKind

  datatype Prop = Prop(name: string, kind: PropKind, default: PropValue)

  /** One state of a block: the value of each of its properties. */
  datatype State = State(props: map<string, PropValue>)

  /** A block of a version: its name, its first state id, its properties
      and its states in state-id order (`all_states`). */
  datatype Block = Block(name: string, id: nat, properties: seq<Prop>, states: seq<State>)

  /** The single property old blocks get: the 4-bit metadata, 0 to 16. */
  function IdProp(): (r: Prop)
    ensures r.name == "id" && r.kind == IntKind(0, 16) && r.default == IntValue(0)
  {
    Prop("id", IntKind(0, 16), IntValue(0))
  }

  /** The blocks after `update_old_blocks`: ids shifted left by 4, the
      properties replaced by the metadata property. */
  function Shifted(blocks: seq<Block>): (r: seq<Block>)
    ensures |r| == |blocks|
    ensures forall i :: 0 <= i < |blocks| ==>
      r[i] == blocks[i].(id := blocks[i].id * 16, properties := [IdProp()])
  {
    seq(|blocks|, i requires 0 <= i < |blocks| => blocks[i].(id := blocks[i].id * 16, properties := [IdProp()]))
  }

  /** `update_old_blocks`: before 1.13 a chunk stores a block as its id
      shifted left by 4 with 4 bits of metadata below, so every id makes
      room for 16 states. */
  method UpdateOldBlocks(blocks: seq<Block>) returns (r: seq<Block>)
    ensures r == Shifted(blocks)
  {
    r := blocks;
    var i := 0;
    while i < |r|
      invariant 0 <= i <= |r| == |blocks|
      invariant forall k :: 0 <= k < i ==> r[k] == Shifted(blocks)[k]
      invariant forall k :: i <= k < |r| ==> r[k] == blocks[k]
    {
      r := r[i := r[i].(id := r[i].id * 16, properties := [IdProp()])];
      i := i + 1;
    }
  }

  /** The blocks by name (`collect` into a map: a later block of the same
      name replaces an earlier one). */
  function NameMap(blocks: seq<Block>): (r: map<string, Block>)
    ensures forall k :: 0 <= k < |blocks| ==> blocks[k].name in r
    ensures forall name :: name in r ==> r[name] in blocks && r[name].name == name
  {
    if blocks == [] then map[]
    else
      var prefix := blocks[..|blocks| - 1];
      var last := blocks[|blocks| - 1];
      assert forall k :: 0 <= k < |prefix| ==> prefix[k] == blocks[k];
      NameMap(prefix)[last.name := last]
  }

  /** A block no later block shares its name with is the one the name maps
      to. */
  lemma {:induction false} NameMapLast(blocks: seq<Block>, k: nat)
    requires k < |blocks| && forall l :: k < l < |blocks| ==> blocks[l].name != blocks[k].name
    ensures NameMap(blocks)[blocks[k].name] == blocks[k]
  {
    var prefix := blocks[..|blocks| - 1];
    if k < |blocks| - 1 {
      assert forall j :: 0 <= j < |prefix| ==> prefix[j] == blocks[j];
      NameMapLast(prefix, k);
    }
  }

  // -------------------------------------------------------------------------
  // old_state

  /** Where an old state comes from: the old block of that name, plus a
      metadata offset. */
  datatype Origin = Origin(block: string, meta: nat)

  /** The renamed blocks whose old id does not depend on the state. */
  function FixedOrigin(name: string): (r: Option<Origin>)
    ensures r.Some? ==> r.value.meta < 16
  {
    match name
    case "granite" => Some(Origin("stone", 1))
    case "polished_granite" => Some(Origin("stone", 2))
    case "diorite" => Some(Origin("stone", 3))
    case "polished_diorite" => Some(Origin("stone", 4))
    case "andesite" => Some(Origin("stone", 5))
    case "polished_andesite" => Some(Origin("stone", 6))
    case "coarse_dirt" => Some(Origin("dirt", 1))
    case "podzol" => Some(Origin("dirt", 2))
    case "oak_planks" => Some(Origin("planks", 0))
    case "spruce_planks" => Some(Origin("planks", 1))
    case "birch_planks" => Some(Origin("planks", 2))
    case "jungle_planks" => Some(Origin("planks", 3))
    case "acacia_planks" => Some(Origin("planks", 4))
    case "dark_oak_planks" => Some(Origin("planks", 5))
    case "oak_sapling" => Some(Origin("sapling", 0))
    case "spruce_sapling" => Some(Origin("sapling", 1))
    case "birch_sapling" => Some(Origin("sapling", 2))
    case "jungle_sapling" => Some(Origin("sapling", 3))
    case "acacia_sapling" => Some(Origin("sapling", 4))
    case "dark_oak_sapling" => Some(Origin("sapling", 5))
    case "red_sand" => Some(Origin("sand", 1))
    case "oak_wood" => Some(Origin("log", 12))
    case "spruce_wood" => Some(Origin("log", 13))
    case "birch_wood" => Some(Origin("log", 14))
    case "jungle_wood" => Some(Origin("log", 15))
    case "wet_sponge" => Some(Origin("sponge", 1))
    case "grass_block" => Some(Origin("grass", 0))
    case "grass" => Some(Origin("tallgrass", 1))
    case "dead_bush" => Some(Origin("tallgrass", 0))
    case "fern" => Some(Origin("tallgrass", 2))
    case _ => None
  }

  /** The wood type of a log or leaves block (oak, spruce, birch, jungle). */
  function WoodOf(name: string, suffix: string): (r: Option<nat>)
    ensures r.Some? ==> r.value < 4
  {
    if name == "oak_" + suffix then Some(0)
    else if name == "spruce_" + suffix then Some(1)
    else if name == "birch_" + suffix then Some(2)
    else if name == "jungle_" + suffix then Some(3)
    else None
  }

  /** The still and the flowing old block of a fluid. */
  function FluidOf(name: string): (r: Option<(string, string)>)
  {
    if name == "water" then Some(("water", "flowing_water"))
    else if name == "lava" then Some(("lava", "flowing_lava"))
    else None
  }

  /** The state properties `old_state` reads are there and hold values it
      handles: a fluid level in 0 to 15, a log axis X, Y or Z, a leaves
      `persistent` flag. Any other value is `unreachable!()`. */
  predicate Readable(name: string, state: State)
  {
    (FluidOf(name).Some? ==>
      "level" in state.props && state.props["level"].IntValue? && 0 <= state.props["level"].i <= 15) &&
    (WoodOf(name, "log").Some? ==>
      "axis" in state.props && state.props["axis"].EnumValue? && state.props["axis"].e in {"X", "Y", "Z"}) &&
    (WoodOf(name, "leaves").Some? ==>
      "persistent" in state.props && state.props["persistent"].BoolValue?)
  }

  /** The old block and metadata of one state of a renamed block; `None`
      for a block whose name did not change. */
  function OldOrigin(name: string, state: State): (r: Option<Origin>)
    requires Readable(name, state)
    ensures r.Some? ==> r.value.meta < 16
    ensures FixedOrigin(name).Some? ==> r == FixedOrigin(name)
    ensures FluidOf(name).Some? && state.props["level"].i == 0 ==> r == Some(Origin(FluidOf(name).value.0, 0))
    ensures FluidOf(name).Some? && state.props["level"].i > 0 ==>
      r == Some(Origin(FluidOf(name).value.1, state.props["level"].i - 1))
  {
    if FixedOrigin(name).Some? then FixedOrigin(name)
    else if FluidOf(name).Some? then
      var level := state.props["level"].i;
      if level == 0 then Some(Origin(FluidOf(name).value.0, 0))
      else Some(Origin(FluidOf(name).value.1, level - 1))
    else if WoodOf(name, "log").Some? then
      var wood := WoodOf(name, "log").value;
      var axis := state.props["axis"].e;
      Some(Origin("log", wood + (if axis == "X" then 4 else if axis == "Y" then 0 else 8)))
    else if WoodOf(name, "leaves").Some? then
      var wood := WoodOf(name, "leaves").value;
      Some(Origin("leaves", wood + (if state.props["persistent"].b then 0 else 8)))
    else None
  }

  /** `old_state` can look up every old block it needs: the origin block of
      a renamed block, and air, which the fall-back evaluates eagerly. */
  predicate OldStateDefined(name: string, state: State, oldMap: map<string, Block>)
  {
    Readable(name, state) &&
    match OldOrigin(name, state)
    case Some(o) => o.block in oldMap
    case None => "air" in oldMap
  }

  /** `old_state`: the old id of one state of a latest block, for versions
      before 1.13. */
  function OldState(b: Block, state: State, oldMap: map<string, Block>): (r: nat)
    requires OldStateDefined(b.name, state, oldMap)
    ensures OldOrigin(b.name, state).Some? ==>
      r == oldMap[OldOrigin(b.name, state).value.block].id + OldOrigin(b.name, state).value.meta
    ensures OldOrigin(b.name, state).None? && b.name in oldMap ==> r == oldMap[b.name].id
    ensures OldOrigin(b.name, state).None? && b.name !in oldMap ==> r == oldMap["air"].id
  {
    match OldOrigin(b.name, state)
    case Some(o) => oldMap[o.block].id + o.meta
    case None => if b.name in oldMap then oldMap[b.name].id else oldMap["air"].id
  }

  /** With the old blocks shifted by `update_old_blocks`, a renamed block's
      old id stays among the 16 ids of its origin block: the origin's
      original id shifted left by 4, plus the metadata. */
  lemma OldStateInSlot(oldBlocks: seq<Block>, b: Block, state: State) returns (k: nat)
    requires OldStateDefined(b.name, state, NameMap(Shifted(oldBlocks)))
    requires OldOrigin(b.name, state).Some?
    ensures k < |oldBlocks| && oldBlocks[k].name == OldOrigin(b.name, state).value.block
    ensures OldState(b, state, NameMap(Shifted(oldBlocks))) / 16 == oldBlocks[k].id
    ensures OldState(b, state, NameMap(Shifted(oldBlocks))) % 16 == OldOrigin(b.name, state).value.meta
  {
    var o := OldOrigin(b.name, state).value;
    var shifted := Shifted(oldBlocks);
    var m := NameMap(shifted);
    assert OldState(b, state, m) == m[o.block].id + o.meta;
    k :| 0 <= k < |shifted| && shifted[k] == m[o.block];
    assert m[o.block].id == oldBlocks[k].id * 16 && oldBlocks[k].name == o.block;
    SlotDivMod(oldBlocks[k].id, o.meta);
  }

  lemma SlotDivMod(id: nat, meta: nat)
    requires meta < 16
    ensures (id * 16 + meta) / 16 == id && (id * 16 + meta) % 16 == meta
  {
  }

  // -------------------------------------------------------------------------
  // find_ids

  /** The old blocks by name as `find_ids` sees them: shifted first for
      versions up to 1.12. */
  function OldMap(maj: nat, oldBlocks: seq<Block>): (r: map<string, Block>)
  {
    if maj <= 12 then NameMap(Shifted(oldBlocks)) else NameMap(oldBlocks)
  }

  /** `find_ids` can look up every old block the states of `b` need. From
      1.13 on, the fall-back to air is evaluated for every new block. */
  predicate BlockConvertible(maj: nat, oldMap: map<string, Block>, b: Block)
  {
    if maj <= 12 then
      forall s :: 0 <= s < |b.states| ==> OldStateDefined(b.name, b.states[s], oldMap)
    else
      "air" in oldMap
  }

  /** `find_ids` can look up every old block it needs. */
  predicate Convertible(maj: nat, oldMap: map<string, Block>, newBlocks: seq<Block>)
  {
    forall k :: 0 <= k < |newBlocks| ==> BlockConvertible(maj, oldMap, newBlocks[k])
  }

  /** The old block a new block takes its ids from, from 1.13 on: the one of
      the same name, or air. */
  function SameNamed(b: Block, oldMap: map<string, Block>): (r: Block)
    requires "air" in oldMap
    ensures b.name in oldMap ==> r == oldMap[b.name]
    ensures b.name !in oldMap ==> r == oldMap["air"]
  {
    if b.name in oldMap then oldMap[b.name] else oldMap["air"]
  }

  /** The old id of state `s` of the new block `b`. */
  function StateId(maj: nat, oldMap: map<string, Block>, b: Block, s: nat): (r: nat)
    requires s < |b.states| && BlockConvertible(maj, oldMap, b)
    ensures maj <= 12 ==> r == OldState(b, b.states[s], oldMap)
    ensures maj > 12 && |SameNamed(b, oldMap).states| == |b.states| ==> r == SameNamed(b, oldMap).id + s
    ensures maj > 12 && |SameNamed(b, oldMap).states| != |b.states| ==> r == SameNamed(b, oldMap).id
  {
    if maj <= 12 then OldState(b, b.states[s], oldMap)
    else
      var source := SameNamed(b, oldMap);
      if |source.states| == |b.states| then source.id + s else source.id
  }

  /** The `to_old` entries of one new block, one per state. */
  function BlockIds(maj: nat, oldMap: map<string, Block>, b: Block): (r: seq<nat>)
    requires BlockConvertible(maj, oldMap, b)
    ensures |r| == |b.states| && forall s :: 0 <= s < |b.states| ==> r[s] == StateId(maj, oldMap, b, s)
  {
    seq(|b.states|, s requires 0 <= s < |b.states| => StateId(maj, oldMap, b, s))
  }

  /** The `to_old` entries of the blocks of `newBlocks`, one per state, in
      block-then-state order. */
  function ToOldIds(maj: nat, oldMap: map<string, Block>, newBlocks: seq<Block>): (r: seq<nat>)
    requires Convertible(maj, oldMap, newBlocks)
  {
    if newBlocks == [] then []
    else
      var prefix := newBlocks[..|newBlocks| - 1];
      assert forall k :: 0 <= k < |prefix| ==> prefix[k] == newBlocks[k];
      ToOldIds(maj, oldMap, prefix) + BlockIds(maj, oldMap, newBlocks[|newBlocks| - 1])
  }

  /** The total number of states of `blocks`. */
  function StateCount(blocks: seq<Block>): nat
  {
    if blocks == [] then 0 else StateCount(blocks[..|blocks| - 1]) + |blocks[|blocks| - 1].states|
  }

  /** Where the states of block `k` start in `to_old`. */
  function FirstState(blocks: seq<Block>, k: nat): nat
    requires k <= |blocks|
  {
    StateCount(blocks[..k])
  }

  /** `to_old` has one entry per state: the entry of state `s` of block `k`
      sits at `FirstState(k) + s` and is that state's old id. */
  lemma {:induction false} ToOldLayout(maj: nat, oldMap: map<string, Block>, newBlocks: seq<Block>, k: nat, s: nat)
    requires Convertible(maj, oldMap, newBlocks)
    requires k < |newBlocks| && s < |newBlocks[k].states|
    ensures |ToOldIds(maj, oldMap, newBlocks)| == StateCount(newBlocks)
    ensures FirstState(newBlocks, k) + s < StateCount(newBlocks)
    ensures ToOldIds(maj, oldMap, newBlocks)[FirstState(newBlocks, k) + s] == StateId(maj, oldMap, newBlocks[k], s)
  {
    var n := |newBlocks|;
    var prefix := newBlocks[..n - 1];
    assert forall j :: 0 <= j < |prefix| ==> prefix[j] == newBlocks[j];
    assert Convertible(maj, oldMap, prefix);
    if k == n - 1 {
      assert newBlocks[..k] == prefix;
      ToOldLength(maj, oldMap, prefix);
    } else {
      ToOldLayout(maj, oldMap, prefix, k, s);
      assert prefix[..k] == newBlocks[..k];
    }
  }

  lemma {:induction false} ToOldLength(maj: nat, oldMap: map<string, Block>, newBlocks: seq<Block>)
    requires Convertible(maj, oldMap, newBlocks)
    ensures |ToOldIds(maj, oldMap, newBlocks)| == StateCount(newBlocks)
  {
    if newBlocks != [] {
      var prefix := newBlocks[..|newBlocks| - 1];
      assert forall j :: 0 <= j < |prefix| ==> prefix[j] == newBlocks[j];
      ToOldLength(maj, oldMap, prefix);
    }
  }

  /** One more than the largest entry; 0 for no entries. */
  function Bound(s: seq<nat>): (r: nat)
    ensures forall i :: 0 <= i < |s| ==> s[i] < r
    ensures s == [] ==> r == 0
  {
    if s == [] then 0
    else
      var prev := Bound(s[..|s| - 1]);
      assert forall i :: 0 <= i < |s| - 1 ==> s[..|s| - 1][i] == s[i];
      if prev > s[|s| - 1] + 1 then prev else s[|s| - 1] + 1
  }

  /** The bound is attained: one below it is an entry. */
  lemma {:induction false} BoundAttained(s: seq<nat>)
    requires s != []
    ensures Bound(s) - 1 in s
  {
    var prefix := s[..|s| - 1];
    if prefix != [] && Bound(prefix) > s[|s| - 1] + 1 {
      BoundAttained(prefix);
      var i :| 0 <= i < |prefix| && prefix[i] == Bound(prefix) - 1;
      assert s[i] == prefix[i];
    }
  }

  /** `to_new` inverts `to_old`: it has an entry for every id up to the
      largest old id; an old id that occurs maps to the first (lowest) new
      id holding it, and one that does not maps to 0 (air). */
  predicate Inverts(toNew: seq<nat>, toOld: seq<nat>)
  {
    |toNew| == Bound(toOld) &&
    (forall o :: 0 <= o < |toNew| && o in toOld ==> toNew[o] < |toOld| && toOld[toNew[o]] == o) &&
    (forall o, n :: 0 <= o < |toNew| && o in toOld && 0 <= n < toNew[o] ==> toOld[n] != o) &&
    (forall o :: 0 <= o < |toNew| && o !in toOld ==> toNew[o] == 0)
  }

  /** The entries of the table `find_ids` fills while reading `to_old`: after
      the first `n` new ids, an entry is set exactly for the old ids met so
      far, and holds the first new id that met it. */
  predicate FirstHits(table: seq<Option<nat>>, toOld: seq<nat>, n: nat)
    requires n <= |toOld|
  {
    (forall o :: 0 <= o < |table| ==> (table[o].Some? <==> o in toOld[..n])) &&
    (forall o :: 0 <= o < |table| && table[o].Some? ==> table[o].value < n && toOld[table[o].value] == o) &&
    (forall o, m :: 0 <= o < |table| && table[o].Some? && 0 <= m < table[o].value ==> toOld[m] != o)
  }

  lemma BoundStep(s: seq<nat>, n: nat)
    requires n < |s|
    ensures Bound(s[..n + 1]) == if Bound(s[..n]) > s[n] + 1 then Bound(s[..n]) else s[n] + 1
  {
    assert s[..n + 1][..n] == s[..n];
  }

  /** Reading new id `n` keeps `FirstHits`: its old id's entry is set unless
      an earlier new id already set it. */
  lemma FirstHitsStep(table: seq<Option<nat>>, toOld: seq<nat>, n: nat)
    requires n < |toOld| && toOld[n] < |table| && FirstHits(table, toOld, n)
    ensures FirstHits(if table[toOld[n]].None? then table[toOld[n] := Some(n)] else table, toOld, n + 1)
  {
    assert toOld[..n + 1] == toOld[..n] + [toOld[n]];
    var o := toOld[n];
    if table[o].Some? {
      assert o in toOld[..n];
    } else {
      assert o !in toOld[..n];
      forall m | 0 <= m < n
        ensures toOld[m] != o
      {
        assert toOld[m] == toOld[..n][m];
      }
    }
  }

  /** Empty entries appended past the end keep `FirstHits`. */
  lemma FirstHitsGrow(table: seq<Option<nat>>, toOld: seq<nat>, n: nat)
    requires n <= |toOld| && |table| >= Bound(toOld[..n]) && FirstHits(table, toOld, n)
    ensures FirstHits(table + [None], toOld, n)
  {
    var grown := table + [None];
    forall o | 0 <= o < |grown|
      ensures grown[o].Some? <==> o in toOld[..n]
    {
      if o == |table| {
        assert forall i :: 0 <= i < n ==> toOld[..n][i] < o;
      }
    }
  }

  /** The `to_new` loop of `find_ids`: grow the table with empty entries up
      to each old id, and fill an entry only the first time. */
  method InvertIds(toOld: seq<nat>) returns (toNew: seq<nat>)
    ensures Inverts(toNew, toOld)
  {
    var table: seq<Option<nat>> := [];
    var n := 0;
    while n < |toOld|
      invariant 0 <= n <= |toOld|
      invariant |table| == Bound(toOld[..n]) && FirstHits(table, toOld, n)
    {
      var o := toOld[n];
      BoundStep(toOld, n);
      ghost var grown := Bound(toOld[..n + 1]);
      while |table| <= o
        invariant Bound(toOld[..n]) <= |table| <= grown
        invariant FirstHits(table, toOld, n)
      {
        FirstHitsGrow(table, toOld, n);
        table := table + [None];
      }
      assert |table| == grown;
      FirstHitsStep(table, toOld, n);
      if table[o].None? {
        table := table[o := Some(n)];
      }
      assert |table| == grown;
      n := n + 1;
    }
    assert toOld[..n] == toOld;
    toNew := seq(|table|, o requires 0 <= o < |table| => if table[o].Some? then table[o].value else 0);
  }

  /** The inner loop of `find_ids`: push the old id of every state of `b`. */
  method PushStates(maj: nat, oldMap: map<string, Block>, b: Block, before: seq<nat>) returns (toOld: seq<nat>)
    requires BlockConvertible(maj, oldMap, b)
    ensures toOld == before + BlockIds(maj, oldMap, b)
  {
    toOld := before;
    var s := 0;
    while s < |b.states|
      invariant 0 <= s <= |b.states|
      invariant toOld == before + BlockIds(maj, oldMap, b)[..s]
    {
      var id;
      if maj <= 12 {
        id := OldState(b, b.states[s], oldMap);
      } else {
        var source := if b.name in oldMap then oldMap[b.name] else oldMap["air"];
        if |source.states| == |b.states| {
          id := source.id + s;
        } else {
          id := source.id;
        }
      }
      assert BlockIds(maj, oldMap, b)[..s + 1] == BlockIds(maj, oldMap, b)[..s] + [id];
      toOld := toOld + [id];
      s := s + 1;
    }
    assert BlockIds(maj, oldMap, b)[..s] == BlockIds(maj, oldMap, b);
  }

  /** `find_ids`: the `to_old` table with one old id per state of every
      latest block, and the `to_new` table inverting it. */
  method FindIds(maj: nat, oldBlocks: seq<Block>, newBlocks: seq<Block>) returns (toOld: seq<nat>, toNew: seq<nat>)
    requires Convertible(maj, OldMap(maj, oldBlocks), newBlocks)
    ensures toOld == ToOldIds(maj, OldMap(maj, oldBlocks), newBlocks)
    ensures Inverts(toNew, toOld)
  {
    var blocks := oldBlocks;
    if maj <= 12 {
      blocks := UpdateOldBlocks(blocks);
    }
    var oldMap := NameMap(blocks);
    toOld := [];
    var k := 0;
    while k < |newBlocks|
      invariant 0 <= k <= |newBlocks|
      invariant toOld == ToOldIds(maj, oldMap, newBlocks[..k])
    {
      var b := newBlocks[k];
      assert BlockConvertible(maj, oldMap, b);
      toOld := PushStates(maj, oldMap, b, toOld);
      assert newBlocks[..k + 1][..k] == newBlocks[..k];
      k := k + 1;
    }
    assert newBlocks[..k] == newBlocks;
    toNew := InvertIds(toOld);
  }
}
