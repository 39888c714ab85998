/** The table of item behaviours (`bb_server/src/item/behavior/mod.rs`):
    one optional behaviour per item type, indexed by the type's id and
    grown with empty slots when a type past the end is given one. The
    behaviour objects themselves are opaque here (the type parameter `B`),
    and an item type is represented by its id. */
module ItemBehavior {
  import opened Wrappers

  function Max(a: nat, b: nat): nat
  {
    if a < b then b else a
  }

  /** `slots` followed by empty slots up to length `n` (unchanged when it is
      already that long). */
  function Padded<B>(slots: seq<Option<B>>, n: nat): (r: seq<Option<B>>)
    ensures |r| == Max(|slots|, n)
    ensures r[..|slots|] == slots
    ensures forall i :: |slots| <= i < |r| ==> r[i].None?
    decreases n - |slots|
  {
    if n <= |slots| then slots else Padded(slots + [None], n)
  }

  /** The slots after `set(id, b)`. */
  function Assigned<B>(slots: seq<Option<B>>, id: nat, b: B): (r: seq<Option<B>>)
    ensures |r| == Max(|slots|, id + 1)
    ensures r[id] == Some(b)
    ensures forall i :: 0 <= i < |r| && i != id ==> r[i] == if i < |slots| then slots[i] else None
  {
    Padded(slots, id + 1)[id := Some(b)]
  }

  class BehaviorList<B> {
    var behaviors: seq<Option<B>>

    /** `BehaviorList::new`: an empty table, so no type has a behaviour. */
    constructor ()
      ensures behaviors == []
      ensures forall id: nat :: Get(id).None?
    {
      behaviors := [];
    }

    /** `BehaviorList::get`: the behaviour stored for `id`, none when the
        id is past the end of the table or its slot is empty. */
    function Get(id: nat): (r: Option<B>)
      reads this
      ensures r.None? <==> id >= |behaviors| || behaviors[id].None?
      ensures r.Some? ==> behaviors[id] == r
    {
      if id < |behaviors| then behaviors[id] else None
    }

    /** `BehaviorList::set`: pad the table with empty slots until `id` is
        inside it, then store the behaviour in slot `id`. Afterwards `id`
        reads back `imp` and every other id reads what it read before. */
    method Set(id: nat, imp: B)
      modifies this
      ensures behaviors == Assigned(old(behaviors), id, imp)
      ensures Get(id) == Some(imp)
      ensures forall j: nat :: j != id ==> Get(j) == old(Get(j))
      ensures |behaviors| >= |old(behaviors)|
    {
      ghost var start := behaviors;
      while id >= |behaviors|
        invariant |start| <= |behaviors| <= Max(|start|, id + 1)
        invariant behaviors == Padded(start, |behaviors|)
        decreases id + 1 - |behaviors|
      {
        behaviors := behaviors + [None];
        PaddedStep(start, |behaviors| - 1);
      }
      behaviors := behaviors[id := Some(imp)];
    }
  }

  /** Padding one slot further is padding with one more empty slot. */
  lemma {:induction false} PaddedStep<B>(slots: seq<Option<B>>, n: nat)
    requires |slots| <= n
    ensures Padded(slots, n + 1) == Padded(slots, n) + [None]
    decreases n - |slots|
  {
    if n > |slots| {
      PaddedStep(slots + [None], n);
    }
  }
}
