/**
 * The list of visual effects on screen: merges append effects, and each
 * effect is removed again by its id once it has played.
 */
module Vfx {
  import opened Wrappers

  datatype EffectKind = Explosion | Floater | Flash

  /** What a caller passes to `spawnEffect`: everything but the id and the timestamp. */
  datatype EffectSpec = EffectSpec(kind: EffectKind, x: real, y: real, color: Option<string>, text: Option<string>)

  datatype Effect = Effect(id: nat, kind: EffectKind, x: real, y: real, color: Option<string>, text: Option<string>, timestamp: int)

  /** The effect `spawnEffect` builds from a spec, an id and the clock. */
  function Stamp(e: EffectSpec, id: nat, timestamp: int): Effect
  {
    Effect(id, e.kind, e.x, e.y, e.color, e.text, timestamp)
  }

  /** The effects a run of `spawnEffect` calls appends, with consecutive ids from `firstId`. */
  function StampAll(es: seq<EffectSpec>, firstId: nat, timestamp: int): (r: seq<Effect>)
    ensures |r| == |es|
    ensures forall i :: 0 <= i < |es| ==> r[i] == Stamp(es[i], firstId + i, timestamp)
    decreases |es|
  {
    if es == [] then []
    else StampAll(es[..|es| - 1], firstId, timestamp) + [Stamp(es[|es| - 1], firstId + |es| - 1, timestamp)]
  }

  /** One more `spawnEffect` call extends the stamped run by one effect with the next id. */
  lemma StampAllSnoc(es: seq<EffectSpec>, e: EffectSpec, firstId: nat, timestamp: int)
    ensures StampAll(es + [e], firstId, timestamp) == StampAll(es, firstId, timestamp) + [Stamp(e, firstId + |es|, timestamp)]
  {
    assert (es + [e])[..|es|] == es;
  }

  /** One more spawn after a stamped run extends the run by that spec. */
  lemma SpawnedOne(e0: seq<Effect>, done: seq<EffectSpec>, e: EffectSpec, firstId: nat, timestamp: int,
                   mid: seq<Effect>, after: seq<Effect>)
    requires mid == e0 + StampAll(done, firstId, timestamp)
    requires after == mid + [Stamp(e, firstId + |done|, timestamp)]
    ensures after == e0 + StampAll(done + [e], firstId, timestamp)
  {
    StampAllSnoc(done, e, firstId, timestamp);
  }

  /** Stamping a run in two parts: the second part's ids continue where the first part's stop. */
  lemma StampAllConcat(xs: seq<EffectSpec>, ys: seq<EffectSpec>, firstId: nat, timestamp: int)
    ensures StampAll(xs + ys, firstId, timestamp) == StampAll(xs, firstId, timestamp) + StampAll(ys, firstId + |xs|, timestamp)
  {
    var l := StampAll(xs + ys, firstId, timestamp);
    var r := StampAll(xs, firstId, timestamp) + StampAll(ys, firstId + |xs|, timestamp);
    forall i | 0 <= i < |l|
      ensures l[i] == r[i]
    {
      if i < |xs| {
        assert (xs + ys)[i] == xs[i];
      } else {
        assert (xs + ys)[i] == ys[i - |xs|];
      }
    }
  }

  /** Two runs of spawns in a row leave the list a single run would. */
  lemma StampAllExtend(e0: seq<Effect>, xs: seq<EffectSpec>, ys: seq<EffectSpec>, firstId: nat, timestamp: int)
    ensures (e0 + StampAll(xs, firstId, timestamp)) + StampAll(ys, firstId + |xs|, timestamp)
      == e0 + StampAll(xs + ys, firstId, timestamp)
  {
    StampAllConcat(xs, ys, firstId, timestamp);
  }

  /** A run of spawns continuing a run already stamped leaves the list one run over both would. */
  lemma StampAllAfter(e0: seq<Effect>, xs: seq<EffectSpec>, ys: seq<EffectSpec>, firstId: nat, timestamp: int,
                      mid: seq<Effect>, midId: nat, after: seq<Effect>)
    requires mid == e0 + StampAll(xs, firstId, timestamp) && midId == firstId + |xs|
    requires after == mid + StampAll(ys, midId, timestamp)
    ensures after == e0 + StampAll(xs + ys, firstId, timestamp)
  {
    StampAllExtend(e0, xs, ys, firstId, timestamp);
  }

  /** `effects.filter(e => e.id !== id)`. */
  function WithoutId(s: seq<Effect>, id: nat): (r: seq<Effect>)
    ensures forall e :: e in r <==> e in s && e.id != id
    decreases |s|
  {
    if s == [] then []
    else (if s[0].id == id then [] else [s[0]]) + WithoutId(s[1..], id)
  }

  /** How many effects carry `id`. */
  function CountId(s: seq<Effect>, id: nat): nat
    decreases |s|
  {
    if s == [] then 0 else (if s[0].id == id then 1 else 0) + CountId(s[1..], id)
  }

  /** Removing shortens the list by exactly the number of effects with that id. */
  lemma {:induction false} RemoveLength(s: seq<Effect>, id: nat)
    ensures |WithoutId(s, id)| == |s| - CountId(s, id)
    decreases |s|
  {
    if s != [] {
      RemoveLength(s[1..], id);
    }
  }

  /** Filtering distributes over concatenation, so the kept effects stay in their order. */
  lemma {:induction false} RemoveKeepsOrder(a: seq<Effect>, b: seq<Effect>, id: nat)
    ensures WithoutId(a + b, id) == WithoutId(a, id) + WithoutId(b, id)
    decreases |a|
  {
    if a == [] {
      assert a + b == b;
    } else {
      assert (a + b)[0] == a[0] && (a + b)[1..] == a[1..] + b;
      RemoveKeepsOrder(a[1..], b, id);
    }
  }

  /** Removing an id nobody carries changes nothing. */
  lemma {:induction false} RemoveAbsent(s: seq<Effect>, id: nat)
    requires forall i :: 0 <= i < |s| ==> s[i].id != id
    ensures WithoutId(s, id) == s
    decreases |s|
  {
    if s != [] {
      RemoveAbsent(s[1..], id);
    }
  }

  /** Removing twice is removing once. */
  lemma RemoveIdempotent(s: seq<Effect>, id: nat)
    ensures WithoutId(WithoutId(s, id), id) == WithoutId(s, id)
  {
    var r := WithoutId(s, id);
    forall i | 0 <= i < |r|
      ensures r[i].id != id
    {
      assert r[i] in r;
    }
    RemoveAbsent(r, id);
  }

  class VfxStore {
    var effects: seq<Effect>
    /** Ids handed out so far; stands for the fresh value of `crypto.randomUUID()`. */
    var issued: nat

    ghost predicate Valid()
      reads this
    {
      forall i :: 0 <= i < |effects| ==> effects[i].id < issued
    }

    constructor ()
      ensures Valid() && effects == [] && issued == 0
    {
      effects, issued := [], 0;
    }

    /** Appends one effect with a fresh id and the clock's `timestamp`; the others stay as they were. */
    method Spawn(e: EffectSpec, timestamp: int)
      requires Valid()
      modifies this
      ensures Valid()
      ensures effects == old(effects) + [Stamp(e, old(issued), timestamp)]
      ensures issued == old(issued) + 1
    {
      effects := effects + [Stamp(e, issued, timestamp)];
      issued := issued + 1;
    }

    /** Drops every effect with this id and keeps the rest in order. */
    method Remove(id: nat)
      requires Valid()
      modifies this`effects
      ensures Valid()
      ensures effects == WithoutId(old(effects), id)
    {
      effects := WithoutId(effects, id);
    }
  }

  /** Removing the effect just spawned gives back the list as it was before the spawn. */
  lemma SpawnThenRemove(s: seq<Effect>, issued: nat, e: EffectSpec, timestamp: int)
    requires forall i :: 0 <= i < |s| ==> s[i].id < issued
    ensures WithoutId(s + [Stamp(e, issued, timestamp)], issued) == s
  {
    RemoveKeepsOrder(s, [Stamp(e, issued, timestamp)], issued);
    RemoveAbsent(s, issued);
    assert WithoutId([Stamp(e, issued, timestamp)], issued) == [];
  }
}
