/**
 * The board of the merge game as values: the bodies of the physics world and
 * the decisions the scene takes on top of the physics engine (which pairs
 * fuse, which orbs the halving removes, what a snapshot holds, which body a
 * laser tap hits, where a drop lands, how the danger timer reacts).
 */
module World {
  import opened Wrappers
  import opened Levels
  import opened Text
  import GameStore
  import Vfx

  /**
   * A body of the world.  `level` is the orb level the scene attaches to the
   * circles it creates (walls and the danger sensor have none); `sensor`
   * stands for the label 'sensor'.
   */
  datatype Body = Body(id: nat, x: real, y: real, radius: real, level: Option<nat>, isStatic: bool, sensor: bool)

  /** One contact the engine reports in a collision event. */
  datatype Pair = Pair(a: Body, b: Body)

  /** `!b.isStatic && b.label !== 'sensor'`: the bodies the power-ups and the halving act on. */
  predicate IsOrb(b: Body) { !b.isStatic && !b.sensor }

  predicate LevelOk(b: Body) { b.level.Some? ==> b.level.value <= MaxLevel }

  function Ids(s: seq<Body>): set<nat> { set b | b in s :: b.id }

  predicate UniqueIds(s: seq<Body>) { forall i, j :: 0 <= i < j < |s| ==> s[i].id != s[j].id }

  /** The world's invariant: distinct ids, all below the engine's id counter, levels inside the table. */
  predicate WorldValid(s: seq<Body>, nextId: nat)
  {
    UniqueIds(s) && forall i :: 0 <= i < |s| ==> s[i].id < nextId && LevelOk(s[i])
  }

  /** `World.remove` of the bodies with these ids; ids not in the world are ignored. */
  function Without(s: seq<Body>, ids: set<nat>): (r: seq<Body>)
    ensures forall b :: b in r <==> b in s && b.id !in ids
    ensures |r| <= |s|
    decreases |s|
  {
    if s == [] then [] else (if s[0].id in ids then [] else [s[0]]) + Without(s[1..], ids)
  }

  // ---------------------------------------------------------------------
  // Facts about ids

  lemma IdsCons(h: Body, t: seq<Body>)
    ensures Ids([h] + t) == {h.id} + Ids(t)
  {
    assert forall b :: b in [h] + t <==> b == h || b in t;
  }

  lemma UniqueTail(s: seq<Body>)
    requires UniqueIds(s) && s != []
    ensures UniqueIds(s[1..]) && s[0].id !in Ids(s[1..])
  {
    forall b | b in s[1..]
      ensures b.id != s[0].id
    {
      var k :| 0 <= k < |s| - 1 && s[1..][k] == b;
      assert s[k + 1] == b;
    }
  }

  lemma UniqueCons(h: Body, t: seq<Body>)
    requires UniqueIds(t) && h.id !in Ids(t)
    ensures UniqueIds([h] + t)
  {
    var s := [h] + t;
    forall i, j | 0 <= i < j < |s|
      ensures s[i].id != s[j].id
    {
      assert s[j] == t[j - 1] && s[j] in t;
      if i > 0 {
        assert s[i] == t[i - 1];
      }
    }
  }

  lemma {:induction false} IdsBound(s: seq<Body>)
    ensures |Ids(s)| <= |s|
    decreases |s|
  {
    if s == [] {
      assert Ids(s) == {};
    } else {
      assert s == [s[0]] + s[1..];
      IdsCons(s[0], s[1..]);
      IdsBound(s[1..]);
    }
  }

  /** Ids are distinct exactly when there are as many ids as bodies. */
  lemma {:induction false} UniqueIff(s: seq<Body>)
    ensures UniqueIds(s) <==> |Ids(s)| == |s|
    decreases |s|
  {
    if s == [] {
      assert Ids(s) == {};
    } else {
      var h, t := s[0], s[1..];
      assert s == [h] + t;
      IdsCons(h, t);
      IdsBound(t);
      UniqueIff(t);
      if UniqueIds(s) {
        UniqueTail(s);
      }
      if |Ids(s)| == |s| {
        assert h.id !in Ids(t);
        UniqueCons(h, t);
      }
    }
  }

  /** In a world with distinct ids a body is determined by its id. */
  lemma SameId(s: seq<Body>, a: Body, b: Body)
    requires UniqueIds(s) && a in s && b in s && a.id == b.id
    ensures a == b
  {
    var i :| 0 <= i < |s| && s[i] == a;
    var j :| 0 <= j < |s| && s[j] == b;
    assert i == j;
  }

  lemma {:induction false} WithoutUnique(s: seq<Body>, ids: set<nat>)
    requires UniqueIds(s)
    ensures UniqueIds(Without(s, ids))
    decreases |s|
  {
    if s != [] {
      UniqueTail(s);
      WithoutUnique(s[1..], ids);
      if s[0].id !in ids {
        UniqueCons(s[0], Without(s[1..], ids));
      }
    }
  }

  /** Removing from a world with distinct ids drops exactly the bodies whose ids are named. */
  lemma {:induction false} WithoutSize(s: seq<Body>, ids: set<nat>)
    requires UniqueIds(s)
    ensures |Without(s, ids)| == |s| - |ids * Ids(s)|
    decreases |s|
  {
    if s == [] {
      assert ids * Ids(s) == {};
    } else {
      var h, t := s[0], s[1..];
      assert s == [h] + t;
      IdsCons(h, t);
      UniqueTail(s);
      WithoutSize(t, ids);
      CommonStep(ids, Ids(s), Ids(t), h.id);
      assert |Without(s, ids)| == (if h.id in ids then 0 else 1) + |Without(t, ids)|;
    }
  }

  lemma CommonStep(ids: set<nat>, all: set<nat>, rest: set<nat>, x: nat)
    requires all == {x} + rest && x !in rest
    ensures |ids * all| == |ids * rest| + (if x in ids then 1 else 0)
  {
    if x in ids {
      assert ids * all == (ids * rest) + {x};
    } else {
      assert ids * all == ids * rest;
    }
  }

  lemma WithoutValid(s: seq<Body>, nextId: nat, ids: set<nat>)
    requires WorldValid(s, nextId)
    ensures WorldValid(Without(s, ids), nextId)
  {
    WithoutUnique(s, ids);
    var r := Without(s, ids);
    forall i | 0 <= i < |r|
      ensures r[i].id < nextId && LevelOk(r[i])
    {
      assert r[i] in r;
    }
  }

  lemma AppendFresh(s: seq<Body>, nextId: nat, b: Body)
    requires WorldValid(s, nextId) && b.id == nextId && LevelOk(b)
    ensures WorldValid(s + [b], nextId + 1)
  {
  }

  lemma IdsSnoc(s: seq<Body>, b: Body)
    ensures Ids(s + [b]) == Ids(s) + {b.id}
  {
    assert forall x :: x in s + [b] <==> x in s || x == b;
  }

  /** Removing one body that is in a world with distinct ids: one fewer body, that one gone, the rest kept. */
  lemma RemoveOne(s: seq<Body>, i: nat)
    requires UniqueIds(s) && i < |s|
    ensures var r := Without(s, {s[i].id});
      && |r| == |s| - 1 && s[i] !in r
      && forall b :: b in s && b != s[i] ==> b in r
  {
    assert s[i] in s;
    assert {s[i].id} * Ids(s) == {s[i].id};
    WithoutSize(s, {s[i].id});
    forall b | b in s && b != s[i]
      ensures b.id != s[i].id
    {
      if b.id == s[i].id {
        SameId(s, b, s[i]);
      }
    }
  }

  // ---------------------------------------------------------------------
  // The walls and the sensor

  /** The floor, 10 units into the bottom edge. Rectangles carry radius 0: their extent is not modelled. */
  function Ground(id: nat): Body
  {
    Body(id, GameWidth as real / 2.0, GameHeight as real + WallThickness as real / 2.0 - 10.0, 0.0, None, true, false)
  }

  function LeftWall(id: nat): Body
  {
    Body(id, 0.0 - WallThickness as real / 2.0, GameHeight as real / 2.0, 0.0, None, true, false)
  }

  function RightWall(id: nat): Body
  {
    Body(id, GameWidth as real + WallThickness as real / 2.0, GameHeight as real / 2.0, 0.0, None, true, false)
  }

  /** The danger line: a static sensor across the container at height 100. */
  function DangerSensor(id: nat): Body
  {
    Body(id, GameWidth as real / 2.0, 100.0, 0.0, None, true, true)
  }

  /** The bodies the mount effect adds after any restored orbs, in that order, with consecutive ids. */
  function Fixtures(id: nat): (f: seq<Body>)
    ensures |f| == 4 && forall i :: 0 <= i < 4 ==> f[i].id == id + i && !IsOrb(f[i]) && f[i].level.None?
  {
    [Ground(id), LeftWall(id + 1), RightWall(id + 2), DangerSensor(id + 3)]
  }

  /** A freshly mounted board is valid: the ids run from `firstId` upwards without gaps. */
  lemma MountedBoardValid(saved: seq<GameStore.SavedOrb>, firstId: nat)
    requires forall i :: 0 <= i < |saved| ==> saved[i].level <= MaxLevel
    ensures var b := Restored(saved, firstId) + Fixtures(firstId + |saved|);
      && |b| == |saved| + 4
      && (forall i :: 0 <= i < |b| ==> b[i].id == firstId + i)
      && WorldValid(b, firstId + |saved| + 4)
  {
    var b := Restored(saved, firstId) + Fixtures(firstId + |saved|);
    assert forall i :: 0 <= i < |b| ==> b[i].id == firstId + i && LevelOk(b[i]) by {
      forall i | 0 <= i < |b|
        ensures b[i].id == firstId + i && LevelOk(b[i])
      {
        if i < |saved| {
          assert b[i] == Restored(saved, firstId)[i];
        } else {
          assert b[i] == Fixtures(firstId + |saved|)[i - |saved|];
        }
      }
    }
  }

  // ---------------------------------------------------------------------
  // Physics stepping, as an input

  /** One engine step: every dynamic body takes its new position; everything else about every body stays. */
  function Moved(s: seq<Body>, positions: seq<(real, real)>): (r: seq<Body>)
    requires |positions| == |s|
    ensures |r| == |s|
    ensures forall i :: 0 <= i < |s| ==>
      && r[i].id == s[i].id && r[i].level == s[i].level && r[i].radius == s[i].radius
      && r[i].isStatic == s[i].isStatic && r[i].sensor == s[i].sensor
      && (s[i].isStatic ==> r[i] == s[i])
      && (!s[i].isStatic ==> r[i].x == positions[i].0 && r[i].y == positions[i].1)
  {
    seq(|s|, i requires 0 <= i < |s| => if s[i].isStatic then s[i] else s[i].(x := positions[i].0, y := positions[i].1))
  }

  lemma MovedValid(s: seq<Body>, nextId: nat, positions: seq<(real, real)>)
    requires WorldValid(s, nextId) && |positions| == |s|
    ensures WorldValid(Moved(s, positions), nextId)
  {
  }

  // ---------------------------------------------------------------------
  // Merging (the collisionStart handler)

  /** `bodyA.level !== undefined && bodyB.level !== undefined && bodyA.level === bodyB.level`. */
  predicate Mergeable(p: Pair)
  {
    p.a.level.Some? && p.b.level.Some? && p.a.level.value == p.b.level.value
  }

  predicate PairOk(p: Pair) { LevelOk(p.a) && LevelOk(p.b) }

  predicate PairsOk(ps: seq<Pair>) { forall i :: 0 <= i < |ps| ==> PairOk(ps[i]) }

  /** The orb a non-terminal merge creates: next level, its radius, at the midpoint of the pair. */
  function Fused(p: Pair, id: nat): (f: Body)
    requires Mergeable(p) && p.a.level.value < MaxLevel
    ensures f.id == id && IsOrb(f) && f.level == Some(p.a.level.value + 1)
    ensures f.x == (p.a.x + p.b.x) / 2.0 && f.y == (p.a.y + p.b.y) / 2.0
    ensures f.radius == Radius(p.a.level.value + 1) as real
  {
    var l := p.a.level.value;
    Body(id, (p.a.x + p.b.x) / 2.0, (p.a.y + p.b.y) / 2.0, Radius(l + 1) as real, Some(l + 1), false, false)
  }

  /** PARTICLE_COLORS, one colour per level. */
  const ParticleColors: seq<string> := [
    "#ffffff", "#fce7f3", "#fbcfe8", "#f9a8d4", "#f472b6", "#ec4899",
    "#db2777", "#be185d", "#9d174d", "#831843", "#500724"
  ]

  /** `PARTICLE_COLORS[level] || '#fff'`. */
  function ParticleColor(level: nat): (r: string)
    ensures r != ""
    ensures level <= MaxLevel ==> r == ParticleColors[level]
    ensures level > MaxLevel ==> r == "#fff"
  {
    if level < |ParticleColors| && ParticleColors[level] != "" then ParticleColors[level] else "#fff"
  }

  /** `+${ORB_LEVELS[level].score}`. */
  function FloaterText(level: nat): string
    requires level <= MaxLevel
  {
    "+" + NatToString(Score(level))
  }

  /** The floater reads as a plus sign followed by the decimal points of the level, nothing else. */
  lemma FloaterTextReadsBack(level: nat)
    requires level <= MaxLevel
    ensures var t := FloaterText(level);
      |t| >= 2 && t[0] == '+' && AllDigits(t[1..]) && ParseNat(t[1..]) == Score(level)
  {
    ScorePositive(level);
    var digits := NatToString(Score(level));
    ParseNatToString(Score(level));
    assert FloaterText(level)[1..] == digits;
  }

  /** The explosion of a merge of two level-`l` orbs, in the level's particle colour. */
  function ExplosionAt(l: nat, x: real, y: real): Vfx.EffectSpec
  {
    Vfx.EffectSpec(Vfx.Explosion, x, y, Some(ParticleColor(l)), None)
  }

  /** The amber score floater of a merge of two level-`l` orbs. */
  function FloaterAt(l: nat, x: real, y: real): Vfx.EffectSpec
    requires l <= MaxLevel
  {
    Vfx.EffectSpec(Vfx.Floater, x, y, Some("#fbbf24"), Some(FloaterText(l)))
  }

  /** The screen flash of a high-tier merge. */
  function Flash(): Vfx.EffectSpec
  {
    Vfx.EffectSpec(Vfx.Flash, 0.0, 0.0, None, None)
  }

  /** The effects of a merge of two level-`l` orbs at (x, y): an explosion, a "+points" floater, and a flash from level 8 on. */
  function MergeEffects(l: nat, x: real, y: real): (es: seq<Vfx.EffectSpec>)
    requires l < MaxLevel
    ensures |es| == (if l + 1 >= 8 then 3 else 2)
    ensures es[0].kind == Vfx.Explosion && es[0].x == x && es[0].y == y && es[0].color == Some(ParticleColor(l))
    ensures es[1].kind == Vfx.Floater && es[1].x == x && es[1].y == y && es[1].text == Some(FloaterText(l))
    ensures |es| == 3 ==> es[2].kind == Vfx.Flash
  {
    [ExplosionAt(l, x, y), FloaterAt(l, x, y)] + (if l + 1 >= 8 then [Flash()] else [])
  }

  /** What the handler has done so far: the bodies, the id counter, the points it added, the effects it spawned. */
  datatype Resolution = Resolution(bodies: seq<Body>, nextId: nat, points: nat, effects: seq<Vfx.EffectSpec>)

  /** One pair of a collisionStart event. */
  function MergePair(w: Resolution, p: Pair): Resolution
    requires PairOk(p)
  {
    if !Mergeable(p) then w
    else
      var l := p.a.level.value;
      var rest := Without(w.bodies, {p.a.id, p.b.id});
      if l < MaxLevel then
        var f := Fused(p, w.nextId);
        Resolution(rest + [f], w.nextId + 1, w.points + Score(l), w.effects + MergeEffects(l, f.x, f.y))
      else
        Resolution(rest, w.nextId, w.points + 2 * Score(l), w.effects)
  }

  /** A whole collisionStart event: the pairs one after another, in the order the engine lists them. */
  function ResolvePairs(w: Resolution, ps: seq<Pair>): Resolution
    requires PairsOk(ps)
    decreases |ps|
  {
    if ps == [] then w else MergePair(ResolvePairs(w, ps[..|ps| - 1]), ps[|ps| - 1])
  }

  /** A merge only adds to the points and effects gathered so far. */
  lemma MergeShift(w: Resolution, p: Pair)
    requires PairOk(p)
    ensures var m := MergePair(Resolution(w.bodies, w.nextId, 0, []), p);
      MergePair(w, p) == Resolution(m.bodies, m.nextId, w.points + m.points, w.effects + m.effects)
  {
  }

  /** One more pair of an event: its merge, made on the world the earlier pairs left, adds its points and effects. */
  lemma ResolveStep(w: Resolution, ps: seq<Pair>, i: nat)
    requires PairsOk(ps) && i < |ps|
    ensures PairsOk(ps[..i]) && PairsOk(ps[..i + 1])
    ensures var r := ResolvePairs(w, ps[..i]);
      var m := MergePair(Resolution(r.bodies, r.nextId, 0, []), ps[i]);
      ResolvePairs(w, ps[..i + 1]) == Resolution(m.bodies, m.nextId, r.points + m.points, r.effects + m.effects)
  {
    assert ps[..i + 1][..i] == ps[..i] && ps[..i + 1][i] == ps[i];
    MergeShift(ResolvePairs(w, ps[..i]), ps[i]);
  }

  /** A merge started from nothing gathered: what it leaves, scores (always something) and spawns. */
  lemma MergeFresh(bodies: seq<Body>, nextId: nat, p: Pair)
    requires PairOk(p) && Mergeable(p)
    ensures var l := p.a.level.value;
      var m := MergePair(Resolution(bodies, nextId, 0, []), p);
      && m.points > 0
      && (l < MaxLevel ==> var f := Fused(p, nextId);
           m == Resolution(Without(bodies, {p.a.id, p.b.id}) + [f], nextId + 1, Score(l), MergeEffects(l, f.x, f.y)))
      && (l == MaxLevel ==> m == Resolution(Without(bodies, {p.a.id, p.b.id}), nextId, 2 * Score(l), []))
  {
    var l := p.a.level.value;
    ScorePositive(l);
    if l < MaxLevel {
      var f := Fused(p, nextId);
      assert [] + MergeEffects(l, f.x, f.y) == MergeEffects(l, f.x, f.y);
    }
  }

  /** A pair of different levels, or with a body that has no level, changes nothing. */
  lemma UnequalPairIgnored(w: Resolution, p: Pair)
    requires PairOk(p) && !Mergeable(p)
    ensures MergePair(w, p) == w
  {
  }

  /**
   * Two distinct orbs of the same level below the top, both in the world,
   * become one: the count drops by one, the new orb (fresh id, next level,
   * its radius, the midpoint) comes last, every other body stays, and the
   * level's points are added.
   */
  lemma FuseEqualPair(w: Resolution, p: Pair)
    requires WorldValid(w.bodies, w.nextId) && PairOk(p) && Mergeable(p)
    requires p.a.level.value < MaxLevel
    requires p.a in w.bodies && p.b in w.bodies && p.a.id != p.b.id
    ensures var r := MergePair(w, p);
      && |r.bodies| == |w.bodies| - 1
      && r.bodies[|r.bodies| - 1] == Fused(p, w.nextId)
      && r.nextId == w.nextId + 1
      && r.points == w.points + Score(p.a.level.value)
      && p.a !in r.bodies && p.b !in r.bodies
      && (forall b :: b in w.bodies && b.id != p.a.id && b.id != p.b.id ==> b in r.bodies)
  {
    MergeFresh(w.bodies, w.nextId, p);
    MergeShift(w, p);
    FusedBodies(w.bodies, w.nextId, p);
  }

  lemma FusedBodies(s: seq<Body>, nextId: nat, p: Pair)
    requires WorldValid(s, nextId) && PairOk(p) && Mergeable(p) && p.a.level.value < MaxLevel
    requires p.a in s && p.b in s && p.a.id != p.b.id
    ensures var r := Without(s, {p.a.id, p.b.id}) + [Fused(p, nextId)];
      && |r| == |s| - 1
      && p.a !in r && p.b !in r
      && (forall b :: b in s && b.id != p.a.id && b.id != p.b.id ==> b in r)
  {
    PairRemoved(s, p);
    assert p.a.id < nextId && p.b.id < nextId by {
      var i :| 0 <= i < |s| && s[i] == p.a;
      var j :| 0 <= j < |s| && s[j] == p.b;
    }
    var rest, f := Without(s, {p.a.id, p.b.id}), Fused(p, nextId);
    assert forall b :: b in rest + [f] <==> b in rest || b == f;
  }

  /** Removing two distinct bodies of a world with distinct ids drops exactly those two. */
  lemma PairRemoved(s: seq<Body>, p: Pair)
    requires UniqueIds(s) && p.a in s && p.b in s && p.a.id != p.b.id
    ensures |Without(s, {p.a.id, p.b.id})| == |s| - 2
  {
    var ids := {p.a.id, p.b.id};
    assert ids * Ids(s) == ids;
    WithoutSize(s, ids);
  }

  /** Two top-level orbs vanish together: both removed, none added, twice the top level's points. */
  lemma FuseTopPair(w: Resolution, p: Pair)
    requires WorldValid(w.bodies, w.nextId) && PairOk(p) && Mergeable(p)
    requires p.a.level.value == MaxLevel
    requires p.a in w.bodies && p.b in w.bodies && p.a.id != p.b.id
    ensures var r := MergePair(w, p);
      && |r.bodies| == |w.bodies| - 2
      && r.nextId == w.nextId && r.effects == w.effects
      && r.points == w.points + 2 * Score(MaxLevel)
      && p.a !in r.bodies && p.b !in r.bodies
      && (forall b :: b in w.bodies && b.id != p.a.id && b.id != p.b.id ==> b in r.bodies)
  {
    var ids := {p.a.id, p.b.id};
    assert ids * Ids(w.bodies) == ids;
    WithoutSize(w.bodies, ids);
  }

  /**
   * Nothing checks that a pair's bodies are still in the world: a pair whose
   * first body an earlier pair of the same event already fused still scores
   * and still adds a new orb, so the count does not drop.
   */
  lemma StalePairStillFuses(w: Resolution, p: Pair)
    requires WorldValid(w.bodies, w.nextId) && PairOk(p) && Mergeable(p)
    requires p.a.level.value < MaxLevel
    requires p.a.id !in Ids(w.bodies) && p.b in w.bodies
    ensures var r := MergePair(w, p);
      && |r.bodies| == |w.bodies|
      && r.points == w.points + Score(p.a.level.value)
  {
    var ids := {p.a.id, p.b.id};
    assert ids * Ids(w.bodies) == {p.b.id};
    WithoutSize(w.bodies, ids);
  }

  lemma FusedValid(s: seq<Body>, nextId: nat, p: Pair)
    requires WorldValid(s, nextId) && PairOk(p) && Mergeable(p) && p.a.level.value < MaxLevel
    ensures WorldValid(Without(s, {p.a.id, p.b.id}) + [Fused(p, nextId)], nextId + 1)
  {
    WithoutValid(s, nextId, {p.a.id, p.b.id});
    AppendFresh(Without(s, {p.a.id, p.b.id}), nextId, Fused(p, nextId));
  }

  /** A merge keeps the world valid and never takes points away. */
  lemma MergeKeepsValid(w: Resolution, p: Pair)
    requires WorldValid(w.bodies, w.nextId) && PairOk(p)
    ensures var r := MergePair(w, p);
      WorldValid(r.bodies, r.nextId) && r.points >= w.points && r.nextId >= w.nextId
  {
    if Mergeable(p) {
      WithoutValid(w.bodies, w.nextId, {p.a.id, p.b.id});
      if p.a.level.value < MaxLevel {
        AppendFresh(Without(w.bodies, {p.a.id, p.b.id}), w.nextId, Fused(p, w.nextId));
      }
    }
  }

  lemma {:induction false} ResolveKeepsValid(w: Resolution, ps: seq<Pair>)
    requires WorldValid(w.bodies, w.nextId) && PairsOk(ps)
    ensures var r := ResolvePairs(w, ps);
      WorldValid(r.bodies, r.nextId) && r.points >= w.points && r.nextId >= w.nextId
    decreases |ps|
  {
    if ps != [] {
      ResolveKeepsValid(w, ps[..|ps| - 1]);
      MergeKeepsValid(ResolvePairs(w, ps[..|ps| - 1]), ps[|ps| - 1]);
    }
  }

  /** Pairs are handled one after another: an event is the same as its first part followed by the rest. */
  lemma {:induction false} ResolveConcat(w: Resolution, xs: seq<Pair>, ys: seq<Pair>)
    requires PairsOk(xs) && PairsOk(ys)
    ensures PairsOk(xs + ys)
    ensures ResolvePairs(w, xs + ys) == ResolvePairs(ResolvePairs(w, xs), ys)
    decreases |ys|
  {
    assert PairsOk(xs + ys) by {
      forall i | 0 <= i < |xs + ys|
        ensures PairOk((xs + ys)[i])
      {
        if i < |xs| {
          assert (xs + ys)[i] == xs[i];
        } else {
          assert (xs + ys)[i] == ys[i - |xs|];
        }
      }
    }
    if ys == [] {
      assert xs + ys == xs;
    } else {
      var zs := xs + ys;
      assert zs[..|zs| - 1] == xs + ys[..|ys| - 1];
      assert zs[|zs| - 1] == ys[|ys| - 1];
      ResolveConcat(w, xs, ys[..|ys| - 1]);
    }
  }

  // ---------------------------------------------------------------------
  // Halving (the revive effect)

  predicate SortedByY(s: seq<Body>) { forall i, j :: 0 <= i < j < |s| ==> s[i].y <= s[j].y }

  function InsertByY(b: Body, s: seq<Body>): (r: seq<Body>)
    ensures |r| == |s| + 1
    ensures multiset(r) == multiset(s) + multiset{b}
    ensures forall x :: x in r <==> x == b || x in s
    decreases |s|
  {
    if s == [] || b.y <= s[0].y then [b] + s
    else
      var r := [s[0]] + InsertByY(b, s[1..]);
      assert s == [s[0]] + s[1..];
      r
  }

  /** Inserting into a list sorted by height keeps it sorted. */
  lemma {:induction false} InsertKeepsSorted(b: Body, s: seq<Body>)
    requires SortedByY(s)
    ensures SortedByY(InsertByY(b, s))
    decreases |s|
  {
    if s == [] || b.y <= s[0].y {
      forall x | x in s
        ensures b.y <= x.y
      {
        var k :| 0 <= k < |s| && s[k] == x;
        assert s[0].y <= s[k].y;
      }
      ConsSorted(b, s);
    } else {
      var t := InsertByY(b, s[1..]);
      InsertKeepsSorted(b, s[1..]);
      forall x | x in t
        ensures s[0].y <= x.y
      {
        if x != b {
          var k :| 0 <= k < |s[1..]| && s[1..][k] == x;
          assert x == s[k + 1];
        }
      }
      ConsSorted(s[0], t);
    }
  }

  /** A body no lower than every body of a sorted list can go in front of it. */
  lemma ConsSorted(h: Body, t: seq<Body>)
    requires SortedByY(t) && forall x :: x in t ==> h.y <= x.y
    ensures SortedByY([h] + t)
  {
    var r := [h] + t;
    forall i, j | 0 <= i < j < |r|
      ensures r[i].y <= r[j].y
    {
      assert r[j] == t[j - 1] && t[j - 1] in t;
      if i > 0 {
        assert r[i] == t[i - 1];
      }
    }
  }

  /** `orbs.sort((a, b) => a.position.y - b.position.y)`: top to bottom, stable (an insertion sort). */
  function SortByY(s: seq<Body>): (r: seq<Body>)
    ensures |r| == |s| && multiset(r) == multiset(s) && SortedByY(r)
    ensures forall x :: x in r <==> x in s
    decreases |s|
  {
    if s == [] then []
    else
      assert s == [s[0]] + s[1..];
      var t := SortByY(s[1..]);
      InsertKeepsSorted(s[0], t);
      InsertByY(s[0], t)
  }

  /** The bodies of `s` at height `v`, in their order in `s`. */
  function AtHeight(s: seq<Body>, v: real): seq<Body>
    decreases |s|
  {
    if s == [] then [] else (if s[0].y == v then [s[0]] else []) + AtHeight(s[1..], v)
  }

  /** An inserted body goes in front of the bodies at its own height. */
  lemma {:induction false} InsertAtHeight(b: Body, s: seq<Body>, v: real)
    ensures AtHeight(InsertByY(b, s), v) == (if b.y == v then [b] else []) + AtHeight(s, v)
    decreases |s|
  {
    if s == [] || b.y <= s[0].y {
      assert InsertByY(b, s) == [b] + s;
      AtHeightCons(b, s, v);
    } else {
      var t := InsertByY(b, s[1..]);
      assert InsertByY(b, s) == [s[0]] + t;
      AtHeightCons(s[0], t, v);
      InsertAtHeight(b, s[1..], v);
      AtHeightCons(s[0], s[1..], v);
      assert [s[0]] + s[1..] == s;
      SwapHeights(s[0], b, AtHeight(s[1..], v), v);
    }
  }

  /** Two bodies at different heights cannot both be kept by `AtHeight`, so their order does not matter. */
  lemma SwapHeights(h: Body, b: Body, rest: seq<Body>, v: real)
    requires h.y < b.y
    ensures (if h.y == v then [h] else []) + ((if b.y == v then [b] else []) + rest)
         == (if b.y == v then [b] else []) + ((if h.y == v then [h] else []) + rest)
  {
    if h.y == v {
      assert [h] + ([] + rest) == [] + ([h] + rest);
    } else if b.y == v {
      assert [] + ([b] + rest) == [b] + ([] + rest);
    } else {
      assert [] + ([] + rest) == [] + ([] + rest);
    }
  }

  lemma AtHeightCons(h: Body, t: seq<Body>, v: real)
    ensures AtHeight([h] + t, v) == (if h.y == v then [h] else []) + AtHeight(t, v)
  {
    assert ([h] + t)[1..] == t;
  }

  /**
   * The sort is stable: the bodies at any one height keep their relative
   * order, as `Array.prototype.sort` guarantees.  With sortedness and the
   * permutation this pins the result down exactly.
   */
  lemma {:induction false} SortByYStable(s: seq<Body>, v: real)
    ensures AtHeight(SortByY(s), v) == AtHeight(s, v)
    decreases |s|
  {
    if s != [] {
      SortByYStable(s[1..], v);
      InsertAtHeight(s[0], SortByY(s[1..]), v);
    }
  }

  /** `bodies.filter(b => !b.isStatic && b.label !== 'sensor')`. */
  function Orbs(s: seq<Body>): (r: seq<Body>)
    ensures forall b :: b in r <==> b in s && IsOrb(b)
    ensures |r| <= |s|
    decreases |s|
  {
    if s == [] then [] else (if IsOrb(s[0]) then [s[0]] else []) + Orbs(s[1..])
  }

  /** The orbs the halving takes away: the first ⌊n/2⌋ of the orbs sorted by height. */
  function ReviveRemoved(s: seq<Body>): (r: seq<Body>)
    ensures |r| == |Orbs(s)| / 2
    ensures forall b :: b in r ==> b in s && IsOrb(b)
  {
    var o := SortByY(Orbs(s));
    o[..|o| / 2]
  }

  /** The world after the halving. */
  function Revived(s: seq<Body>): seq<Body>
  {
    Without(s, Ids(ReviveRemoved(s)))
  }

  lemma {:induction false} OrbsUnique(s: seq<Body>)
    requires UniqueIds(s)
    ensures UniqueIds(Orbs(s))
    decreases |s|
  {
    if s != [] {
      UniqueTail(s);
      OrbsUnique(s[1..]);
      if IsOrb(s[0]) {
        UniqueCons(s[0], Orbs(s[1..]));
      }
    }
  }

  lemma SortUnique(s: seq<Body>)
    requires UniqueIds(s)
    ensures UniqueIds(SortByY(s))
  {
    var r := SortByY(s);
    assert Ids(r) == Ids(s);
    UniqueIff(s);
    UniqueIff(r);
  }

  lemma RemovedFacts(s: seq<Body>)
    requires UniqueIds(s)
    ensures var o := SortByY(Orbs(s)); var k := |Orbs(s)| / 2;
      && UniqueIds(o) && |o| == |Orbs(s)| && ReviveRemoved(s) == o[..k]
      && |Ids(ReviveRemoved(s))| == k
      && Ids(ReviveRemoved(s)) <= Ids(s)
      && (forall b :: b in ReviveRemoved(s) ==> b in s && IsOrb(b))
  {
    var o := SortByY(Orbs(s));
    var k := |Orbs(s)| / 2;
    OrbsUnique(s);
    SortUnique(Orbs(s));
    var p := o[..k];
    assert UniqueIds(p);
    UniqueIff(p);
    forall b | b in p
      ensures b in s && IsOrb(b)
    {
      assert b in o;
    }
  }

  /** With n orbs in the world the halving removes exactly ⌊n/2⌋ bodies. */
  lemma ReviveRemovesHalf(s: seq<Body>)
    requires UniqueIds(s)
    ensures |ReviveRemoved(s)| == |Orbs(s)| / 2
    ensures |Revived(s)| == |s| - |Orbs(s)| / 2
  {
    RemovedFacts(s);
    var ids := Ids(ReviveRemoved(s));
    assert ids * Ids(s) == ids;
    WithoutSize(s, ids);
  }

  /** In a list sorted by height, a body of the first `k` is no lower than a body whose id is not among them. */
  lemma PrefixAbove(o: seq<Body>, k: nat, r: Body, b: Body)
    requires SortedByY(o) && k <= |o|
    requires r in o[..k] && b in o && b.id !in Ids(o[..k])
    ensures r.y <= b.y
  {
    var p := o[..k];
    var i :| 0 <= i < k && p[i] == r;
    var j :| 0 <= j < |o| && o[j] == b;
    assert forall m :: 0 <= m < k ==> o[m].id in Ids(p) by {
      forall m | 0 <= m < k
        ensures o[m].id in Ids(p)
      {
        assert p[m] == o[m];
      }
    }
    assert o[i] == r;
  }

  /** Every removed orb is at least as high (smaller y) as every orb that stays. */
  lemma ReviveRemovesTopmost(s: seq<Body>)
    requires UniqueIds(s)
    ensures forall r, o :: r in ReviveRemoved(s) && o in Revived(s) && IsOrb(o) ==> r.y <= o.y
  {
    var o := SortByY(Orbs(s));
    var k := |Orbs(s)| / 2;
    assert ReviveRemoved(s) == o[..k];
    forall r, b | r in ReviveRemoved(s) && b in Revived(s) && IsOrb(b)
      ensures r.y <= b.y
    {
      assert b in s && b.id !in Ids(o[..k]);
      assert b in Orbs(s);
      PrefixAbove(o, k, r, b);
    }
  }

  /** Walls and the sensor never go: every non-orb body of the world is still there after halving. */
  lemma ReviveKeepsStatic(s: seq<Body>)
    requires UniqueIds(s)
    ensures forall b :: b in s && !IsOrb(b) ==> b in Revived(s)
  {
    RemovedFacts(s);
    forall b | b in s && !IsOrb(b)
      ensures b.id !in Ids(ReviveRemoved(s))
    {
      forall r | r in ReviveRemoved(s)
        ensures r.id != b.id
      {
        if r.id == b.id {
          SameId(s, r, b);
        }
      }
    }
  }

  /** With no orbs the halving leaves the world as it is. */
  lemma ReviveWithoutOrbs(s: seq<Body>)
    requires Orbs(s) == []
    ensures Revived(s) == s
  {
    assert ReviveRemoved(s) == [];
    assert Ids(ReviveRemoved(s)) == {};
    WithoutNothing(s);
  }

  lemma {:induction false} WithoutNothing(s: seq<Body>)
    ensures Without(s, {}) == s
    decreases |s|
  {
    if s != [] {
      WithoutNothing(s[1..]);
    }
  }

  lemma {:induction false} WithoutUnion(s: seq<Body>, a: set<nat>, b: set<nat>)
    ensures Without(Without(s, a), b) == Without(s, a + b)
    decreases |s|
  {
    if s != [] {
      WithoutUnion(s[1..], a, b);
      var h := if s[0].id in a then [] else [s[0]];
      assert Without(s, a) == h + Without(s[1..], a);
      WithoutConcat(h, Without(s[1..], a), b);
    }
  }

  /** Removing the bodies of a list one at a time, in its order, is removing all of their ids at once. */
  lemma RemoveStep(s: seq<Body>, t: seq<Body>, k: nat)
    requires k < |t|
    ensures Without(Without(s, Ids(t[..k])), {t[k].id}) == Without(s, Ids(t[..k + 1]))
  {
    assert t[..k + 1] == t[..k] + [t[k]];
    IdsSnoc(t[..k], t[k]);
    WithoutUnion(s, Ids(t[..k]), {t[k].id});
  }

  lemma RemoveNone(s: seq<Body>, t: seq<Body>)
    ensures Without(s, Ids(t[..0])) == s
  {
    assert Ids(t[..0]) == {};
    WithoutNothing(s);
  }

  lemma {:induction false} WithoutConcat(x: seq<Body>, y: seq<Body>, ids: set<nat>)
    ensures Without(x + y, ids) == Without(x, ids) + Without(y, ids)
    decreases |x|
  {
    if x == [] {
      assert x + y == y;
    } else {
      assert (x + y)[0] == x[0] && (x + y)[1..] == x[1..] + y;
      WithoutConcat(x[1..], y, ids);
    }
  }

  // ---------------------------------------------------------------------
  // Snapshot and restore

  /** An orb the auto-save writes: not static, not the sensor, with a level. */
  predicate Saveable(b: Body) { IsOrb(b) && b.level.Some? }

  /** `circleRadius || ORB_LEVELS[level].radius`. */
  function SavedRadius(b: Body): real
    requires Saveable(b) && LevelOk(b)
  {
    if b.radius != 0.0 then b.radius else Radius(b.level.value) as real
  }

  predicate LevelsOk(s: seq<Body>) { forall i :: 0 <= i < |s| ==> LevelOk(s[i]) }

  /** The `{x, y, radius, level}` of every saveable body, in world order. */
  function Snapshot(s: seq<Body>): seq<GameStore.SavedOrb>
    requires LevelsOk(s)
    decreases |s|
  {
    if s == [] then []
    else
      (if Saveable(s[0]) then [GameStore.SavedOrb(s[0].x, s[0].y, SavedRadius(s[0]), s[0].level.value)] else [])
      + Snapshot(s[1..])
  }

  /** The circles the mount effect rebuilds from a saved board, with engine ids from `firstId` on. */
  function Restored(saved: seq<GameStore.SavedOrb>, firstId: nat): (r: seq<Body>)
    ensures |r| == |saved|
    ensures forall i :: 0 <= i < |r| ==> r[i] == Body(firstId + i, saved[i].x, saved[i].y, saved[i].radius, Some(saved[i].level), false, false)
    decreases |saved|
  {
    if saved == [] then []
    else [Body(firstId, saved[0].x, saved[0].y, saved[0].radius, Some(saved[0].level), false, false)] + Restored(saved[1..], firstId + 1)
  }

  lemma RestoredSnoc(saved: seq<GameStore.SavedOrb>, firstId: nat, k: nat)
    requires k < |saved|
    ensures Restored(saved[..k + 1], firstId)
      == Restored(saved[..k], firstId) + [Body(firstId + k, saved[k].x, saved[k].y, saved[k].radius, Some(saved[k].level), false, false)]
  {
    var l := Restored(saved[..k + 1], firstId);
    var r := Restored(saved[..k], firstId) + [Body(firstId + k, saved[k].x, saved[k].y, saved[k].radius, Some(saved[k].level), false, false)];
    assert |l| == |r|;
    forall i | 0 <= i < |l|
      ensures l[i] == r[i]
    {
      assert saved[..k + 1][i] == saved[i];
      if i < k {
        assert saved[..k][i] == saved[i];
      }
    }
  }

  predicate SavedLevelsOk(saved: seq<GameStore.SavedOrb>) { forall i :: 0 <= i < |saved| ==> saved[i].level <= MaxLevel }

  predicate SavedRadiiNonZero(saved: seq<GameStore.SavedOrb>) { forall i :: 0 <= i < |saved| ==> saved[i].radius != 0.0 }

  lemma {:induction false} SnapshotConcat(x: seq<Body>, y: seq<Body>)
    requires LevelsOk(x) && LevelsOk(y)
    ensures LevelsOk(x + y) && Snapshot(x + y) == Snapshot(x) + Snapshot(y)
    decreases |x|
  {
    assert LevelsOk(x + y) by {
      forall i | 0 <= i < |x + y|
        ensures LevelOk((x + y)[i])
      {
        if i < |x| { assert (x + y)[i] == x[i]; } else { assert (x + y)[i] == y[i - |x|]; }
      }
    }
    if x == [] {
      assert x + y == y;
    } else {
      assert (x + y)[0] == x[0] && (x + y)[1..] == x[1..] + y;
      SnapshotConcat(x[1..], y);
    }
  }

  /** A snapshot's radii are never zero and its levels lie inside the table. */
  lemma {:induction false} SnapshotWellFormed(s: seq<Body>)
    requires LevelsOk(s)
    ensures SavedRadiiNonZero(Snapshot(s)) && SavedLevelsOk(Snapshot(s))
    decreases |s|
  {
    if s != [] {
      SnapshotWellFormed(s[1..]);
      if Saveable(s[0]) {
        EveryOrbFits(s[0].level.value);
      }
    }
  }

  /** Saving a freshly restored board gives back the saved list. */
  lemma {:induction false} SnapshotOfRestored(saved: seq<GameStore.SavedOrb>, firstId: nat)
    requires SavedLevelsOk(saved) && SavedRadiiNonZero(saved)
    ensures LevelsOk(Restored(saved, firstId))
    ensures Snapshot(Restored(saved, firstId)) == saved
    decreases |saved|
  {
    if saved != [] {
      SnapshotOfRestored(saved[1..], firstId + 1);
      var r := Restored(saved, firstId);
      assert r[1..] == Restored(saved[1..], firstId + 1);
    }
  }

  /** Mounting from a saved board and saving at once writes the saved board back unchanged. */
  lemma RestoreThenSave(saved: seq<GameStore.SavedOrb>, firstId: nat)
    requires SavedLevelsOk(saved) && SavedRadiiNonZero(saved)
    ensures var b := Restored(saved, firstId) + Fixtures(firstId + |saved|);
      LevelsOk(b) && Snapshot(b) == saved
  {
    var f := Fixtures(firstId + |saved|);
    SnapshotOfRestored(saved, firstId);
    assert LevelsOk(f);
    SnapshotConcat(Restored(saved, firstId), f);
    SnapshotSkipsStatic(f);
  }

  lemma {:induction false} SnapshotSkipsStatic(s: seq<Body>)
    requires LevelsOk(s) && forall i :: 0 <= i < |s| ==> !Saveable(s[i])
    ensures Snapshot(s) == []
    decreases |s|
  {
    if s != [] {
      SnapshotSkipsStatic(s[1..]);
    }
  }

  /**
   * The round trip: the board restored from a snapshot, with the walls and
   * the sensor added after it, saves to the same `{x, y, radius, level}` list.
   */
  lemma RestoreRoundTrip(s: seq<Body>, firstId: nat, fixtures: seq<Body>)
    requires LevelsOk(s) && LevelsOk(fixtures)
    requires forall i :: 0 <= i < |fixtures| ==> !Saveable(fixtures[i])
    ensures var saved := Snapshot(s);
      LevelsOk(Restored(saved, firstId) + fixtures)
      && Snapshot(Restored(saved, firstId) + fixtures) == saved
  {
    var saved := Snapshot(s);
    SnapshotWellFormed(s);
    SnapshotOfRestored(saved, firstId);
    SnapshotConcat(Restored(saved, firstId), fixtures);
    SnapshotSkipsStatic(fixtures);
  }

  // ---------------------------------------------------------------------
  // Pointer input

  function RMax(a: real, b: real): real { if a >= b then a else b }
  function RMin(a: real, b: real): real { if a <= b then a else b }

  /** `Math.max(r, Math.min(GAME_WIDTH - r, x))`. */
  function ClampX(x: real, r: real): (c: real)
    ensures 2.0 * r <= GameWidth as real ==> r <= c <= GameWidth as real - r
    ensures r <= x <= GameWidth as real - r ==> c == x
  {
    RMax(r, RMin(GameWidth as real - r, x))
  }

  /** The point lies on the body's disc. */
  predicate HitBy(b: Body, px: real, py: real)
  {
    (px - b.x) * (px - b.x) + (py - b.y) * (py - b.y) <= b.radius * b.radius
  }

  predicate IsTarget(b: Body, px: real, py: real) { IsOrb(b) && HitBy(b, px, py) }

  /** `Query.point(bodies, {x, y}).find(b => !b.isStatic && b.label !== 'sensor')`, as an index. */
  function FirstTarget(s: seq<Body>, px: real, py: real): (r: Option<nat>)
    ensures r.Some? ==> r.value < |s| && IsTarget(s[r.value], px, py)
    ensures forall j :: 0 <= j < |s| && (r.None? || j < r.value) ==> !IsTarget(s[j], px, py)
    decreases |s|
  {
    if s == [] then None
    else if IsTarget(s[0], px, py) then Some(0)
    else
      match FirstTarget(s[1..], px, py)
      case None => None
      case Some(i) => Some(i + 1)
  }

  /** The orb a normal tap drops: level `level`, at height 50, horizontally clamped. */
  function DroppedOrb(id: nat, x: real, level: nat): (b: Body)
    requires level <= MaxLevel
    ensures IsOrb(b) && b.level == Some(level) && b.y == 50.0
    ensures b.radius <= b.x <= GameWidth as real - b.radius
  {
    EveryOrbFits(level);
    var r := Radius(level) as real;
    Body(id, ClampX(x, r), 50.0, r, Some(level), false, false)
  }

  // ---------------------------------------------------------------------
  // The danger timer (the collisionActive handler)

  /** `sensorTimer`: null, a pending timeout started at `start`, or a timeout that already fired. */
  datatype DangerTimer = Idle | Pending(start: int) | Fired

  /** Some pair of the event has the sensor as one of its bodies. */
  predicate TouchesSensor(ps: seq<Pair>, sensorId: nat)
  {
    exists i :: 0 <= i < |ps| && (ps[i].a.id == sensorId || ps[i].b.id == sensorId)
  }

  /** One collisionActive event: arm if unarmed while touching, clear whenever nothing touches. */
  function AfterActive(t: DangerTimer, touching: bool, now: int): DangerTimer
  {
    if touching then (if t.Idle? then Pending(now) else t) else Idle
  }

  /** A run of collisionActive events, each a (touching, time) pair. */
  function AfterEvents(t: DangerTimer, evs: seq<(bool, int)>): DangerTimer
    decreases |evs|
  {
    if evs == [] then t else AfterActive(AfterEvents(t, evs[..|evs| - 1]), evs[|evs| - 1].0, evs[|evs| - 1].1)
  }

  predicate AllTouching(evs: seq<(bool, int)>) { forall i :: 0 <= i < |evs| ==> evs[i].0 }

  /** Uninterrupted contact keeps the time of its first event: later events never restart the timer. */
  lemma {:induction false} ContactKeepsStart(t: DangerTimer, evs: seq<(bool, int)>)
    requires evs != [] && AllTouching(evs)
    ensures AfterEvents(t, evs) == if t.Idle? then Pending(evs[0].1) else t
    decreases |evs|
  {
    if |evs| > 1 {
      ContactKeepsStart(t, evs[..|evs| - 1]);
    }
  }

  /**
   * A gap in contact starts afresh: after an event without the sensor, the
   * timer is clear, and the contact that follows is timed from its own first
   * event.
   */
  lemma GapRestartsTimer(t: DangerTimer, pre: seq<(bool, int)>, gap: int, post: seq<(bool, int)>)
    requires AllTouching(post)
    ensures AfterEvents(t, pre + [(false, gap)] + post) == if post == [] then Idle else Pending(post[0].1)
  {
    var evs := pre + [(false, gap)];
    assert evs[..|evs| - 1] == pre;
    assert AfterEvents(t, evs) == Idle;
    if post != [] {
      EventsConcat(t, evs, post);
      ContactKeepsStart(Idle, post);
    } else {
      assert evs + post == evs;
    }
  }

  lemma {:induction false} EventsConcat(t: DangerTimer, xs: seq<(bool, int)>, ys: seq<(bool, int)>)
    ensures AfterEvents(t, xs + ys) == AfterEvents(AfterEvents(t, xs), ys)
    decreases |ys|
  {
    if ys == [] {
      assert xs + ys == xs;
    } else {
      var zs := xs + ys;
      assert zs[..|zs| - 1] == xs + ys[..|ys| - 1];
      EventsConcat(t, xs, ys[..|ys| - 1]);
    }
  }

  /** The pending timeout has run its GAME_OVER_TIME by `now`. */
  predicate Expired(t: DangerTimer, now: int)
  {
    t.Pending? && now - t.start >= GameOverTime
  }
}
