/**
 * The game board component: the world of bodies it owns, the handlers it
 * registers on the physics engine (collisionStart merges, collisionActive
 * danger line), the auto-save tick, the revive effect, and the pointer
 * handler (drop or laser).  Physics stepping and the clock are inputs.
 */
module PhysicsScene {
  import opened Wrappers
  import opened Levels
  import opened Text
  import opened World
  import GameStore
  import Vfx

  class Scene {
    /** `Composite.allBodies(world)`, in insertion order. */
    var bodies: seq<Body>
    /** The engine's id counter: the id the next created body receives. */
    var nextBodyId: nat
    var sensorId: nat
    /** The handler's `sensorTimer` variable. */
    var sensorTimer: DangerTimer
    /** The runner is stepping the engine. */
    var running: bool
    var canDrop: bool
    /** When the pending `setCanDrop(true)` timeout is due, if one is pending. */
    var dropReadyAt: Option<int>
    var laserMode: bool

    ghost predicate Valid()
      reads this
    {
      WorldValid(bodies, nextBodyId) && (canDrop <==> dropReadyAt.None?)
    }

    /**
     * The mount effect: rebuild the saved board if there is one and the game
     * is not over, then add the floor, the two walls and the danger sensor,
     * and start the runner.  Engine ids are handed out from `firstId`.
     */
    constructor Mount(store: GameStore.Store, firstId: nat)
      requires |store.savedOrbs| > 0 && !store.isGameOver ==> SavedLevelsOk(store.savedOrbs)
      ensures Valid()
      ensures var saved := if |store.savedOrbs| > 0 && !store.isGameOver then store.savedOrbs else [];
        && bodies == Restored(saved, firstId) + Fixtures(firstId + |saved|)
        && sensorId == firstId + |saved| + 3
        && nextBodyId == firstId + |saved| + 4
      ensures sensorTimer == Idle && running && canDrop && dropReadyAt.None? && !laserMode
    {
      var bs: seq<Body> := [];
      var saved: seq<GameStore.SavedOrb> := [];
      if |store.savedOrbs| > 0 && !store.isGameOver {
        saved := store.savedOrbs;
        bs := RestoreOrbs(saved, firstId);
      }
      var id := firstId + |saved|;
      ghost var restored := bs;
      bs := bs + [Ground(id), LeftWall(id + 1), RightWall(id + 2)];
      bs := bs + [DangerSensor(id + 3)];
      assert bs == restored + Fixtures(id);
      MountedBoardValid(saved, firstId);
      bodies := bs;
      sensorId := id + 3;
      nextBodyId := id + 4;
      sensorTimer := Idle;
      running := true;
      canDrop := true;
      dropReadyAt := None;
      laserMode := false;
    }

    /** The `forEach` over the saved orbs: one orb body per saved orb, with consecutive engine ids from `firstId`. */
    static method RestoreOrbs(saved: seq<GameStore.SavedOrb>, firstId: nat) returns (bs: seq<Body>)
      ensures bs == Restored(saved, firstId)
    {
      bs := [];
      var id := firstId;
      for k := 0 to |saved|
        invariant bs == Restored(saved[..k], firstId) && id == firstId + k
      {
        RestoredSnoc(saved, firstId, k);
        bs := bs + [Body(id, saved[k].x, saved[k].y, saved[k].radius, Some(saved[k].level), false, false)];
        id := id + 1;
      }
      assert saved[..|saved|] == saved;
    }

    /** One pair of a collisionStart event: the body of the handler's `forEach`. */
    method MergeOne(p: Pair, store: GameStore.Store, vfx: Vfx.VfxStore, now: int) returns (ghost m: Resolution)
      requires Valid() && vfx.Valid() && PairOk(p)
      modifies this`bodies, this`nextBodyId, store`score, store`highScore, vfx
      ensures Valid() && vfx.Valid()
      ensures m == MergePair(Resolution(old(bodies), old(nextBodyId), 0, []), p)
      ensures bodies == m.bodies && nextBodyId == m.nextId
      ensures store.score == old(store.score) + m.points
      ensures store.highScore == (if m.points > 0 then GameStore.Max(old(store.highScore), store.score) else old(store.highScore))
      ensures vfx.effects == old(vfx.effects) + Vfx.StampAll(m.effects, old(vfx.issued), now)
      ensures vfx.issued == old(vfx.issued) + |m.effects|
    {
      ghost var w := Resolution(bodies, nextBodyId, 0, []);
      m := MergePair(w, p);
      if p.a.level.Some? && p.b.level.Some? && p.a.level.value == p.b.level.value {
        var level := p.a.level.value;
        MergeFresh(bodies, nextBodyId, p);
        if level < MaxLevel {
          Fuse(p, store, vfx, now);
        } else {
          Vanish(p, store);
          assert vfx.effects == old(vfx.effects) + [];
        }
      } else {
        assert m == w;
        assert vfx.effects == old(vfx.effects) + [];
      }
    }

    /** A pair of equal orbs below the top level fuse into one orb of the next level at their midpoint. */
    method Fuse(p: Pair, store: GameStore.Store, vfx: Vfx.VfxStore, now: int)
      requires Valid() && vfx.Valid() && PairOk(p) && Mergeable(p) && p.a.level.value < MaxLevel
      modifies this`bodies, this`nextBodyId, store`score, store`highScore, vfx
      ensures Valid() && vfx.Valid()
      ensures var f := Fused(p, old(nextBodyId));
        && bodies == Without(old(bodies), {p.a.id, p.b.id}) + [f]
        && nextBodyId == old(nextBodyId) + 1
        && store.score == old(store.score) + Score(p.a.level.value)
        && store.highScore == GameStore.Max(old(store.highScore), store.score)
        && vfx.effects == old(vfx.effects) + Vfx.StampAll(MergeEffects(p.a.level.value, f.x, f.y), old(vfx.issued), now)
        && vfx.issued == old(vfx.issued) + |MergeEffects(p.a.level.value, f.x, f.y)|
    {
      var level := p.a.level.value;
      var midX := (p.a.x + p.b.x) / 2.0;
      var midY := (p.a.y + p.b.y) / 2.0;
      FusedValid(bodies, nextBodyId, p);
      bodies := Without(bodies, {p.a.id, p.b.id});
      var newOrb := Fused(p, nextBodyId);
      assert newOrb.x == midX && newOrb.y == midY;
      bodies := bodies + [newOrb];
      nextBodyId := nextBodyId + 1;
      store.AddScore(Score(level));
      assert Valid();
      SpawnMergeEffects(vfx, level, midX, midY, now);
    }

    /** A pair of top-level orbs: both go, nothing is added, and twice the level's points are scored. */
    method Vanish(p: Pair, store: GameStore.Store)
      requires Valid() && PairOk(p) && Mergeable(p) && p.a.level.value == MaxLevel
      modifies this`bodies, store`score, store`highScore
      ensures Valid()
      ensures bodies == Without(old(bodies), {p.a.id, p.b.id})
      ensures store.score == old(store.score) + 2 * Score(MaxLevel)
      ensures store.highScore == GameStore.Max(old(store.highScore), store.score)
    {
      var level := p.a.level.value;
      WithoutValid(bodies, nextBodyId, {p.a.id, p.b.id});
      bodies := Without(bodies, {p.a.id, p.b.id});
      store.AddScore(Score(level) * 2);
    }

    /** The explosion, the floater and, from level 8 on, the flash of one merge. */
    method SpawnMergeEffects(vfx: Vfx.VfxStore, level: nat, midX: real, midY: real, now: int)
      requires vfx.Valid() && level < MaxLevel
      modifies vfx
      ensures vfx.Valid()
      ensures vfx.effects == old(vfx.effects) + Vfx.StampAll(MergeEffects(level, midX, midY), old(vfx.issued), now)
      ensures vfx.issued == old(vfx.issued) + |MergeEffects(level, midX, midY)|
    {
      ghost var e0, i0 := vfx.effects, vfx.issued;
      ghost var done: seq<Vfx.EffectSpec> := [];
      assert Vfx.StampAll(done, i0, now) == [] && e0 + [] == e0;
      var explosion := ExplosionAt(level, midX, midY);
      ghost var mid := vfx.effects;
      vfx.Spawn(explosion, now);
      Vfx.SpawnedOne(e0, done, explosion, i0, now, mid, vfx.effects);
      done := done + [explosion];
      var floater := FloaterAt(level, midX, midY);
      mid := vfx.effects;
      vfx.Spawn(floater, now);
      Vfx.SpawnedOne(e0, done, floater, i0, now, mid, vfx.effects);
      done := done + [floater];
      if level + 1 >= 8 {
        var flash := Flash();
        mid := vfx.effects;
        vfx.Spawn(flash, now);
        Vfx.SpawnedOne(e0, done, flash, i0, now, mid, vfx.effects);
        done := done + [flash];
      }
      assert done == MergeEffects(level, midX, midY);
    }

    /**
     * A collisionStart event: the pairs in the engine's order, each merged on
     * the world as the earlier pairs left it.  The store's score grows by the
     * points of the whole event and the best score follows it; the effects
     * of every merge are appended in order.  The engine emits collision
     * events only during an update, so only while the runner runs.
     */
    method OnCollisionStart(pairs: seq<Pair>, store: GameStore.Store, vfx: Vfx.VfxStore, now: int)
      requires running && Valid() && vfx.Valid() && PairsOk(pairs)
      modifies this`bodies, this`nextBodyId, store`score, store`highScore, vfx
      ensures Valid() && vfx.Valid()
      ensures var r := ResolvePairs(Resolution(old(bodies), old(nextBodyId), 0, []), pairs);
        && bodies == r.bodies && nextBodyId == r.nextId
        && store.score == old(store.score) + r.points
        && store.highScore == (if r.points > 0 then GameStore.Max(old(store.highScore), store.score) else old(store.highScore))
        && vfx.effects == old(vfx.effects) + Vfx.StampAll(r.effects, old(vfx.issued), now)
        && vfx.issued == old(vfx.issued) + |r.effects|
    {
      ghost var w0 := Resolution(bodies, nextBodyId, 0, []);
      ghost var s0, h0, e0, i0 := store.score, store.highScore, vfx.effects, vfx.issued;
      ghost var r := w0;
      for i := 0 to |pairs|
        invariant r == ResolvePairs(w0, pairs[..i])
        invariant Valid() && vfx.Valid()
        invariant bodies == r.bodies && nextBodyId == r.nextId
        invariant store.score == s0 + r.points
        invariant store.highScore == (if r.points > 0 then GameStore.Max(h0, store.score) else h0)
        invariant vfx.effects == e0 + Vfx.StampAll(r.effects, i0, now)
        invariant vfx.issued == i0 + |r.effects|
      {
        ResolveStep(w0, pairs, i);
        ghost var v0, iss0 := vfx.effects, vfx.issued;
        ghost var m := MergeOne(pairs[i], store, vfx, now);
        Vfx.StampAllAfter(e0, r.effects, m.effects, i0, now, v0, iss0, vfx.effects);
        r := Resolution(m.bodies, m.nextId, r.points + m.points, r.effects + m.effects);
      }
      assert pairs[..|pairs|] == pairs;
    }

    /** The loop over a collisionActive event's pairs: does any of them involve the sensor? */
    method TouchingSensor(pairs: seq<Pair>) returns (touching: bool)
      ensures touching <==> TouchesSensor(pairs, sensorId)
    {
      touching := false;
      var i := 0;
      while i < |pairs|
        invariant 0 <= i <= |pairs|
        invariant forall j :: 0 <= j < i ==> pairs[j].a.id != sensorId && pairs[j].b.id != sensorId
      {
        if pairs[i].a.id == sensorId || pairs[i].b.id == sensorId {
          touching := true;
          break;
        }
        i := i + 1;
      }
    }

    /** A collisionActive event, emitted only while the runner runs: arm the timer if unarmed while the sensor is touched, clear it otherwise. */
    method OnCollisionActive(pairs: seq<Pair>, now: int)
      requires running
      modifies this`sensorTimer
      ensures sensorTimer == AfterActive(old(sensorTimer), TouchesSensor(pairs, sensorId), now)
    {
      var touching := TouchingSensor(pairs);
      if touching {
        if sensorTimer.Idle? {
          sensorTimer := Pending(now);
        }
      } else {
        if !sensorTimer.Idle? {
          sensorTimer := Idle;
        }
      }
    }

    /** The clock reaches `now`: a timeout armed at least GAME_OVER_TIME ago ends the game and stops the runner. */
    method OnDangerTimeout(now: int, store: GameStore.Store)
      modifies this`sensorTimer, this`running, store`isGameOver
      ensures Expired(old(sensorTimer), now) ==> sensorTimer == Fired && !running && store.isGameOver
      ensures !Expired(old(sensorTimer), now) ==>
        sensorTimer == old(sensorTimer) && running == old(running) && store.isGameOver == old(store.isGameOver)
    {
      if sensorTimer.Pending? && now - sensorTimer.start >= GameOverTime {
        store.SetGameOver(true);
        running := false;
        sensorTimer := Fired;
      }
    }

    /** One engine step while the runner runs: dynamic bodies take the positions the physics computed. */
    method Step(positions: seq<(real, real)>)
      requires Valid() && |positions| == |bodies|
      modifies this`bodies
      ensures Valid()
      ensures bodies == if running then Moved(old(bodies), positions) else old(bodies)
    {
      if running {
        MovedValid(bodies, nextBodyId, positions);
        bodies := Moved(bodies, positions);
      }
    }

    /** The auto-save tick: unless the game is over, the saved board becomes the snapshot of the world. */
    method SaveTick(store: GameStore.Store)
      requires Valid()
      modifies store`savedOrbs
      ensures store.savedOrbs == if store.isGameOver then old(store.savedOrbs) else Snapshot(bodies)
    {
      if store.isGameOver {
        return;
      }
      var orbsToSave := Snapshot(bodies);
      store.SetSavedOrbs(orbsToSave);
    }

    /**
     * The revive effect, run when the trigger changes: with a trigger and at
     * least one orb, the upper half of the orbs (by height) is removed and
     * the game is no longer over; otherwise nothing happens.  The runner is
     * not restarted.
     */
    method OnRevive(store: GameStore.Store)
      requires Valid()
      modifies this`bodies, store`isGameOver
      ensures Valid()
      ensures old(store.reviveTrigger) == 0 || Orbs(old(bodies)) == [] ==>
        bodies == old(bodies) && store.isGameOver == old(store.isGameOver)
      ensures old(store.reviveTrigger) != 0 && Orbs(old(bodies)) != [] ==>
        bodies == Revived(old(bodies)) && !store.isGameOver
    {
      if store.reviveTrigger == 0 {
        return;
      }
      var orbs := Orbs(bodies);
      if |orbs| == 0 {
        return;
      }
      orbs := SortByY(orbs);
      var countToRemove := |orbs| / 2;
      var toRemove := orbs[..countToRemove];
      ghost var b0 := bodies;
      RemoveNone(b0, toRemove);
      for k := 0 to |toRemove|
        invariant bodies == Without(b0, Ids(toRemove[..k]))
      {
        RemoveStep(b0, toRemove, k);
        bodies := Without(bodies, {toRemove[k].id});
      }
      assert toRemove[..|toRemove|] == toRemove == ReviveRemoved(b0);
      WithoutValid(b0, nextBodyId, Ids(toRemove));
      store.SetGameOver(false);
    }

    /** The store's `toggleLaserMode`. */
    method ToggleLaserMode()
      modifies this`laserMode
      ensures laserMode == !old(laserMode)
    {
      laserMode := !laserMode;
    }

    /**
     * A tap at (px, py).  In laser mode: the first orb under the point, if
     * any, is removed when a strike can be spent, and laser mode switches off
     * either way.  Otherwise, when a drop is allowed: an orb of the preview
     * level appears at height 50 above the clamped point, drops are blocked
     * for 500 ms and the preview becomes `nextLevel` (the random draw).
     */
    method PointerDown(px: real, py: real, store: GameStore.Store, nextLevel: nat, now: int)
      requires Valid() && store.nextOrbLevel <= MaxLevel && nextLevel < 5
      modifies this`bodies, this`nextBodyId, this`canDrop, this`dropReadyAt, this`laserMode
      modifies store`strikes, store`nextOrbLevel
      ensures Valid()
      ensures old(laserMode) ==>
        var t := FirstTarget(old(bodies), px, py);
        && nextBodyId == old(nextBodyId) && canDrop == old(canDrop) && dropReadyAt == old(dropReadyAt)
        && store.nextOrbLevel == old(store.nextOrbLevel)
        && (t.None? ==> bodies == old(bodies) && laserMode && store.strikes == old(store.strikes))
        && (t.Some? ==>
              && !laserMode
              && store.strikes == (if old(store.strikes) > 0 then old(store.strikes) - 1 else old(store.strikes))
              && bodies == (if old(store.strikes) > 0 then Without(old(bodies), {old(bodies)[t.value].id}) else old(bodies)))
      ensures !old(laserMode) && !old(canDrop) ==>
        bodies == old(bodies) && nextBodyId == old(nextBodyId) && !canDrop && dropReadyAt == old(dropReadyAt)
        && !laserMode && store.strikes == old(store.strikes) && store.nextOrbLevel == old(store.nextOrbLevel)
      ensures !old(laserMode) && old(canDrop) ==>
        && bodies == old(bodies) + [DroppedOrb(old(nextBodyId), px, old(store.nextOrbLevel))]
        && nextBodyId == old(nextBodyId) + 1
        && !canDrop && dropReadyAt == Some(now + 500)
        && store.nextOrbLevel == nextLevel
        && !laserMode && store.strikes == old(store.strikes)
    {
      if laserMode {
        var target := FirstTarget(bodies, px, py);
        if target.Some? {
          var ok := store.UseStrike();
          if ok {
            WithoutValid(bodies, nextBodyId, {bodies[target.value].id});
            bodies := Without(bodies, {bodies[target.value].id});
            ToggleLaserMode();
          } else {
            ToggleLaserMode();
          }
        }
        return;
      }
      if !canDrop {
        return;
      }
      var level := store.nextOrbLevel;
      var orb := DroppedOrb(nextBodyId, px, level);
      AppendFresh(bodies, nextBodyId, orb);
      bodies := bodies + [orb];
      nextBodyId := nextBodyId + 1;
      canDrop := false;
      store.SetNextOrbLevel(nextLevel);
      dropReadyAt := Some(now + 500);
    }

    /** The clock reaches `now`: a drop cooldown that is due allows drops again. */
    method OnDropTimeout(now: int)
      requires Valid()
      modifies this`canDrop, this`dropReadyAt
      ensures Valid()
      ensures old(dropReadyAt).Some? && now >= old(dropReadyAt).value ==> canDrop && dropReadyAt.None?
      ensures !(old(dropReadyAt).Some? && now >= old(dropReadyAt).value) ==>
        canDrop == old(canDrop) && dropReadyAt == old(dropReadyAt)
    {
      if dropReadyAt.Some? && now >= dropReadyAt.value {
        canDrop := true;
        dropReadyAt := None;
      }
    }
  }
}
