/**
 * The session store: score and best score, the two power-up counters, the
 * game-over flag, the preview level of the next orb, the saved board, and
 * the subset of fields that survives a page reload.
 */
module GameStore {
  import opened Wrappers

  /** One orb of a saved board: `{x, y, radius, level}`. */
  datatype SavedOrb = SavedOrb(x: real, y: real, radius: real, level: nat)

  /** What `partialize` writes to local storage; nothing else is persisted. */
  datatype Persisted = Persisted(
    score: int,
    highScore: int,
    username: Option<string>,
    shakes: int,
    strikes: int,
    savedOrbs: seq<SavedOrb>)

  function Max(a: int, b: int): (m: int)
    ensures m >= a && m >= b && (m == a || m == b)
  {
    if a >= b then a else b
  }

  class Store {
    var score: int
    var highScore: int
    var username: Option<string>
    var isGameOver: bool
    var nextOrbLevel: nat
    var gameId: string
    var shakes: int
    var strikes: int
    var reviveTrigger: int
    var savedOrbs: seq<SavedOrb>

    /** The persisted subset of the store. */
    function Partialize(): Persisted
      reads this
    {
      Persisted(score, highScore, username, shakes, strikes, savedOrbs)
    }

    /** A fresh store with its defaults; `freshId` stands for `crypto.randomUUID()`. */
    constructor (freshId: string)
      ensures score == 0 && highScore == 0 && username == None
      ensures !isGameOver && nextOrbLevel == 0 && gameId == freshId
      ensures shakes == 0 && strikes == 0 && reviveTrigger == 0 && savedOrbs == []
    {
      score, highScore, username := 0, 0, None;
      isGameOver, nextOrbLevel, gameId := false, 0, freshId;
      shakes, strikes, reviveTrigger, savedOrbs := 0, 0, 0, [];
    }

    /**
     * The store after a reload: the persisted fields are merged over the
     * defaults, so game-over, the next level and the revive trigger start
     * from their defaults again.
     */
    constructor Rehydrate(p: Persisted, freshId: string)
      ensures Partialize() == p
      ensures !isGameOver && nextOrbLevel == 0 && gameId == freshId && reviveTrigger == 0
    {
      score, highScore, username := p.score, p.highScore, p.username;
      shakes, strikes, savedOrbs := p.shakes, p.strikes, p.savedOrbs;
      isGameOver, nextOrbLevel, gameId, reviveTrigger := false, 0, freshId, 0;
    }

    /** Replaces the whole saved board. */
    method SetSavedOrbs(orbs: seq<SavedOrb>)
      modifies this`savedOrbs
      ensures savedOrbs == orbs
    {
      savedOrbs := orbs;
    }

    /** Sets the score; the best score only ever moves up to meet it. */
    method SetScore(s: int)
      modifies this`score, this`highScore
      ensures score == s && highScore == Max(old(highScore), s)
      ensures highScore >= old(highScore) && highScore >= score
    {
      score := s;
      highScore := Max(highScore, s);
    }

    /** Adds points; the best score becomes the larger of itself and the new score. */
    method AddScore(points: int)
      modifies this`score, this`highScore
      ensures score == old(score) + points
      ensures highScore == Max(old(highScore), old(score) + points)
      ensures highScore >= old(highScore) && highScore >= score
    {
      var newScore := score + points;
      score := newScore;
      highScore := Max(highScore, newScore);
    }

    /** Overwrites the best score, even below the current score. */
    method SetHighScore(s: int)
      modifies this`highScore
      ensures highScore == s
    {
      highScore := s;
    }

    method SetUsername(name: string)
      modifies this`username
      ensures username == Some(name)
    {
      username := Some(name);
    }

    method SetGameOver(isOver: bool)
      modifies this`isGameOver
      ensures isGameOver == isOver
      ensures Partialize() == old(Partialize())
    {
      isGameOver := isOver;
    }

    method SetNextOrbLevel(level: nat)
      modifies this`nextOrbLevel
      ensures nextOrbLevel == level
      ensures Partialize() == old(Partialize())
    {
      nextOrbLevel := level;
    }

    /**
     * Starts a new game: score 0, not over, an empty saved board, a new
     * next level drawn from 0..4 (`nextLevel`) and a new game id.  The best
     * score, the name and both counters are kept.
     */
    method ResetGame(nextLevel: nat, freshId: string)
      requires nextLevel < 5
      modifies this`score, this`isGameOver, this`nextOrbLevel, this`gameId, this`savedOrbs
      ensures score == 0 && !isGameOver && savedOrbs == []
      ensures nextOrbLevel == nextLevel && nextOrbLevel < 5 && gameId == freshId
    {
      score, isGameOver, nextOrbLevel, gameId, savedOrbs := 0, false, nextLevel, freshId, [];
    }

    /** Adds shakes, without a cap. */
    method AddShakes(amount: int)
      modifies this`shakes
      ensures shakes == old(shakes) + amount
      ensures old(shakes) >= 0 && amount >= 0 ==> shakes >= 0
    {
      shakes := shakes + amount;
    }

    /** Takes one shake if there is one; reports whether it did. */
    method UseShake() returns (ok: bool)
      modifies this`shakes
      ensures ok <==> old(shakes) > 0
      ensures shakes == if ok then old(shakes) - 1 else old(shakes)
      ensures old(shakes) >= 0 ==> shakes >= 0
    {
      if shakes > 0 {
        shakes := shakes - 1;
        return true;
      }
      return false;
    }

    /** Adds strikes, without a cap. */
    method AddStrikes(amount: int)
      modifies this`strikes
      ensures strikes == old(strikes) + amount
      ensures old(strikes) >= 0 && amount >= 0 ==> strikes >= 0
    {
      strikes := strikes + amount;
    }

    /** Takes one strike if there is one; reports whether it did. */
    method UseStrike() returns (ok: bool)
      modifies this`strikes
      ensures ok <==> old(strikes) > 0
      ensures strikes == if ok then old(strikes) - 1 else old(strikes)
      ensures old(strikes) >= 0 ==> strikes >= 0
    {
      if strikes > 0 {
        strikes := strikes - 1;
        return true;
      }
      return false;
    }

    /** Asks the board to halve itself by stamping the trigger with the clock (`Date.now()` is `now`). */
    method TriggerRevive(now: int)
      modifies this`reviveTrigger
      ensures reviveTrigger == now
      ensures Partialize() == old(Partialize())
    {
      reviveTrigger := now;
    }
  }

  /** Reloading keeps exactly the persisted fields: a store rebuilt from its own persisted subset has the same subset. */
  method ReloadKeepsPersisted(s: Store, freshId: string) returns (r: Store)
    ensures r.Partialize() == s.Partialize()
    ensures !r.isGameOver && r.nextOrbLevel == 0
  {
    r := new Store.Rehydrate(s.Partialize(), freshId);
  }
}
