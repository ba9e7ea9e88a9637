/**
 * The game's constants: the container size, the danger timeout and the
 * table of orb levels (radius, points, colour, image) that every other part
 * of the game reads.
 */
module Levels {

  const GameWidth: int := 600
  const GameHeight: int := 800
  const WallThickness: int := 40
  /** Milliseconds an orb may touch the danger line before the game ends. */
  const GameOverTime: int := 2000

  datatype OrbLevel = OrbLevel(radius: int, score: int, color: string, img: string)

  const OrbLevels: seq<OrbLevel> := [
    OrbLevel(20, 2, "#FF0000", "/assets/orb-0.png"),
    OrbLevel(32, 4, "#FFA500", "/assets/orb-1.png"),
    OrbLevel(44, 8, "#800080", "/assets/orb-2.png"),
    OrbLevel(56, 16, "#FFFF00", "/assets/orb-3.png"),
    OrbLevel(68, 32, "#FF4500", "/assets/orb-4.png"),
    OrbLevel(80, 64, "#FF0000", "/assets/orb-5.png"),
    OrbLevel(95, 128, "#FFFF00", "/assets/orb-6.png"),
    OrbLevel(110, 256, "#FFC0CB", "/assets/orb-7.png"),
    OrbLevel(125, 512, "#FFFF00", "/assets/orb-8.png"),
    OrbLevel(140, 1024, "#008000", "/assets/orb-9.png"),
    OrbLevel(155, 2048, "#006400", "/assets/orb-10.png")
  ]

  /** The last index of the table (`ORB_LEVELS.length - 1`): two orbs of this level vanish on merging. */
  const MaxLevel: nat := 10

  /** `ORB_LEVELS[level].radius`. */
  function Radius(level: nat): int
    requires level <= MaxLevel
  {
    OrbLevels[level].radius
  }

  /** `ORB_LEVELS[level].score`. */
  function Score(level: nat): int
    requires level <= MaxLevel
  {
    OrbLevels[level].score
  }

  function Pow2(n: nat): (p: nat)
    ensures p >= 1
  {
    if n == 0 then 1 else 2 * Pow2(n - 1)
  }

  /** The table has eleven levels, indices 0 to 10. */
  lemma LevelCount()
    ensures |OrbLevels| == 11 && MaxLevel == |OrbLevels| - 1
  {
  }

  /** Adjacent levels: the radius grows and the points double, starting from 2. */
  lemma AdjacentLevels(i: nat)
    requires i < MaxLevel
    ensures Radius(i) < Radius(i + 1)
    ensures Score(i + 1) == 2 * Score(i)
  {
  }

  /** The radius is strictly increasing over the whole table. */
  lemma {:induction false} RadiusIncreasing(i: nat, j: nat)
    requires i < j <= MaxLevel
    ensures Radius(i) < Radius(j)
    decreases j - i
  {
    AdjacentLevels(i);
    if i + 1 < j {
      RadiusIncreasing(i + 1, j);
    }
  }

  /** The points of level `l` are 2^(l+1): 2, 4, 8, ..., 2048. */
  lemma {:induction false} ScoreIsPowerOfTwo(level: nat)
    requires level <= MaxLevel
    ensures Score(level) == Pow2(level + 1)
    decreases level
  {
    if level > 0 {
      AdjacentLevels(level - 1);
      ScoreIsPowerOfTwo(level - 1);
    } else {
      assert Score(0) == 2;
    }
  }

  /** Every orb fits across the container, so the drop clamp `[r, GameWidth - r]` is never empty. */
  lemma {:induction false} EveryOrbFits(level: nat)
    requires level <= MaxLevel
    ensures 0 < Radius(level) && 2 * Radius(level) <= GameWidth
  {
    if level < MaxLevel {
      RadiusIncreasing(level, MaxLevel);
    }
    assert Radius(0) == 20 && Radius(MaxLevel) == 155;
    if level > 0 {
      RadiusIncreasing(0, level);
    }
  }

  /** Every level is worth a positive number of points. */
  lemma ScorePositive(level: nat)
    requires level <= MaxLevel
    ensures Score(level) > 0
  {
    ScoreIsPowerOfTwo(level);
  }
}
