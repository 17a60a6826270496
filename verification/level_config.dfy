/** `LevelConfiguration`: the experience thresholds of a level ladder and
    the per-level drain-speed multiplier, with their defaults. */
module LevelConfig {
  import opened Numeric

  datatype LevelConfiguration = LevelConfiguration(
    maxLevels: int,
    baseExperienceRequired: int,
    experienceIncreasePercentage: real,
    experiencePerSquare: int,
    healthDrainSpeedIncreasePerLevel: real,
    maxHealthDrainSpeedMultiplier: real)

  const Default := LevelConfiguration(
    maxLevels := 100,
    baseExperienceRequired := 50,
    experienceIncreasePercentage := 0.5,
    experiencePerSquare := 1,
    healthDrainSpeedIncreasePerLevel := 0.05,
    maxHealthDrainSpeedMultiplier := 3.0)

  /** Swift's `Int.max` on a 64-bit platform, the "unreachable" sentinel. */
  const IntMax: int := 0x7FFF_FFFF_FFFF_FFFF

  /** The growth factor of the level ladder. */
  function Growth(c: LevelConfiguration): real {
    1.0 + c.experienceIncreasePercentage
  }

  /** `experienceRequiredForLevel`: the sentinel at and beyond the last
      level, otherwise the base scaled by the growth factor once per level
      above the first, truncated to an integer. `pow` with a negative
      exponent (a level below 1) divides by the growth factor, which must
      then be non-zero. */
  function ExperienceRequiredForLevel(c: LevelConfiguration, level: int): (r: int)
    requires level < c.maxLevels && level < 1 ==> Growth(c) != 0.0
    ensures c.maxLevels <= level ==> r == IntMax
    ensures 1 <= level < c.maxLevels && 0 <= c.baseExperienceRequired && 0.0 <= Growth(c) ==>
      0 <= r && r as real <= c.baseExperienceRequired as real * Pow(Growth(c), level - 1) < r as real + 1.0
  {
    if level >= c.maxLevels then IntMax
    else
      var m := IntPow(Growth(c), level - 1);
      IntPowNonNegative(Growth(c), level - 1);
      Trunc(c.baseExperienceRequired as real * m)
  }

  lemma {:induction false} PowNonNegative(base: real, e: nat)
    requires 0.0 <= base
    ensures 0.0 <= Pow(base, e)
  {
    if e > 0 {
      PowNonNegative(base, e - 1);
    }
  }

  lemma IntPowNonNegative(base: real, e: int)
    requires 0 <= e || base != 0.0
    ensures 0.0 <= base && 0 <= e ==> 0.0 <= IntPow(base, e)
  {
    if 0.0 <= base && 0 <= e {
      PowNonNegative(base, e);
    }
  }

  /** The first level needs exactly the base amount (50 by default). */
  lemma FirstLevelNeedsBase(c: LevelConfiguration)
    requires 1 < c.maxLevels
    ensures ExperienceRequiredForLevel(c, 1) == c.baseExperienceRequired
  {
  }

  /** With a non-negative growth percentage, thresholds never shrink as the
      level rises (below the last level). */
  lemma ExperienceRequiredMonotone(c: LevelConfiguration, l1: int, l2: int)
    requires 1 <= l1 <= l2 < c.maxLevels
    requires 0 <= c.baseExperienceRequired && 0.0 <= c.experienceIncreasePercentage
    ensures ExperienceRequiredForLevel(c, l1) <= ExperienceRequiredForLevel(c, l2)
  {
    var g := Growth(c);
    var b := c.baseExperienceRequired as real;
    var p1, p2 := Pow(g, l1 - 1), Pow(g, l2 - 1);
    PowMonotone(g, l1 - 1, l2 - 1);
    TruncScaleMonotone(b, p1, p2);
  }

  lemma TruncScaleMonotone(k: real, x: real, y: real)
    requires 0.0 <= k && x <= y
    ensures Trunc(k * x) <= Trunc(k * y)
  {
    ScaleMonotone(k, x, y);
    assert k * x <= k * y;
    TruncMonotone(k * x, k * y);
  }

  /** `healthDrainSpeedMultiplierForLevel`: one plus the per-level increase
      for each level above the first, capped at the configured maximum. */
  function HealthDrainSpeedMultiplierForLevel(c: LevelConfiguration, level: int): (m: real)
    ensures m <= c.maxHealthDrainSpeedMultiplier
    ensures m <= 1.0 + (level - 1) as real * c.healthDrainSpeedIncreasePerLevel
    ensures m == c.maxHealthDrainSpeedMultiplier || m == 1.0 + (level - 1) as real * c.healthDrainSpeedIncreasePerLevel
  {
    var raw := 1.0 + (level - 1) as real * c.healthDrainSpeedIncreasePerLevel;
    if raw <= c.maxHealthDrainSpeedMultiplier then raw else c.maxHealthDrainSpeedMultiplier
  }

  /** At level 1 the drain runs at normal speed, as long as the cap allows
      it (the default cap is 3.0). */
  lemma DrainSpeedAtFirstLevel(c: LevelConfiguration)
    requires 1.0 <= c.maxHealthDrainSpeedMultiplier
    ensures HealthDrainSpeedMultiplierForLevel(c, 1) == 1.0
  {
  }

  /** With a non-negative per-level increase, the drain multiplier never
      decreases as the level rises. */
  lemma DrainSpeedMonotone(c: LevelConfiguration, l1: int, l2: int)
    requires l1 <= l2 && 0.0 <= c.healthDrainSpeedIncreasePerLevel
    ensures HealthDrainSpeedMultiplierForLevel(c, l1) <= HealthDrainSpeedMultiplierForLevel(c, l2)
  {
    var inc := c.healthDrainSpeedIncreasePerLevel;
    assert (l1 - 1) as real * inc <= (l2 - 1) as real * inc;
  }

  /** The default ladder: 50 points for level 1, 75 for level 2, the
      sentinel at level 100; the default drain speed reaches its 3.0 cap
      at level 41 and stays there. */
  lemma DefaultLadder()
    ensures ExperienceRequiredForLevel(Default, 1) == 50
    ensures ExperienceRequiredForLevel(Default, 2) == 75
    ensures ExperienceRequiredForLevel(Default, 100) == IntMax
    ensures HealthDrainSpeedMultiplierForLevel(Default, 41) == 3.0
    ensures HealthDrainSpeedMultiplierForLevel(Default, 60) == 3.0
  {
    assert Pow(1.5, 1) == 1.5;
  }
}
