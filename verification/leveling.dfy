/** `LevelHandler`: experience accumulation with geometric level
    thresholds, carry-over on level-up, a level cap, and the derived drain
    multiplier. The handler reads its tunables from fields the game
    configuration does not declare, so they are an explicit parameter
    record here. Experience is a `Double` in this handler. */
module Leveling {
  import opened Wrappers
  import opened Numeric

  datatype LevelParams = LevelParams(
    maxLevels: int,
    baseExperienceRequired: real,
    experienceIncreasePercentage: real,
    healthDrainIncreasePerLevel: real)

  /** The two notifications: a level reached, and the experience bar
      (current experience, and the threshold, `None` standing for the
      infinite threshold of the last level). */
  datatype LevelEvent =
    | LevelUpdated(level: int)
    | ExperienceUpdated(experience: real, required: Option<real>)

  datatype LevelHandler = LevelHandler(
    currentLevel: int,
    currentExperience: real,
    experienceRequiredForNextLevel: Option<real>)

  function Growth(p: LevelParams): real {
    1.0 + p.experienceIncreasePercentage
  }

  /** The threshold for leaving `level`, in closed form: the base grown
      geometrically once per level above the first. */
  function Required(p: LevelParams, level: int): real {
    if level <= 0 then p.baseExperienceRequired
    else p.baseExperienceRequired * Pow(Growth(p), level - 1)
  }

  /** The thresholds for leaving each level from `lo` up to (excluding)
      `hi`, summed. */
  function RequiredSum(p: LevelParams, lo: int, hi: int): real
    decreases hi - lo
  {
    if hi <= lo then 0.0 else Required(p, lo) + RequiredSum(p, lo + 1, hi)
  }

  /** `calculateExperienceRequired(forLevel:)`: the same threshold computed
      as the source does, by multiplying the base by the growth factor
      once per level from 1 up to (excluding) `level`. */
  method CalculateExperienceRequired(p: LevelParams, level: int) returns (required: real)
    ensures required == Required(p, level)
    ensures level <= 1 ==> required == p.baseExperienceRequired
  {
    if level <= 0 {
      return p.baseExperienceRequired;
    }
    required := p.baseExperienceRequired;
    var i := 1;
    while i < level
      invariant 1 <= i <= level
      invariant required == p.baseExperienceRequired * Pow(Growth(p), i - 1)
    {
      ghost var before := Pow(Growth(p), i - 1);
      assert Pow(Growth(p), i) == Growth(p) * before;
      required := required * Growth(p);
      i := i + 1;
    }
  }

  /** Below the cap the threshold is finite. */
  predicate Wf(h: LevelHandler, p: LevelParams) {
    && 1 <= h.currentLevel
    && (h.currentLevel < p.maxLevels ==> h.experienceRequiredForNextLevel.Some?)
  }

  /** `init(configuration:)`: level 1, no experience, the base threshold. */
  function New(p: LevelParams): (h: LevelHandler)
    ensures Wf(h, p)
    ensures h.currentLevel == 1 && h.currentExperience == 0.0
    ensures h.experienceRequiredForNextLevel == Some(p.baseExperienceRequired)
  {
    LevelHandler(1, 0.0, Some(Required(p, 1)))
  }

  /** `resetLevel`: back to the state of a new handler, and report it. */
  function Reset(p: LevelParams): (r: (LevelHandler, seq<LevelEvent>))
    ensures r.0 == New(p)
    ensures r.1 == [ExperienceUpdated(0.0, Some(p.baseExperienceRequired))]
  {
    var h := New(p);
    (h, [ExperienceUpdated(h.currentExperience, h.experienceRequiredForNextLevel)])
  }

  /** The loop condition of `addExperience`. */
  predicate CanLevelUp(h: LevelHandler, p: LevelParams) {
    && h.experienceRequiredForNextLevel.Some?
    && h.currentExperience >= h.experienceRequiredForNextLevel.value
    && h.currentLevel < p.maxLevels
  }

  /** `levelUp`: pay the threshold out of the experience and move up a
      level; on reaching the cap the threshold becomes infinite and the
      experience is pinned at zero. */
  function LevelUp(h: LevelHandler, p: LevelParams): (r: (LevelHandler, LevelEvent))
    requires CanLevelUp(h, p)
    ensures r.0.currentLevel == h.currentLevel + 1
    ensures r.0.currentLevel < p.maxLevels ==>
      && r.0.currentExperience == h.currentExperience - h.experienceRequiredForNextLevel.value
      && r.0.experienceRequiredForNextLevel == Some(Required(p, r.0.currentLevel))
    ensures r.0.currentLevel == p.maxLevels ==>
      r.0.experienceRequiredForNextLevel.None? && r.0.currentExperience == 0.0
    ensures 0.0 <= r.0.currentExperience
    ensures r.1 == LevelUpdated(r.0.currentLevel)
  {
    var level := h.currentLevel + 1;
    var xp := h.currentExperience - h.experienceRequiredForNextLevel.value;
    var h' := if level < p.maxLevels then LevelHandler(level, xp, Some(Required(p, level)))
              else LevelHandler(level, 0.0, None);
    (h', LevelUpdated(level))
  }

  /** The experience paid by climbing from `h` to level `level`: the
      handler's own threshold for its first level-up, then the threshold of
      each intermediate level. */
  function ClimbCost(h: LevelHandler, p: LevelParams, level: int): real
    requires h.experienceRequiredForNextLevel.Some?
  {
    if level <= h.currentLevel then 0.0
    else h.experienceRequiredForNextLevel.value + RequiredSum(p, h.currentLevel + 1, level)
  }

  /** The `while` loop of `addExperience`: level up as long as the
      experience covers the threshold and the cap is not reached. Below the
      cap the experience left is the start minus the thresholds paid; every
      threshold paid was affordable when paid; and the loop stops at the
      first level it cannot pay for, or at the cap. */
  function Climb(h: LevelHandler, p: LevelParams): (r: (LevelHandler, seq<LevelEvent>))
    requires Wf(h, p)
    ensures Wf(r.0, p)
    ensures h.currentLevel <= r.0.currentLevel
    ensures h.currentLevel <= p.maxLevels ==> r.0.currentLevel <= p.maxLevels
    ensures !CanLevelUp(r.0, p)
    ensures 0.0 <= h.currentExperience ==> 0.0 <= r.0.currentExperience
    ensures r.1 == seq(r.0.currentLevel - h.currentLevel, i => LevelUpdated(h.currentLevel + 1 + i))
    ensures r.0.currentLevel == h.currentLevel ==> r.0 == h
    ensures h.currentLevel < r.0.currentLevel ==>
      && CanLevelUp(h, p)
      && (forall l :: h.currentLevel < l < r.0.currentLevel ==>
            Required(p, l) <= h.currentExperience - ClimbCost(h, p, l))
      && (r.0.currentLevel < p.maxLevels ==>
            && r.0.currentExperience == h.currentExperience - ClimbCost(h, p, r.0.currentLevel)
            && r.0.experienceRequiredForNextLevel == Some(Required(p, r.0.currentLevel)))
      && (r.0.currentLevel == p.maxLevels ==>
            r.0.currentExperience == 0.0 && r.0.experienceRequiredForNextLevel.None?)
    decreases p.maxLevels - h.currentLevel
  {
    if CanLevelUp(h, p) then
      var step := LevelUp(h, p);
      var rest := Climb(step.0, p);
      (rest.0, [step.1] + rest.1)
    else
      (h, [])
  }

  /** `addExperience(fromSquaresCleared:)`: nothing at the cap; otherwise
      gain one point per cleared square, level up as often as it pays for,
      and report the experience bar after any level notifications. */
  function AddExperience(h: LevelHandler, p: LevelParams, squaresCleared: int): (r: (LevelHandler, seq<LevelEvent>))
    requires Wf(h, p)
    ensures Wf(r.0, p)
    ensures p.maxLevels <= h.currentLevel ==> r == (h, [])
    ensures h.currentLevel < p.maxLevels ==>
      && h.currentLevel <= r.0.currentLevel <= p.maxLevels
      && (r.0.currentLevel == p.maxLevels ||
          r.0.currentExperience < r.0.experienceRequiredForNextLevel.value)
      && |r.1| == r.0.currentLevel - h.currentLevel + 1
      && (forall i :: 0 <= i < |r.1| - 1 ==> r.1[i] == LevelUpdated(h.currentLevel + 1 + i))
      && r.1[|r.1| - 1] == ExperienceUpdated(r.0.currentExperience, r.0.experienceRequiredForNextLevel)
    ensures 0.0 <= h.currentExperience && 0 <= squaresCleared ==> 0.0 <= r.0.currentExperience
    ensures h.currentLevel < p.maxLevels && r.0.currentLevel == h.currentLevel ==>
      r.0 == h.(currentExperience := h.currentExperience + squaresCleared as real)
    ensures h.currentLevel < r.0.currentLevel ==>
      && h.experienceRequiredForNextLevel.value <= h.currentExperience + squaresCleared as real
      && (forall l :: h.currentLevel < l < r.0.currentLevel ==>
            Required(p, l) <= h.currentExperience + squaresCleared as real - ClimbCost(h, p, l))
      && (r.0.currentLevel < p.maxLevels ==>
            && r.0.currentExperience == h.currentExperience + squaresCleared as real - ClimbCost(h, p, r.0.currentLevel)
            && r.0.experienceRequiredForNextLevel == Some(Required(p, r.0.currentLevel)))
      && (r.0.currentLevel == p.maxLevels ==>
            r.0.currentExperience == 0.0 && r.0.experienceRequiredForNextLevel.None?)
  {
    if h.currentLevel >= p.maxLevels then (h, [])
    else
      var gained := Gain(h, squaresCleared as real);
      var climbed := Climb(gained, p);
      (climbed.0, climbed.1 + [ExperienceUpdated(climbed.0.currentExperience, climbed.0.experienceRequiredForNextLevel)])
  }

  /** `h` with `extra` more experience. */
  function Gain(h: LevelHandler, extra: real): LevelHandler {
    h.(currentExperience := h.currentExperience + extra)
  }

  /** `healthDrainMultiplier`: one plus the per-level increase for each
      level above the first, uncapped. */
  function HealthDrainMultiplier(h: LevelHandler, p: LevelParams): (m: real)
    ensures h.currentLevel == 1 ==> m == 1.0
    ensures m - 1.0 == (h.currentLevel - 1) as real * p.healthDrainIncreasePerLevel
    ensures 0.0 <= p.healthDrainIncreasePerLevel && 1 <= h.currentLevel ==> 1.0 <= m
  {
    1.0 + (h.currentLevel - 1) as real * p.healthDrainIncreasePerLevel
  }

  /** With a non-negative per-level increase, a higher level never drains
      more slowly. */
  lemma HealthDrainMultiplierMonotone(h1: LevelHandler, h2: LevelHandler, p: LevelParams)
    requires h1.currentLevel <= h2.currentLevel && 0.0 <= p.healthDrainIncreasePerLevel
    ensures HealthDrainMultiplier(h1, p) <= HealthDrainMultiplier(h2, p)
  {
    var inc := p.healthDrainIncreasePerLevel;
    assert (h1.currentLevel - 1) as real * inc <= (h2.currentLevel - 1) as real * inc;
  }

  /** Gaining experience never lowers the level. */
  lemma AddExperienceNeverLowersLevel(h: LevelHandler, p: LevelParams, n: int)
    requires Wf(h, p)
    ensures h.currentLevel <= AddExperience(h, p, n).0.currentLevel
  {
  }

  /** Experience added after the loop has run climbs exactly as if it had
      been added before, unless the loop already reached the cap, where
      further experience is discarded. */
  lemma {:induction false} ClimbAbsorbs(g: LevelHandler, p: LevelParams, extra: real)
    requires Wf(g, p) && g.currentLevel < p.maxLevels && 0.0 <= extra
    ensures var c := Climb(g, p).0;
      Climb(Gain(g, extra), p).0 == if c.currentLevel >= p.maxLevels then c else Climb(Gain(c, extra), p).0
    decreases p.maxLevels - g.currentLevel
  {
    if CanLevelUp(g, p) {
      var next := LevelUp(g, p).0;
      assert Climb(g, p).0 == Climb(next, p).0;
      assert CanLevelUp(Gain(g, extra), p);
      if next.currentLevel < p.maxLevels {
        assert LevelUp(Gain(g, extra), p).0 == Gain(next, extra);
        assert Climb(Gain(g, extra), p).0 == Climb(Gain(next, extra), p).0;
        ClimbAbsorbs(next, p, extra);
      } else {
        assert LevelUp(Gain(g, extra), p).0 == next;
        assert Climb(next, p).0 == next;
        assert Climb(Gain(g, extra), p).0 == Climb(next, p).0;
      }
    } else {
      assert Climb(g, p).0 == g;
    }
  }

  /** Two gains of experience end in the same handler state as one gain of
      their sum: splitting a clear across calls changes only the
      notifications, never the level or the experience. */
  lemma AddExperienceComposes(h: LevelHandler, p: LevelParams, a: int, b: int)
    requires Wf(h, p) && 0 <= a && 0 <= b
    ensures AddExperience(AddExperience(h, p, a).0, p, b).0 == AddExperience(h, p, a + b).0
  {
    if h.currentLevel < p.maxLevels {
      var g := Gain(h, a as real);
      ClimbAbsorbs(g, p, b as real);
      assert Gain(g, b as real) == Gain(h, (a + b) as real);
    }
  }

  /** The documented ladder (base 50, growth 50%, 100 levels): 10 points
      stay at level 1; exactly 50 reach level 2 with nothing left over and a
      threshold of 75; 150 reach level 3 carrying 25 over. */
  lemma LadderExamples()
    ensures AddExperience(New(LevelParams(100, 50.0, 0.5, 0.05)), LevelParams(100, 50.0, 0.5, 0.05), 10).0
      == LevelHandler(1, 10.0, Some(50.0))
    ensures AddExperience(New(LevelParams(100, 50.0, 0.5, 0.05)), LevelParams(100, 50.0, 0.5, 0.05), 50).0
      == LevelHandler(2, 0.0, Some(75.0))
    ensures AddExperience(New(LevelParams(100, 50.0, 0.5, 0.05)), LevelParams(100, 50.0, 0.5, 0.05), 150).0.currentLevel == 3
    ensures AddExperience(New(LevelParams(100, 50.0, 0.5, 0.05)), LevelParams(100, 50.0, 0.5, 0.05), 150).0.currentExperience == 25.0
  {
    var p := LevelParams(100, 50.0, 0.5, 0.05);
    assert Required(p, 1) == 50.0;
    assert Required(p, 2) == 50.0 * Pow(1.5, 1) == 75.0;
    assert Required(p, 3) == 50.0 * Pow(1.5, 2) == 112.5;
    var h50 := LevelHandler(1, 50.0, Some(50.0));
    assert CanLevelUp(h50, p);
    assert LevelUp(h50, p).0 == LevelHandler(2, 0.0, Some(75.0));
    assert !CanLevelUp(LevelHandler(2, 0.0, Some(75.0)), p);
    var h150 := LevelHandler(1, 150.0, Some(50.0));
    assert LevelUp(h150, p).0 == LevelHandler(2, 100.0, Some(75.0));
    assert LevelUp(LevelHandler(2, 100.0, Some(75.0)), p).0 == LevelHandler(3, 25.0, Some(112.5));
    assert !CanLevelUp(LevelHandler(3, 25.0, Some(112.5)), p);
  }

  /** Reaching the cap: with two levels, 60 points reach level 2, where the
      threshold turns infinite, experience is pinned at zero, and further
      gains change nothing. */
  lemma CapExample()
    ensures AddExperience(New(LevelParams(2, 50.0, 0.5, 0.05)), LevelParams(2, 50.0, 0.5, 0.05), 60).0
      == LevelHandler(2, 0.0, None)
    ensures AddExperience(LevelHandler(2, 0.0, None), LevelParams(2, 50.0, 0.5, 0.05), 60)
      == (LevelHandler(2, 0.0, None), [])
  {
    var p := LevelParams(2, 50.0, 0.5, 0.05);
    assert LevelUp(LevelHandler(1, 60.0, Some(50.0)), p).0 == LevelHandler(2, 0.0, None);
  }
}
