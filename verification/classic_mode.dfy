/** `ClassicModeLogic`: score-driven drain speed-up, regeneration that
    rewards large clears, and the mode's own integer level ladder. */
module Classic {
  import opened Wrappers
  import opened Numeric
  import opened Decimal
  import opened Config
  import opened ModePolicy

  /** The mode's private progress: level, experience, and the experience
      needed for the next level. */
  datatype ClassicState = ClassicState(level: int, experience: int, experienceToNextLevel: int)

  /** The progress a new mode object starts from and `onGameStart`
      restores: level 1, no experience, 50 to the next level. */
  const Fresh := ClassicState(1, 0, 50)

  /** A positive threshold: the level-up loop then always terminates. */
  predicate Valid(s: ClassicState) {
    1 <= s.experienceToNextLevel
  }

  const ShowsHealthBar := true
  const ShowsScore := true
  const ShowsLevel := true
  const ShowsTimer := false

  /** `calculateHealthDrainDuration`: each full step of
      `difficultyIncreasePerScore` points takes a further fixed fraction off
      the base duration, but never below the configured minimum. The
      division is Swift's integer division, which traps on a zero step. */
  function DrainDuration(baseDuration: real, score: int, c: GameConfiguration): (d: real)
    requires c.difficultyIncreasePerScore != 0
    ensures c.minimumHealthDrainDuration <= d
    ensures baseDuration * (1.0 - TruncDiv(score, c.difficultyIncreasePerScore) as real * c.drainSpeedIncreasePercentage) <= d
    ensures d == c.minimumHealthDrainDuration ||
      d == baseDuration * (1.0 - TruncDiv(score, c.difficultyIncreasePerScore) as real * c.drainSpeedIncreasePercentage)
  {
    var difficultyLevel := TruncDiv(score, c.difficultyIncreasePerScore);
    var speedIncrease := difficultyLevel as real * c.drainSpeedIncreasePercentage;
    var newDuration := baseDuration * (1.0 - speedIncrease);
    if newDuration >= c.minimumHealthDrainDuration then newDuration else c.minimumHealthDrainDuration
  }

  /** A higher score never gives a slower drain, for a positive step, a
      non-negative speed-up and a non-negative base duration. */
  lemma DrainDurationMonotone(baseDuration: real, s1: int, s2: int, c: GameConfiguration)
    requires 0 <= s1 <= s2 && 0 < c.difficultyIncreasePerScore
    requires 0.0 <= c.drainSpeedIncreasePercentage && 0.0 <= baseDuration
    ensures DrainDuration(baseDuration, s2, c) <= DrainDuration(baseDuration, s1, c)
  {
    var step := c.difficultyIncreasePerScore;
    TruncDivMonotone(s1, s2, step);
    var k1, k2 := TruncDiv(s1, step), TruncDiv(s2, step);
    var pct := c.drainSpeedIncreasePercentage;
    ScaleMonotone(pct, k1 as real, k2 as real);
    assert k1 as real * pct <= k2 as real * pct;
    var x1, x2 := baseDuration * (1.0 - k1 as real * pct), baseDuration * (1.0 - k2 as real * pct);
    ScaleMonotone(baseDuration, 1.0 - k2 as real * pct, 1.0 - k1 as real * pct);
    var m := c.minimumHealthDrainDuration;
    assert DrainDuration(baseDuration, s1, c) == if x1 >= m then x1 else m;
    assert DrainDuration(baseDuration, s2, c) == if x2 >= m then x2 else m;
  }

  /** Once the speed-up has taken the duration to the minimum or below, the
      duration is exactly the minimum. */
  lemma DrainDurationFloor(baseDuration: real, score: int, c: GameConfiguration)
    requires c.difficultyIncreasePerScore != 0
    requires baseDuration * (1.0 - TruncDiv(score, c.difficultyIncreasePerScore) as real * c.drainSpeedIncreasePercentage)
      <= c.minimumHealthDrainDuration
    ensures DrainDuration(baseDuration, score, c) == c.minimumHealthDrainDuration
  {
  }

  /** The default schedule: 30 s at score 0 and 99, 27 s at score 100, 24 s
      at 250, and the 2 s floor from score 1000 on (at 1000 the formula
      alone would give 0). */
  lemma DefaultDrainSchedule()
    ensures DrainDuration(30.0, 0, Config.Default) == 30.0
    ensures DrainDuration(30.0, 99, Config.Default) == 30.0
    ensures DrainDuration(30.0, 100, Config.Default) == 27.0
    ensures DrainDuration(30.0, 250, Config.Default) == 24.0
    ensures DrainDuration(30.0, 1000, Config.Default) == 2.0
    ensures DrainDuration(30.0, 5000, Config.Default) == 2.0
  {
  }

  /** `calculateHealthRegeneration`: the base share plus the rest of a full
      bar in proportion to the fraction of the grid cleared. Dividing by
      the grid area needs a non-empty grid. */
  function Regeneration(baseRegeneration: real, squaresCleared: int, c: GameConfiguration): (g: real)
    requires c.gridSize != 0
    ensures squaresCleared == c.gridSize * c.gridSize ==> g == 1.0
    ensures squaresCleared == 0 ==> g == baseRegeneration
    ensures (g - baseRegeneration) * (c.gridSize * c.gridSize) as real == squaresCleared as real * (1.0 - baseRegeneration)
    ensures 0.0 <= baseRegeneration <= 1.0 && 0 <= squaresCleared <= c.gridSize * c.gridSize ==> baseRegeneration <= g <= 1.0
  {
    var maxAdditional := 1.0 - baseRegeneration;
    var maxSquares := c.gridSize * c.gridSize;
    var fraction := squaresCleared as real / maxSquares as real;
    FractionBounds(squaresCleared, maxSquares);
    assert 0.0 <= maxAdditional && 0 <= squaresCleared <= maxSquares ==> fraction * maxAdditional <= maxAdditional by {
      if 0.0 <= maxAdditional && 0 <= squaresCleared <= maxSquares {
        assert fraction * maxAdditional <= 1.0 * maxAdditional;
      }
    }
    baseRegeneration + fraction * maxAdditional
  }

  lemma FractionBounds(k: int, n: int)
    requires 0 < n
    ensures 0 <= k <= n ==> 0.0 <= k as real / n as real <= 1.0
    ensures k == n ==> k as real / n as real == 1.0
  {
  }

  /** Clearing more squares never regenerates less, when the base share is
      at most a full bar. */
  lemma RegenerationMonotone(baseRegeneration: real, k1: int, k2: int, c: GameConfiguration)
    requires c.gridSize != 0 && k1 <= k2 && baseRegeneration <= 1.0
    ensures Regeneration(baseRegeneration, k1, c) <= Regeneration(baseRegeneration, k2, c)
  {
    var n := (c.gridSize * c.gridSize) as real;
    assert 0.0 < n;
    assert k1 as real / n <= k2 as real / n;
    assert (k1 as real / n) * (1.0 - baseRegeneration) <= (k2 as real / n) * (1.0 - baseRegeneration);
  }

  /** `shouldGameOver`: the bar is empty. */
  function ShouldGameOver(health: real): (over: bool)
    ensures over <==> health <= 0.0
  {
    health <= 0.0
  }

  /** The threshold after one level-up: half as much again, rounded down. */
  function NextThreshold(t: int): int {
    t + t / 2
  }

  /** The threshold after `k` level-ups starting from threshold `t`. */
  function ThresholdAfter(t: int, k: nat): int
    decreases k
  {
    if k == 0 then t else ThresholdAfter(NextThreshold(t), k - 1)
  }

  /** The experience paid by `k` level-ups starting from threshold `t`:
      the first `k` thresholds of the ladder, summed. */
  function ThresholdsPaid(t: int, k: nat): int
    decreases k
  {
    if k == 0 then 0 else t + ThresholdsPaid(NextThreshold(t), k - 1)
  }

  /** With threshold `t` and experience `xp`, each of the next `k`
      level-ups can be paid for when its turn comes. */
  predicate Affords(t: int, xp: int, k: nat)
    decreases k
  {
    k == 0 || (t <= xp && Affords(NextThreshold(t), xp - t, k - 1))
  }

  /** The `while` loop of the mode's `addExperience`: while the experience
      covers the threshold, pay it, go up a level, and raise the threshold
      by half (truncated). The result is pinned by the ladder: after `k`
      level-ups the experience has paid the first `k` thresholds, the
      threshold is the `k`-th successor, each of those `k` thresholds was
      affordable when paid, and the one left over is not. */
  function LevelUpLoop(s: ClassicState): (r: ClassicState)
    requires Valid(s)
    ensures Valid(r)
    ensures s.level <= r.level
    ensures s.experienceToNextLevel <= r.experienceToNextLevel
    ensures r.experience < r.experienceToNextLevel
    ensures s.experience < s.experienceToNextLevel ==> r == s
    ensures 0 <= s.experience ==> 0 <= r.experience
    ensures s.experienceToNextLevel <= s.experience ==> s.level < r.level && 0 <= r.experience
    ensures r.experience == s.experience - ThresholdsPaid(s.experienceToNextLevel, r.level - s.level)
    ensures r.experienceToNextLevel == ThresholdAfter(s.experienceToNextLevel, r.level - s.level)
    ensures Affords(s.experienceToNextLevel, s.experience, r.level - s.level)
    decreases s.experience
  {
    if s.experience >= s.experienceToNextLevel then
      var next := Promote(s);
      var r := LevelUpLoop(next);
      r
    else
      s
  }

  /** One pass of the loop body: pay the threshold, go up a level, and
      raise the threshold by half (truncated). */
  function Promote(s: ClassicState): (r: ClassicState)
    requires Valid(s)
    ensures Valid(r)
    ensures r.level == s.level + 1
    ensures r.experience == s.experience - s.experienceToNextLevel
    ensures r.experienceToNextLevel == NextThreshold(s.experienceToNextLevel)
    ensures s.experienceToNextLevel < r.experienceToNextLevel || s.experienceToNextLevel == 1 == r.experienceToNextLevel
  {
    TruncThreeHalves(s.experienceToNextLevel);
    ClassicState(s.level + 1, s.experience - s.experienceToNextLevel, Trunc(s.experienceToNextLevel as real * 1.5))
  }

  /** `Int(Double(t) * 1.5)` is `t + t / 2` for a non-negative `t`. */
  lemma TruncThreeHalves(t: int)
    requires 0 <= t
    ensures Trunc(t as real * 1.5) == t + t / 2
  {
    var q, m := t / 2, t % 2;
    assert t == 2 * q + m;
    assert t as real * 1.5 == (t + q) as real + m as real * 0.5;
  }

  /** `s` with `extra` more experience. */
  function Gain(s: ClassicState, extra: int): ClassicState {
    s.(experience := s.experience + extra)
  }

  /** `onSuccessfulMatch`: one experience point per cleared square, then
      level up as far as it pays for. */
  function OnSuccessfulMatch(s: ClassicState, squaresCleared: int): (r: ClassicState)
    requires Valid(s)
    ensures Valid(r)
    ensures s.level <= r.level
    ensures r.experience < r.experienceToNextLevel
    ensures 0 <= s.experience && 0 <= squaresCleared ==> 0 <= r.experience
    ensures r.experience == s.experience + squaresCleared - ThresholdsPaid(s.experienceToNextLevel, r.level - s.level)
    ensures r.experienceToNextLevel == ThresholdAfter(s.experienceToNextLevel, r.level - s.level)
    ensures Affords(s.experienceToNextLevel, s.experience + squaresCleared, r.level - s.level)
  {
    LevelUpLoop(Gain(s, squaresCleared))
  }

  /** Experience added after the loop has run levels up exactly as if it
      had been added before: the loop pays the same thresholds in the same
      order either way. */
  lemma {:induction false} LevelUpLoopAbsorbs(s: ClassicState, extra: int)
    requires Valid(s) && 0 <= extra
    ensures LevelUpLoop(Gain(LevelUpLoop(s), extra)) == LevelUpLoop(Gain(s, extra))
    decreases s.experience
  {
    if s.experience >= s.experienceToNextLevel {
      var next := Promote(s);
      assert LevelUpLoop(s) == LevelUpLoop(next);
      assert Promote(Gain(s, extra)) == Gain(next, extra);
      assert LevelUpLoop(Gain(s, extra)) == LevelUpLoop(Gain(next, extra));
      LevelUpLoopAbsorbs(next, extra);
    } else {
      assert LevelUpLoop(s) == s;
    }
  }

  /** Two matches feed the ladder exactly as one match clearing as many
      squares as both together. */
  lemma MatchesCompose(s: ClassicState, a: int, b: int)
    requires Valid(s) && 0 <= a && 0 <= b
    ensures OnSuccessfulMatch(OnSuccessfulMatch(s, a), b) == OnSuccessfulMatch(s, a + b)
  {
    LevelUpLoopAbsorbs(Gain(s, a), b);
    assert Gain(Gain(s, a), b) == Gain(s, a + b);
  }

  /** `onGameStart`: back to the fresh ladder, whatever the progress. */
  function OnGameStart(s: ClassicState): (r: ClassicState)
    ensures Valid(r)
    ensures r.level == 1 && r.experience == 0 && r.experienceToNextLevel == 50
  {
    Fresh
  }

  /** `onGameOver`: the final score, and the level reached. */
  function OnGameOver(s: ClassicState, score: int): (r: GameModeResult)
    ensures 8 <= |r.primaryDisplay| && r.primaryDisplay[..7] == "Score: "
    ensures 0 <= score ==> Canonical(r.primaryDisplay[7..]) && ParseNat(r.primaryDisplay[7..]) == score
    ensures score < 0 ==>
      9 <= |r.primaryDisplay| && r.primaryDisplay[7] == '-' && Canonical(r.primaryDisplay[8..]) && ParseNat(r.primaryDisplay[8..]) == -score
    ensures r.secondaryDisplay.Some? && 7 <= |r.secondaryDisplay.value| && r.secondaryDisplay.value[..6] == "Level "
    ensures 0 <= s.level ==> Canonical(r.secondaryDisplay.value[6..]) && ParseNat(r.secondaryDisplay.value[6..]) == s.level
    ensures s.level < 0 ==>
      8 <= |r.secondaryDisplay.value| && r.secondaryDisplay.value[6] == '-' && Canonical(r.secondaryDisplay.value[7..]) && ParseNat(r.secondaryDisplay.value[7..]) == -s.level
  {
    var primary := "Score: " + IntToString(score);
    var secondary := "Level " + IntToString(s.level);
    assert primary[7..] == IntToString(score) && primary[8..] == IntToString(score)[1..];
    assert secondary[6..] == IntToString(s.level) && secondary[7..] == IntToString(s.level)[1..];
    GameModeResult(primary, Some(secondary))
  }

  /** From a fresh ladder, 100 squares (one full default grid) reach
      level 2 with 50 experience left and 75 needed for level 3; 50 squares
      reach level 2 exactly; 49 stay at level 1; 250 climb to level 4. */
  lemma LadderExamples(s: ClassicState)
    requires s == Fresh
    ensures OnSuccessfulMatch(s, 100) == ClassicState(2, 50, 75)
    ensures OnSuccessfulMatch(s, 50) == ClassicState(2, 0, 75)
    ensures OnSuccessfulMatch(s, 49) == ClassicState(1, 49, 50)
    ensures OnSuccessfulMatch(s, 250) == ClassicState(4, 13, 168)
  {
    LadderStep(Gain(s, 100), ClassicState(2, 50, 75));
    LadderStep(Gain(s, 50), ClassicState(2, 0, 75));
    LadderStep(Gain(s, 250), ClassicState(2, 200, 75));
    LadderStep(ClassicState(2, 200, 75), ClassicState(3, 125, 112));
    LadderStep(ClassicState(3, 125, 112), ClassicState(4, 13, 168));
  }

  /** One pass of the loop between two given states. */
  lemma LadderStep(s: ClassicState, next: ClassicState)
    requires Valid(s) && s.experienceToNextLevel <= s.experience
    requires next.level == s.level + 1 && next.experience == s.experience - s.experienceToNextLevel
    requires next.experienceToNextLevel == Trunc(s.experienceToNextLevel as real * 1.5)
    ensures Valid(next) && LevelUpLoop(s) == LevelUpLoop(next)
  {
    assert Promote(s) == next;
  }
}
