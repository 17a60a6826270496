/** `GameModeLogic`: the pieces shared by every mode, the end-of-game
    summary and the default score formula. */
module ModePolicy {
  import opened Wrappers
  import opened Numeric
  import Scoring

  /** The end-of-game summary: a headline and an optional second line. */
  datatype GameModeResult = GameModeResult(primaryDisplay: string, secondaryDisplay: Option<string>)

  /** The protocol's default `calculateScore`: the cleared count times the
      base multiplier, times the combo multiplier, truncated once. */
  function DefaultScore(squaresCleared: int, baseMultiplier: real, comboMultiplier: real): (s: int)
    ensures 0 <= squaresCleared && 0.0 <= baseMultiplier && 0.0 <= comboMultiplier ==>
      0 <= s && s as real <= squaresCleared as real * baseMultiplier * comboMultiplier < s as real + 1.0
  {
    var baseScore := squaresCleared as real * baseMultiplier;
    Scoring.NonNegativeProduct(squaresCleared as real, baseMultiplier, comboMultiplier);
    Trunc(baseScore * comboMultiplier)
  }

  /** With both multipliers at 1 a match scores one point per square. */
  lemma DefaultScoreUnit(n: int)
    ensures DefaultScore(n, 1.0, 1.0) == n
  {
  }

  /** Clearing more squares never scores less, for non-negative multipliers. */
  lemma DefaultScoreMonotone(n1: int, n2: int, base: real, combo: real)
    requires n1 <= n2 && 0.0 <= base && 0.0 <= combo
    ensures DefaultScore(n1, base, combo) <= DefaultScore(n2, base, combo)
  {
    TruncScaledMonotone(n1 as real, n2 as real, base, combo);
    assert DefaultScore(n1, base, combo) == Trunc(n1 as real * base * combo);
    assert DefaultScore(n2, base, combo) == Trunc(n2 as real * base * combo);
  }

  /** The mode formula and the score handler's `addScore` agree: the
      duplicated formula gives the same points for the same inputs. */
  lemma DefaultScoreAgreesWithHandler(n: int, base: real, combo: real)
    ensures DefaultScore(n, base, combo) == Scoring.Points(n, base, combo)
    ensures Scoring.AddScore(Scoring.New(base), n, combo).0.score == DefaultScore(n, base, combo)
  {
  }
}
