/** `TrainingModeLogic`: practice with no pressure. Health never drains or
    regenerates, nothing scores, and the game never ends by itself. */
module Training {
  import opened Wrappers
  import opened Config
  import opened ModePolicy

  const ShowsHealthBar := false
  const ShowsScore := false
  const ShowsLevel := false
  const ShowsTimer := false

  /** `calculateHealthDrainDuration`: infinite, so `None`. */
  function DrainDuration(baseDuration: real, score: int, c: GameConfiguration): (d: Option<real>)
    ensures d.None?
  {
    None
  }

  /** `calculateHealthRegeneration`: nothing, whatever was cleared. */
  function Regeneration(baseRegeneration: real, squaresCleared: int, c: GameConfiguration): (g: real)
    ensures g == 0.0
  {
    0.0
  }

  /** `calculateScore`, overriding the default: nothing, for any input. */
  function Score(squaresCleared: int, baseMultiplier: real, comboMultiplier: real): (s: int)
    ensures s == 0
  {
    0
  }

  /** `shouldGameOver`: never, for any health. */
  function ShouldGameOver(health: real): (over: bool)
    ensures !over
  {
    false
  }

  /** `onGameOver`: a fixed message and no second line. */
  function OnGameOver(): (r: GameModeResult)
    ensures r.primaryDisplay == "Practice Complete" && r.secondaryDisplay.None?
  {
    GameModeResult("Practice Complete", None)
  }
}
