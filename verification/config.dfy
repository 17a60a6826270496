/** `GameConfiguration`: the per-game tunables and their defaults, and the
    palette prefix a game draws its colours from. */
module Config {
  import opened Numeric

  datatype Color = Red | Blue | Green | Yellow | Purple | Orange | Pink | Cyan

  /** The fixed palette, in the order colour indices refer to it. */
  const AvailableColors: seq<Color> := [Red, Blue, Green, Yellow, Purple, Orange, Pink, Cyan]

  datatype GameConfiguration = GameConfiguration(
    gridSize: int,
    numberOfColors: int,
    initialHealthDrainDuration: real,   // seconds
    minimumHealthDrainDuration: real,   // seconds
    healthRegenerationPercentage: real,
    baseMultiplier: real,
    difficultyIncreasePerScore: int,
    drainSpeedIncreasePercentage: real)

  /** `GameConfiguration()` with every field at its declared default. */
  const Default := GameConfiguration(
    gridSize := 10,
    numberOfColors := 5,
    initialHealthDrainDuration := 30.0,
    minimumHealthDrainDuration := 2.0,
    healthRegenerationPercentage := 0.15,
    baseMultiplier := 1.0,
    difficultyIncreasePerScore := 100,
    drainSpeedIncreasePercentage := 0.1)

  /** `colors()`: the first `numberOfColors` palette entries, or the whole
      palette when more are asked for. Swift's `prefix` traps on a negative
      length, hence the precondition. */
  function Colors(c: GameConfiguration): (r: seq<Color>)
    requires 0 <= c.numberOfColors
    ensures |r| == Min(c.numberOfColors, |AvailableColors|)
    ensures r <= AvailableColors
  {
    if c.numberOfColors <= |AvailableColors| then AvailableColors[..c.numberOfColors] else AvailableColors
  }

  /** The palette has no repeated colour, so neither does any prefix of it:
      distinct colour indices are distinct colours. */
  lemma ColorsDistinct(c: GameConfiguration)
    requires 0 <= c.numberOfColors
    ensures forall i, j :: 0 <= i < j < |Colors(c)| ==> Colors(c)[i] != Colors(c)[j]
  {
  }

  /** The default game: a 10 by 10 grid, five colours (red, blue, green,
      yellow, purple), a 30 s drain slowed to no less than 2 s, 15% base
      regeneration, an unscaled score, and a 10% faster drain per 100
      points. The drain floor is positive, so dividing by a drain duration
      is always defined. */
  lemma DefaultValues()
    ensures Default.gridSize == 10 && Default.numberOfColors == 5
    ensures Colors(Default) == [Red, Blue, Green, Yellow, Purple]
    ensures Default.initialHealthDrainDuration == 30.0
    ensures 0.0 < Default.minimumHealthDrainDuration == 2.0
    ensures Default.healthRegenerationPercentage == 0.15
    ensures Default.baseMultiplier == 1.0
    ensures Default.difficultyIncreasePerScore == 100
    ensures Default.drainSpeedIncreasePercentage == 0.1
  {
  }
}
