/** The three modes as one variant type carrying each mode's own state,
    with the policy of the `GameModeLogic` protocol dispatched on it. */
module GameModes {
  import opened Wrappers
  import opened Numeric
  import opened Config
  import opened ModePolicy
  import Classic
  import Survival
  import Training

  datatype GameMode =
    | ClassicMode(classic: Classic.ClassicState)
    | SurvivalMode(survival: Survival.SurvivalState)
    | TrainingMode

  /** A freshly constructed mode object of each kind. */
  const NewClassic := ClassicMode(Classic.Fresh)
  const NewSurvival := SurvivalMode(Survival.Fresh)

  predicate Valid(m: GameMode) {
    match m
    case ClassicMode(s) => Classic.Valid(s)
    case SurvivalMode(s) => Survival.Valid(s)
    case TrainingMode => true
  }

  /** The two modes are the same kind of mode. */
  predicate SameKind(m1: GameMode, m2: GameMode) {
    (m1.ClassicMode? <==> m2.ClassicMode?) && (m1.SurvivalMode? <==> m2.SurvivalMode?)
  }

  function ShouldShowHealthBar(m: GameMode): (shown: bool)
    ensures shown <==> !m.TrainingMode?
  {
    match m
    case ClassicMode(_) => Classic.ShowsHealthBar
    case SurvivalMode(_) => Survival.ShowsHealthBar
    case TrainingMode => Training.ShowsHealthBar
  }

  function ShouldShowScore(m: GameMode): (shown: bool)
    ensures shown <==> m.ClassicMode?
  {
    match m
    case ClassicMode(_) => Classic.ShowsScore
    case SurvivalMode(_) => Survival.ShowsScore
    case TrainingMode => Training.ShowsScore
  }

  function ShouldShowLevel(m: GameMode): (shown: bool)
    ensures shown <==> m.ClassicMode?
  {
    match m
    case ClassicMode(_) => Classic.ShowsLevel
    case SurvivalMode(_) => Survival.ShowsLevel
    case TrainingMode => Training.ShowsLevel
  }

  function ShouldShowTimer(m: GameMode): (shown: bool)
    ensures shown <==> m.SurvivalMode?
  {
    match m
    case ClassicMode(_) => Classic.ShowsTimer
    case SurvivalMode(_) => Survival.ShowsTimer
    case TrainingMode => Training.ShowsTimer
  }

  /** What each mode shows: Classic all but the timer; Survival the health
      bar and the timer only; Training nothing. Only Survival has a timer,
      and the score is shown exactly when levels are. */
  lemma VisibilityTable(m: GameMode)
    ensures m.ClassicMode? ==> ShouldShowHealthBar(m) && ShouldShowScore(m) && ShouldShowLevel(m) && !ShouldShowTimer(m)
    ensures m.SurvivalMode? ==> ShouldShowHealthBar(m) && !ShouldShowScore(m) && !ShouldShowLevel(m) && ShouldShowTimer(m)
    ensures m.TrainingMode? ==> !ShouldShowHealthBar(m) && !ShouldShowScore(m) && !ShouldShowLevel(m) && !ShouldShowTimer(m)
    ensures ShouldShowTimer(m) <==> m.SurvivalMode?
    ensures ShouldShowScore(m) <==> ShouldShowLevel(m)
  {
  }

  /** `calculateHealthDrainDuration`, with `None` for Training's infinite
      duration. Classic's integer division needs a non-zero step. */
  function HealthDrainDuration(m: GameMode, baseDuration: real, score: int, c: GameConfiguration): (d: Option<real>)
    requires m.ClassicMode? ==> c.difficultyIncreasePerScore != 0
    ensures d.None? <==> m.TrainingMode?
    ensures m.SurvivalMode? ==> d == Some(3.0)
    ensures m.ClassicMode? ==> d == Some(Classic.DrainDuration(baseDuration, score, c))
    ensures m.ClassicMode? ==> c.minimumHealthDrainDuration <= d.value
  {
    match m
    case ClassicMode(_) => Some(Classic.DrainDuration(baseDuration, score, c))
    case SurvivalMode(_) => Some(Survival.DrainDuration(baseDuration, score, c))
    case TrainingMode => Training.DrainDuration(baseDuration, score, c)
  }

  /** `calculateHealthRegeneration`. Classic's share of the grid needs a
      non-empty grid. With a base share within a full bar and a clear that
      fits on the grid, every mode regenerates between nothing and a full
      bar. */
  function HealthRegeneration(m: GameMode, baseRegeneration: real, squaresCleared: int, c: GameConfiguration): (g: real)
    requires m.ClassicMode? ==> c.gridSize != 0
    ensures m.SurvivalMode? ==> g == 0.8
    ensures m.TrainingMode? ==> g == 0.0
    ensures m.ClassicMode? ==> g == Classic.Regeneration(baseRegeneration, squaresCleared, c)
    ensures 0.0 <= baseRegeneration <= 1.0 && 0 <= squaresCleared <= c.gridSize * c.gridSize ==> 0.0 <= g <= 1.0
  {
    match m
    case ClassicMode(_) => Classic.Regeneration(baseRegeneration, squaresCleared, c)
    case SurvivalMode(_) => Survival.Regeneration(baseRegeneration, squaresCleared, c)
    case TrainingMode => Training.Regeneration(baseRegeneration, squaresCleared, c)
  }

  /** `calculateScore`: the protocol default except in Training, which
      overrides it with zero. Survival inherits the default although it
      hides the score. */
  function CalculateScore(m: GameMode, squaresCleared: int, baseMultiplier: real, comboMultiplier: real): (s: int)
    ensures m.TrainingMode? ==> s == 0
    ensures !m.TrainingMode? ==> s == DefaultScore(squaresCleared, baseMultiplier, comboMultiplier)
    ensures 0 <= squaresCleared && 0.0 <= baseMultiplier && 0.0 <= comboMultiplier ==> 0 <= s
  {
    match m
    case TrainingMode => Training.Score(squaresCleared, baseMultiplier, comboMultiplier)
    case _ => DefaultScore(squaresCleared, baseMultiplier, comboMultiplier)
  }

  /** `shouldGameOver`: an empty bar ends Classic and Survival; Training
      never ends. */
  function ShouldGameOver(m: GameMode, health: real): (over: bool)
    ensures over <==> !m.TrainingMode? && health <= 0.0
  {
    match m
    case ClassicMode(_) => Classic.ShouldGameOver(health)
    case SurvivalMode(_) => Survival.ShouldGameOver(health)
    case TrainingMode => Training.ShouldGameOver(health)
  }

  /** `onSuccessfulMatch`: only Classic reacts, by gaining experience. */
  function OnSuccessfulMatch(m: GameMode, squaresCleared: int): (r: GameMode)
    requires Valid(m)
    ensures Valid(r) && SameKind(m, r)
    ensures !m.ClassicMode? ==> r == m
    ensures m.ClassicMode? ==> r.classic.level >= m.classic.level
    ensures m.ClassicMode? ==> r == ClassicMode(Classic.OnSuccessfulMatch(m.classic, squaresCleared))
  {
    match m
    case ClassicMode(s) => ClassicMode(Classic.OnSuccessfulMatch(s, squaresCleared))
    case SurvivalMode(s) => SurvivalMode(Survival.OnSuccessfulMatch(s, squaresCleared))
    case TrainingMode => m
  }

  /** `onGameStart`: Classic returns to level 1, Survival restarts its
      clock, Training has nothing to reset. */
  function OnGameStart(m: GameMode): (r: GameMode)
    ensures Valid(r) && SameKind(m, r)
    ensures m.ClassicMode? ==> r == NewClassic
    ensures m.SurvivalMode? ==> r == NewSurvival
    ensures m.TrainingMode? ==> r == m
  {
    match m
    case ClassicMode(s) => ClassicMode(Classic.OnGameStart(s))
    case SurvivalMode(s) => SurvivalMode(Survival.OnGameStart(s))
    case TrainingMode => m
  }

  /** One firing of the survival timer; the other modes have none. */
  function Tick(m: GameMode): (r: GameMode)
    ensures Valid(m) ==> Valid(r)
    ensures SameKind(m, r)
    ensures !m.SurvivalMode? ==> r == m
    ensures m.SurvivalMode? ==> r.survival.survivalTime > m.survival.survivalTime
    ensures m.SurvivalMode? ==> r == SurvivalMode(Survival.Tick(m.survival))
  {
    match m
    case SurvivalMode(s) => SurvivalMode(Survival.Tick(s))
    case _ => m
  }

  /** `onGameOver`: the mode's end-of-game summary. */
  function OnGameOver(m: GameMode, score: int): (r: GameModeResult)
    requires Valid(m)
    ensures m.TrainingMode? ==> r == GameModeResult("Practice Complete", None)
    ensures m.ClassicMode? ==> r == Classic.OnGameOver(m.classic, score)
    ensures m.SurvivalMode? ==> r == Survival.OnGameOver(m.survival)
    ensures r.secondaryDisplay.Some? <==> m.ClassicMode?
  {
    match m
    case ClassicMode(s) => Classic.OnGameOver(s, score)
    case SurvivalMode(s) => Survival.OnGameOver(s)
    case TrainingMode => Training.OnGameOver()
  }
}
