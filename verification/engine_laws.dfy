/** What the engine keeps true across a game: health within the bar, a
    non-negative score that never falls, colours from the palette, a
    selection on the grid, and a game-over that is reported exactly once.
    Also the player-visible session as a sequence of commands, and a
    worked opening move under the default configuration. */
module EngineLaws {
  import opened Wrappers
  import opened Numeric
  import opened Geometry
  import opened Config
  import opened Combo
  import opened GameModes
  import Classic
  import ModePolicy
  import opened Engine

  /** Tunables under which the rules make sense; the shipped defaults
      satisfy them (see `DefaultsAreSane`). */
  ghost predicate Sane(c: GameConfiguration, cs: ComboSettings) {
    && 1 <= c.gridSize
    && 1 <= c.numberOfColors
    && 0 < c.difficultyIncreasePerScore
    && 0.0 < c.minimumHealthDrainDuration
    && 0.0 <= c.healthRegenerationPercentage <= 1.0
    && 0.0 <= c.baseMultiplier
    && 0.0 <= cs.baseBonus
    && 0.0 <= cs.increment
  }

  /** The engine invariant. */
  ghost predicate Inv(b: Brain) {
    && Sane(b.configuration, b.comboSettings)
    && Wf(b)
    && ColorsValid(b.grid, b.configuration)
    && 0.0 <= b.health <= 1.0
    && 0 <= Score(b)
    && b.scoreHandler.baseMultiplier == b.configuration.baseMultiplier
    && (b.selectedPosition.Some? ==> IsValidPosition(b, b.selectedPosition.value))
  }

  /** The default configuration with the combo tunables of the combo
      handler's tests (a 3 s window, a 10% base bonus, 5% per step). */
  lemma DefaultsAreSane()
    ensures Sane(Config.Default, ComboSettings(3.0, 0.10, 0.05))
  {
  }

  /** A new engine satisfies the invariant. */
  lemma NewEstablishesInv(c: GameConfiguration, cs: ComboSettings, mode: GameMode, draw: ColorSource)
    requires Sane(c, cs) && GameModes.Valid(mode) && ColorsInRange(draw, c)
    ensures Inv(New(c, cs, mode, draw))
  {
  }

  /** The default engine: a 10 by 10 grid of the first five colours, in
      Classic at level 1. */
  lemma DefaultEngine(cs: ComboSettings, draw: ColorSource)
    requires ColorsInRange(draw, Config.Default)
    ensures var b := New(Config.Default, cs, NewClassic, draw);
      && |b.grid| == 10 && (forall y :: 0 <= y < 10 ==> |b.grid[y]| == 10)
      && (forall y, x :: 0 <= y < 10 && 0 <= x < 10 ==> 0 <= b.grid[y][x].colorIndex < 5)
      && b.gameMode.classic == Classic.ClassicState(1, 0, 50)
      && Score(b) == 0 && b.health == 1.0
  {
  }

  /** Sane tunables make every drain duration well defined. */
  lemma InvDrainDefined(b: Brain)
    requires Inv(b)
    ensures DrainDefined(b)
  {
  }

  /** A clear between two cells of the grid covers at most the whole
      grid. */
  lemma ClearFitsGrid(from: GridPosition, to: GridPosition, n: int)
    requires InGrid(from, n) && InGrid(to, n)
    ensures 0 <= (Abs(from.x - to.x) + 1) * (Abs(from.y - to.y) + 1) <= n * n
  {
    var w, h := Abs(from.x - to.x) + 1, Abs(from.y - to.y) + 1;
    MulMonotone(h, n, w);
    MulMonotone(w, n, n);
  }

  /** A successful match never lowers the score and never lowers health,
      which stays within the bar. */
  lemma MatchRaisesScoreAndHealth(b: Brain, from: GridPosition, to: GridPosition, now: real, draw: ColorSource)
    requires Inv(b)
    requires IsValidPosition(b, from) && IsValidPosition(b, to)
    ensures var r := HandleSuccessfulMatch(b, from, to, now, draw).0;
      Score(b) <= Score(r) && b.health <= r.health <= 1.0
  {
    var c := b.configuration;
    var cleared := (Abs(from.x - to.x) + 1) * (Abs(from.y - to.y) + 1);
    ClearFitsGrid(from, to, c.gridSize);
    var streak := Combo.Update(b.combo, b.comboSettings, now).0;
    MultiplierMonotone(b.comboSettings, 0, streak.currentCombo);
    assert Multiplier(streak, b.comboSettings) == Multiplier(ComboHandler(streak.currentCombo, None), b.comboSettings);
    assert 0 <= CalculateScore(b.gameMode, cleared, c.baseMultiplier, Multiplier(streak, b.comboSettings));
    assert 0.0 <= Regeneration(b, cleared) <= 1.0;
  }

  /** A successful match refills the grid from the palette. */
  lemma MatchKeepsPalette(b: Brain, from: GridPosition, to: GridPosition, now: real, draw: ColorSource)
    requires Inv(b) && ColorsInRange(draw, b.configuration)
    requires IsValidPosition(b, from) && IsValidPosition(b, to)
    ensures ColorsValid(HandleSuccessfulMatch(b, from, to, now, draw).0.grid, b.configuration)
  {
    var c := b.configuration;
    var r := HandleSuccessfulMatch(b, from, to, now, draw).0;
    forall y, x | 0 <= y < c.gridSize && 0 <= x < c.gridSize
      ensures 0 <= r.grid[y][x].colorIndex < c.numberOfColors && !r.grid[y][x].isEmpty
    {
      assert InGrid(GridPosition(x, y), c.gridSize);
    }
  }

  /** A successful match keeps the invariant. */
  lemma MatchPreservesInv(b: Brain, from: GridPosition, to: GridPosition, now: real, draw: ColorSource)
    requires Inv(b) && ColorsInRange(draw, b.configuration)
    requires IsValidPosition(b, from) && IsValidPosition(b, to)
    ensures var r := HandleSuccessfulMatch(b, from, to, now, draw);
      && Inv(r.0) && Score(b) <= Score(r.0) && b.health <= r.0.health
      && r.0.isGameOver == b.isGameOver && GameOver !in r.1
      && r.0.configuration == b.configuration && SameKind(b.gameMode, r.0.gameMode)
  {
    MatchRaisesScoreAndHealth(b, from, to, now, draw);
    MatchKeepsPalette(b, from, to, now, draw);
  }

  /** A match attempt keeps the invariant, never lowers the score, never
      changes the game-over flag and never reports a game over. */
  lemma AttemptPreservesInv(b: Brain, from: GridPosition, to: GridPosition, now: real, draw: ColorSource)
    requires Inv(b) && ColorsInRange(draw, b.configuration)
    ensures var r := AttemptMatch(b, from, to, now, draw);
      && Inv(r.0) && Score(b) <= Score(r.0)
      && r.0.isGameOver == b.isGameOver && GameOver !in r.1
      && r.0.configuration == b.configuration && SameKind(b.gameMode, r.0.gameMode)
  {
    if CheckCornersMatch(b, Corners(from, to)) {
      MatchedCorners(b, from, to);
      MatchPreservesInv(b, from, to, now, draw);
    }
  }

  /** Selecting a square keeps the invariant, never lowers the score,
      never changes the game-over flag and never reports a game over. */
  lemma SelectPreservesInv(b: Brain, p: GridPosition, now: real, draw: ColorSource)
    requires Inv(b) && ColorsInRange(draw, b.configuration)
    ensures var r := SelectSquare(b, p, now, draw);
      && Inv(r.0) && Score(b) <= Score(r.0)
      && r.0.isGameOver == b.isGameOver && GameOver !in r.1
      && r.0.configuration == b.configuration && SameKind(b.gameMode, r.0.gameMode)
  {
    if !b.isGameOver && IsValidPosition(b, p) && b.selectedPosition.Some? && b.selectedPosition != Some(p) {
      AttemptPreservesInv(b, b.selectedPosition.value, p, now, draw);
    }
  }

  /** Draining keeps the invariant and the score, and never raises
      health. */
  lemma DrainPreservesInv(b: Brain, deltaTime: real)
    requires Inv(b) && 0.0 <= deltaTime
    ensures var r := DrainHealth(b, deltaTime);
      && Inv(r.0) && Score(r.0) == Score(b) && r.0.health <= b.health
      && r.0.configuration == b.configuration && r.0.gameMode == b.gameMode
  {
  }

  /** Starting (or resetting) from any engine with sane tunables yields
      an engine satisfying the invariant. */
  lemma StartEstablishesInv(b: Brain, draw: ColorSource)
    requires Wf(b) && Sane(b.configuration, b.comboSettings) && ColorsInRange(draw, b.configuration)
    requires b.scoreHandler.baseMultiplier == b.configuration.baseMultiplier
    ensures Inv(ResetGame(b, draw).0) && Inv(StartGame(b, draw).0)
  {
  }

  /** What a player can do between a start and a game over: tap a square,
      drop the selection, or let time pass. */
  datatype Command =
    | Select(position: GridPosition, now: real, draw: ColorSource)
    | Deselect
    | Drain(deltaTime: real)

  /** Commands the engine is given: colour sources within the palette and
      time that moves forward. */
  ghost predicate Allowed(cmd: Command, c: GameConfiguration) {
    match cmd
    case Select(_, _, draw) => ColorsInRange(draw, c)
    case Deselect => true
    case Drain(dt) => 0.0 <= dt
  }

  function Step(b: Brain, cmd: Command): (r: (Brain, seq<Event>))
    requires Wf(b) && DrainDefined(b)
  {
    match cmd
    case Select(p, now, draw) => SelectSquare(b, p, now, draw)
    case Deselect => ClearSelection(b)
    case Drain(dt) => DrainHealth(b, dt)
  }

  /** How many times a game over is reported. */
  function GameOverCount(evs: seq<Event>): (k: nat)
    ensures k <= |evs|
    ensures k == 0 <==> GameOver !in evs
  {
    if |evs| == 0 then 0
    else (if evs[0] == GameOver then 1 else 0) + GameOverCount(evs[1..])
  }

  lemma {:induction false} GameOverCountAppend(a: seq<Event>, b: seq<Event>)
    ensures GameOverCount(a + b) == GameOverCount(a) + GameOverCount(b)
  {
    if |a| > 0 {
      assert (a + b)[1..] == a[1..] + b;
      GameOverCountAppend(a[1..], b);
    } else {
      assert a + b == b;
    }
  }

  /** One command keeps the invariant and the score's floor; the flag only
      ever goes from running to over, and is reported exactly when it
      does. */
  lemma StepFacts(b: Brain, cmd: Command)
    requires Inv(b) && Allowed(cmd, b.configuration)
    ensures DrainDefined(b)
    ensures var r := Step(b, cmd);
      && Inv(r.0) && Score(b) <= Score(r.0)
      && r.0.configuration == b.configuration
      && SameKind(b.gameMode, r.0.gameMode)
      && (b.isGameOver ==> r.0.isGameOver)
      && GameOverCount(r.1) == (if r.0.isGameOver && !b.isGameOver then 1 else 0)
  {
    match cmd
    case Select(p, now, draw) =>
      SelectPreservesInv(b, p, now, draw);
    case Deselect =>
    case Drain(dt) =>
      DrainPreservesInv(b, dt);
  }

  /** A run of commands, with all their events in order. */
  function Run(b: Brain, cmds: seq<Command>): (r: (Brain, seq<Event>))
    requires Inv(b)
    requires forall i :: 0 <= i < |cmds| ==> Allowed(cmds[i], b.configuration)
    decreases |cmds|
  {
    if |cmds| == 0 then (b, [])
    else
      StepFacts(b, cmds[0]);
      var s := Step(b, cmds[0]);
      var rest := Run(s.0, cmds[1..]);
      (rest.0, s.1 + rest.1)
  }

  /** Over any run: the invariant holds at the end, the score never
      falls, the mode stays of one kind, a finished game stays finished,
      and a game over is reported exactly once if the run ends a running
      game and never otherwise. */
  lemma {:induction false} RunFacts(b: Brain, cmds: seq<Command>)
    requires Inv(b)
    requires forall i :: 0 <= i < |cmds| ==> Allowed(cmds[i], b.configuration)
    ensures var r := Run(b, cmds);
      && Inv(r.0) && Score(b) <= Score(r.0)
      && r.0.configuration == b.configuration
      && SameKind(b.gameMode, r.0.gameMode)
      && (b.isGameOver ==> r.0.isGameOver)
      && GameOverCount(r.1) == (if r.0.isGameOver && !b.isGameOver then 1 else 0)
    decreases |cmds|
  {
    if |cmds| > 0 {
      StepFacts(b, cmds[0]);
      var s := Step(b, cmds[0]);
      assert forall i :: 0 <= i < |cmds[1..]| ==> cmds[1..][i] == cmds[i + 1];
      RunFacts(s.0, cmds[1..]);
      GameOverCountAppend(s.1, Run(s.0, cmds[1..]).1);
    }
  }

  /** Training never ends, however long the session. */
  lemma {:induction false} TrainingNeverEnds(b: Brain, cmds: seq<Command>)
    requires Inv(b) && b.gameMode.TrainingMode? && !b.isGameOver
    requires forall i :: 0 <= i < |cmds| ==> Allowed(cmds[i], b.configuration)
    ensures !Run(b, cmds).0.isGameOver
    ensures GameOver !in Run(b, cmds).1
    decreases |cmds|
  {
    if |cmds| > 0 {
      StepFacts(b, cmds[0]);
      var s := Step(b, cmds[0]);
      assert !s.0.isGameOver by {
        if cmds[0].Select? {
          SelectPreservesInv(b, cmds[0].position, cmds[0].now, cmds[0].draw);
        }
      }
      assert forall i :: 0 <= i < |cmds[1..]| ==> cmds[1..][i] == cmds[i + 1];
      TrainingNeverEnds(s.0, cmds[1..]);
      RunFacts(b, cmds);
    }
  }

  /** A game over does not stop matches: once the flag is set, taps are
      ignored, but nothing else in the engine guards a match. Draining a
      finished game changes nothing. */
  lemma FinishedGameIsFrozen(b: Brain, p: GridPosition, now: real, draw: ColorSource, dt: real)
    requires Wf(b) && DrainDefined(b) && b.isGameOver
    ensures SelectSquare(b, p, now, draw) == (b, [])
    ensures DrainHealth(b, dt) == (b, [])
  {
  }

  /** The four corners of a whole `n` by `n` board match when the three
      other corners share the top-left cell's colour. */
  lemma FullBoardCorners(b: Brain)
    requires Wf(b) && 1 <= b.configuration.gridSize
    requires var n := b.configuration.gridSize;
      && ColorAt(b, GridPosition(n - 1, 0)) == ColorAt(b, GridPosition(0, 0))
      && ColorAt(b, GridPosition(0, n - 1)) == ColorAt(b, GridPosition(0, 0))
      && ColorAt(b, GridPosition(n - 1, n - 1)) == ColorAt(b, GridPosition(0, 0))
    ensures var n := b.configuration.gridSize;
      CheckCornersMatch(b, Corners(GridPosition(0, 0), GridPosition(n - 1, n - 1)))
  {
    var n := b.configuration.gridSize;
    var cs := Corners(GridPosition(0, 0), GridPosition(n - 1, n - 1));
    assert cs == [GridPosition(0, 0), GridPosition(n - 1, 0), GridPosition(0, n - 1), GridPosition(n - 1, n - 1)];
  }

  /** The first match of a fresh streak in Classic: matching the whole
      board scores every square at combo multiplier 1, refills the bar and
      feeds all n * n squares to the level ladder. */
  lemma FullBoardMatch(b: Brain, now: real, draw: ColorSource)
    requires Wf(b) && 1 <= b.configuration.gridSize && 0.0 <= b.health
    requires b.gameMode.ClassicMode? && b.combo.lastSuccessTime.None?
    requires var n := b.configuration.gridSize;
      && ColorAt(b, GridPosition(n - 1, 0)) == ColorAt(b, GridPosition(0, 0))
      && ColorAt(b, GridPosition(0, n - 1)) == ColorAt(b, GridPosition(0, 0))
      && ColorAt(b, GridPosition(n - 1, n - 1)) == ColorAt(b, GridPosition(0, 0))
    ensures var n := b.configuration.gridSize;
            var r := AttemptMatch(b, GridPosition(0, 0), GridPosition(n - 1, n - 1), now, draw);
            var level := Classic.OnSuccessfulMatch(b.gameMode.classic, n * n);
      && Score(r.0) == Score(b) + ModePolicy.DefaultScore(n * n, b.configuration.baseMultiplier, 1.0)
      && r.0.health == 1.0
      && r.0.gameMode == ClassicMode(level)
      && r.0.combo == ComboHandler(1, Some(now))
      && r.0.selectedPosition.None?
      && r.1 == [ScoreUpdated(Score(r.0)), HealthUpdated(1.0),
                 LevelUpdated(level.level, level.experience, level.experienceToNextLevel),
                 SquaresCleared(GridPosition(0, 0), GridPosition(n - 1, n - 1)), SelectionCleared, GridUpdated]
  {
    var n := b.configuration.gridSize;
    FullBoardCorners(b);
    var to := GridPosition(n - 1, n - 1);
    assert AttemptMatch(b, GridPosition(0, 0), to, now, draw) == HandleSuccessfulMatch(b, GridPosition(0, 0), to, now, draw);
    FullBoardOutcome(b, now, draw);
  }

  lemma FullBoardOutcome(b: Brain, now: real, draw: ColorSource)
    requires Wf(b) && 1 <= b.configuration.gridSize && 0.0 <= b.health
    requires b.gameMode.ClassicMode? && b.combo.lastSuccessTime.None?
    ensures var n := b.configuration.gridSize;
            var r := HandleSuccessfulMatch(b, GridPosition(0, 0), GridPosition(n - 1, n - 1), now, draw);
            var level := Classic.OnSuccessfulMatch(b.gameMode.classic, n * n);
      && Score(r.0) == Score(b) + ModePolicy.DefaultScore(n * n, b.configuration.baseMultiplier, 1.0)
      && r.0.health == 1.0
      && r.0.gameMode == ClassicMode(level)
      && r.0.combo == ComboHandler(1, Some(now))
      && r.0.selectedPosition.None?
      && r.1 == [ScoreUpdated(Score(r.0)), HealthUpdated(1.0),
                 LevelUpdated(level.level, level.experience, level.experienceToNextLevel),
                 SquaresCleared(GridPosition(0, 0), GridPosition(n - 1, n - 1)), SelectionCleared, GridUpdated]
  {
    var n := b.configuration.gridSize;
    var from, to := GridPosition(0, 0), GridPosition(n - 1, n - 1);
    FullBoardSize(from, to, n);
    FirstOfStreak(b, now);
    FullBoardState(b, now, draw, n * n);
    FullBoardEvents(b, now, draw, n * n);
  }

  /** The state half of `FullBoardOutcome`. */
  lemma FullBoardState(b: Brain, now: real, draw: ColorSource, cleared: int)
    requires Wf(b) && 1 <= b.configuration.gridSize && 0.0 <= b.health
    requires b.gameMode.ClassicMode? && b.combo.lastSuccessTime.None?
    requires cleared == b.configuration.gridSize * b.configuration.gridSize
    ensures var n := b.configuration.gridSize;
            var r := HandleSuccessfulMatch(b, GridPosition(0, 0), GridPosition(n - 1, n - 1), now, draw);
      && Score(r.0) == Score(b) + ModePolicy.DefaultScore(cleared, b.configuration.baseMultiplier, 1.0)
      && r.0.health == 1.0
      && r.0.gameMode == ClassicMode(Classic.OnSuccessfulMatch(b.gameMode.classic, cleared))
      && r.0.combo == ComboHandler(1, Some(now))
      && r.0.selectedPosition.None?
  {
    var n := b.configuration.gridSize;
    var from, to := GridPosition(0, 0), GridPosition(n - 1, n - 1);
    FullBoardSize(from, to, n);
    FirstOfStreak(b, now);
    FullBoardHealth(b, cleared);
    ClassicProgress(b.gameMode, cleared);
    var r := HandleSuccessfulMatch(b, from, to, now, draw);
    assert r.0.gameMode == GameModes.OnSuccessfulMatch(b.gameMode, cleared);
    assert Score(r.0) == Score(b) + CalculateScore(b.gameMode, cleared, b.configuration.baseMultiplier, 1.0);
  }

  /** The event half of `FullBoardOutcome`. */
  lemma FullBoardEvents(b: Brain, now: real, draw: ColorSource, cleared: int)
    requires Wf(b) && 1 <= b.configuration.gridSize && 0.0 <= b.health
    requires b.gameMode.ClassicMode? && b.combo.lastSuccessTime.None?
    requires cleared == b.configuration.gridSize * b.configuration.gridSize
    ensures var n := b.configuration.gridSize;
            var r := HandleSuccessfulMatch(b, GridPosition(0, 0), GridPosition(n - 1, n - 1), now, draw);
            var level := Classic.OnSuccessfulMatch(b.gameMode.classic, cleared);
      r.1 == [ScoreUpdated(Score(r.0)), HealthUpdated(r.0.health),
              LevelUpdated(level.level, level.experience, level.experienceToNextLevel),
              SquaresCleared(GridPosition(0, 0), GridPosition(n - 1, n - 1)), SelectionCleared, GridUpdated]
  {
    var n := b.configuration.gridSize;
    var from, to := GridPosition(0, 0), GridPosition(n - 1, n - 1);
    FullBoardSize(from, to, n);
    FirstOfStreak(b, now);
    ClassicProgress(b.gameMode, cleared);
  }

  /** Clearing the whole grid refills the bar. */
  lemma FullBoardHealth(b: Brain, cleared: int)
    requires Wf(b) && 1 <= b.configuration.gridSize && 0.0 <= b.health && b.gameMode.ClassicMode?
    requires cleared == b.configuration.gridSize * b.configuration.gridSize
    ensures RegenerateHealth(b, cleared).0.health == 1.0
  {
    assert Regeneration(b, cleared) == 1.0;
  }

  /** A Classic match reports the level reached by the mode's own ladder. */
  lemma ClassicProgress(m: GameMode, cleared: int)
    requires m.ClassicMode? && GameModes.Valid(m)
    ensures var level := Classic.OnSuccessfulMatch(m.classic, cleared);
      && GameModes.OnSuccessfulMatch(m, cleared) == ClassicMode(level)
      && LevelProgressEvents(ClassicMode(level)) == [LevelUpdated(level.level, level.experience, level.experienceToNextLevel)]
  {
  }

  lemma FullBoardSize(from: GridPosition, to: GridPosition, n: int)
    requires from == GridPosition(0, 0) && to == GridPosition(n - 1, n - 1) && 1 <= n
    ensures (Abs(from.x - to.x) + 1) * (Abs(from.y - to.y) + 1) == n * n
  {
  }

  /** The first success after no previous one starts a streak of one,
      with no bonus. */
  lemma FirstOfStreak(b: Brain, now: real)
    requires b.combo.lastSuccessTime.None?
    ensures Combo.Update(b.combo, b.comboSettings, now).0 == ComboHandler(1, Some(now))
    ensures Multiplier(ComboHandler(1, Some(now)), b.comboSettings) == 1.0
  {
  }

  /** Matching the whole board redraws every cell. */
  lemma FullBoardRedraw(b: Brain, now: real, draw: ColorSource)
    requires Wf(b) && 1 <= b.configuration.gridSize
    ensures var n := b.configuration.gridSize;
            var r := HandleSuccessfulMatch(b, GridPosition(0, 0), GridPosition(n - 1, n - 1), now, draw);
      forall y, x :: 0 <= y < n && 0 <= x < n ==> r.0.grid[y][x] == Square(draw(GridPosition(x, y)), false)
  {
    var n := b.configuration.gridSize;
    assert forall y, x :: 0 <= y < n && 0 <= x < n ==> InBox(GridPosition(x, y), GridPosition(0, 0), GridPosition(n - 1, n - 1));
  }

  /** The opening match of a default Classic game, selected from the
      top-left then the bottom-right: 100 squares at multiplier 1 score
      100, and 100 experience climbs to level 2 with 50 of 75 experience
      toward level 3. */
  lemma DefaultOpeningMatch(b: Brain, now: real, draw: ColorSource)
    requires Wf(b) && 0.0 <= b.health
    requires b.configuration.gridSize == Config.Default.gridSize
    requires b.configuration.baseMultiplier == Config.Default.baseMultiplier
    requires b.gameMode == NewClassic && b.combo == Combo.Initial && Score(b) == 0
    requires !b.isGameOver && b.selectedPosition == Some(GridPosition(0, 0))
    requires ColorAt(b, GridPosition(9, 0)) == ColorAt(b, GridPosition(0, 0))
    requires ColorAt(b, GridPosition(0, 9)) == ColorAt(b, GridPosition(0, 0))
    requires ColorAt(b, GridPosition(9, 9)) == ColorAt(b, GridPosition(0, 0))
    ensures var n := b.configuration.gridSize;
            var r := AttemptMatch(b, GridPosition(0, 0), GridPosition(n - 1, n - 1), now, draw);
      && Score(r.0) == 100
      && r.0.health == 1.0
      && r.0.gameMode == ClassicMode(Classic.ClassicState(2, 50, 75))
      && r.1 == [ScoreUpdated(100), HealthUpdated(1.0), LevelUpdated(2, 50, 75),
                 SquaresCleared(GridPosition(0, 0), GridPosition(9, 9)), SelectionCleared, GridUpdated]
  {
    var n := b.configuration.gridSize;
    assert n == 10 && n * n == 100;
    assert b.configuration.baseMultiplier == 1.0;
    DefaultOpeningNumbers(b.gameMode.classic, n * n, b.configuration.baseMultiplier);
    FullBoardMatch(b, now, draw);
  }

  /** The default numbers of the opening match: 100 squares at base and
      combo multiplier 1 are worth 100 points, and 100 experience from
      level 1 reaches level 2 with 50 of 75 experience. */
  lemma DefaultOpeningNumbers(s: Classic.ClassicState, cleared: int, base: real)
    requires s == Classic.Fresh && cleared == 100 && base == 1.0
    ensures ModePolicy.DefaultScore(cleared, base, 1.0) == 100
    ensures Classic.OnSuccessfulMatch(s, cleared) == Classic.ClassicState(2, 50, 75)
  {
    ModePolicy.DefaultScoreUnit(100);
    Classic.LadderExamples(s);
  }

  /** Corners of different colours: the selection is dropped, the failure
      reported, and nothing else changes. */
  lemma MismatchedCornersFail(b: Brain, from: GridPosition, to: GridPosition, now: real, draw: ColorSource)
    requires Wf(b) && IsValidPosition(b, from) && IsValidPosition(b, to)
    requires ColorAt(b, to) != ColorAt(b, from)
    ensures AttemptMatch(b, from, to, now, draw) ==
      (b.(selectedPosition := None), [SelectionFailed(from, to), SelectionCleared])
  {
    if CheckCornersMatch(b, Corners(from, to)) {
      MatchedCorners(b, from, to);
    }
  }
}
