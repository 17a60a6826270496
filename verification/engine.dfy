/** `Brain`: the game engine. It owns the grid, the selection, health and
    the game-over flag, drives the score and combo handlers and the active
    mode, and reports every change as an event. Each operation is a pure
    transition returning the new engine and the events it emitted, in
    order. Wall-clock time is an explicit `now`, and random colours come
    from a caller-supplied source. */
module Engine {
  import opened Wrappers
  import opened Numeric
  import opened Geometry
  import opened Config
  import opened Combo
  import Scoring
  import opened GameModes
  import ModePolicy
  import Classic

  /** One cell. `isEmpty` is never set by the current rules. */
  datatype Square = Square(colorIndex: int, isEmpty: bool)

  /** The notifications of the engine's delegate. */
  datatype Event =
    | GridUpdated
    | HealthUpdated(health: real)
    | ScoreUpdated(score: int)
    | GameOver
    | SquaresSelected(squares: set<GridPosition>)
    | SelectionCleared
    | SquaresCleared(from: GridPosition, to: GridPosition)
    | SelectionFailed(from: GridPosition, to: GridPosition)
    | ComboTriggered(comboCount: int)
    | LevelUpdated(level: int, experience: int, experienceToNextLevel: int)

  datatype Brain = Brain(
    configuration: GameConfiguration,
    comboSettings: ComboSettings,
    gameMode: GameMode,
    grid: seq<seq<Square>>,     // grid[y][x]
    health: real,
    isGameOver: bool,
    selectedPosition: Option<GridPosition>,
    combo: ComboHandler,
    scoreHandler: Scoring.ScoreHandler)

  /** Where fresh colours come from: the colour a cell gets when it is
      (re)filled. The source draws uniformly at random; any source will
      do here, one per operation. */
  type ColorSource = GridPosition -> int

  /** The source only yields colour indices of the configured palette. */
  ghost predicate ColorsInRange(draw: ColorSource, c: GameConfiguration) {
    forall p :: InGrid(p, c.gridSize) ==> 0 <= draw(p) < c.numberOfColors
  }

  /** `grid` has `n` rows of `n` squares. */
  predicate Shaped(grid: seq<seq<Square>>, n: int) {
    |grid| == n && forall y :: 0 <= y < n ==> |grid[y]| == n
  }

  /** Every square of the grid holds a colour of the palette. */
  predicate ColorsValid(grid: seq<seq<Square>>, c: GameConfiguration)
    requires Shaped(grid, c.gridSize)
  {
    forall y, x :: 0 <= y < c.gridSize && 0 <= x < c.gridSize ==>
      0 <= grid[y][x].colorIndex < c.numberOfColors && !grid[y][x].isEmpty
  }

  /** What every operation relies on: a square grid of the configured
      size and a well-formed mode state. */
  predicate Wf(b: Brain) {
    && 0 <= b.configuration.gridSize
    && Shaped(b.grid, b.configuration.gridSize)
    && GameModes.Valid(b.gameMode)
  }

  /** `initializeGrid`: every cell freshly drawn. */
  function InitializeGrid(c: GameConfiguration, draw: ColorSource): (g: seq<seq<Square>>)
    requires 0 <= c.gridSize
    ensures Shaped(g, c.gridSize)
    ensures forall y, x :: 0 <= y < c.gridSize && 0 <= x < c.gridSize ==>
      g[y][x] == Square(draw(GridPosition(x, y)), false)
    ensures ColorsInRange(draw, c) ==> ColorsValid(g, c)
  {
    var g := seq(c.gridSize, y => seq(c.gridSize, x => Square(draw(GridPosition(x, y)), false)));
    assert ColorsInRange(draw, c) ==> ColorsValid(g, c) by {
      if ColorsInRange(draw, c) {
        forall y, x | 0 <= y < c.gridSize && 0 <= x < c.gridSize
          ensures 0 <= g[y][x].colorIndex < c.numberOfColors
        {
          assert InGrid(GridPosition(x, y), c.gridSize);
        }
      }
    }
    g
  }

  /** `init(configuration:gameModeLogic:)`: full health, no selection, no
      streak, no score, and a freshly drawn grid. */
  function New(c: GameConfiguration, cs: ComboSettings, mode: GameMode, draw: ColorSource): (b: Brain)
    requires 0 <= c.gridSize && GameModes.Valid(mode)
    ensures Wf(b)
    ensures b.configuration == c && b.comboSettings == cs && b.gameMode == mode
    ensures b.health == 1.0 && !b.isGameOver && b.selectedPosition.None?
    ensures b.combo == Combo.Initial
    ensures b.scoreHandler == Scoring.New(c.baseMultiplier)
    ensures forall y, x :: 0 <= y < c.gridSize && 0 <= x < c.gridSize ==>
      b.grid[y][x] == Square(draw(GridPosition(x, y)), false)
  {
    Brain(c, cs, mode, InitializeGrid(c, draw), 1.0, false, None, Combo.Initial, Scoring.New(c.baseMultiplier))
  }

  /** `score`: read through to the score handler. */
  function Score(b: Brain): (s: int)
    ensures s == b.scoreHandler.score
  {
    b.scoreHandler.score
  }

  /** `isValidPosition`: both coordinates within `0 ..< gridSize`. */
  function IsValidPosition(b: Brain, p: GridPosition): (v: bool)
    ensures v <==> InGrid(p, b.configuration.gridSize)
  {
    0 <= p.x < b.configuration.gridSize && 0 <= p.y < b.configuration.gridSize
  }

  /** On a non-empty grid, the valid positions are exactly the cells of the
      rectangle spanned by the two opposite corners of the board. */
  lemma ValidPositionsFormTheBoard(b: Brain, p: GridPosition)
    requires 1 <= b.configuration.gridSize
    ensures IsValidPosition(b, p) <==>
      p in Area(GridPosition(0, 0), GridPosition(b.configuration.gridSize - 1, b.configuration.gridSize - 1))
  {
  }

  /** `square(at:)`: the square at a valid position, `None` elsewhere. */
  function SquareAt(b: Brain, p: GridPosition): (r: Option<Square>)
    requires Wf(b)
    ensures r.None? <==> !InGrid(p, b.configuration.gridSize)
    ensures r.Some? ==> r.value == b.grid[p.y][p.x]
  {
    if IsValidPosition(b, p) then Some(b.grid[p.y][p.x]) else None
  }

  /** `colorIndex(at:)`. */
  function ColorIndexAt(b: Brain, p: GridPosition): (r: Option<int>)
    requires Wf(b)
    ensures r.None? <==> !InGrid(p, b.configuration.gridSize)
    ensures r.Some? ==> r.value == b.grid[p.y][p.x].colorIndex
  {
    match SquareAt(b, p)
    case Some(sq) => Some(sq.colorIndex)
    case None => None
  }

  /** `clearSelection`. */
  function ClearSelection(b: Brain): (r: (Brain, seq<Event>))
    ensures r.0 == b.(selectedPosition := None)
    ensures r.1 == [SelectionCleared]
  {
    (b.(selectedPosition := None), [SelectionCleared])
  }

  /** `previewSelection(from:to:)`: the cells a drag would cover, or
      nothing if either end is off the grid. A query: the engine is not
      changed and nothing is reported. */
  function PreviewSelection(b: Brain, a: GridPosition, c: GridPosition): (s: set<GridPosition>)
    ensures !(IsValidPosition(b, a) && IsValidPosition(b, c)) ==> s == {}
    ensures IsValidPosition(b, a) && IsValidPosition(b, c) ==>
      && (forall p :: p in s <==> InBox(p, a, c))
      && |s| == (Abs(a.x - c.x) + 1) * (Abs(a.y - c.y) + 1)
  {
    if IsValidPosition(b, a) && IsValidPosition(b, c) then
      var area := Area(a, c);
      DistinctSetSize(area);
      set p | p in area
    else {}
  }

  /** The set of a sequence without repetitions is as large as the
      sequence. */
  lemma {:induction false} DistinctSetSize<T>(s: seq<T>)
    requires Distinct(s)
    ensures |set x | x in s| == |s|
  {
    if |s| > 0 {
      var tail := s[1..];
      assert Distinct(tail) by {
        forall i, j | 0 <= i < j < |tail|
          ensures tail[i] != tail[j]
        {
          assert tail[i] == s[i + 1] && tail[j] == s[j + 1];
        }
      }
      DistinctSetSize(tail);
      assert s[0] !in tail by {
        forall i | 0 <= i < |tail|
          ensures tail[i] != s[0]
        {
          assert tail[i] == s[i + 1];
        }
      }
      assert (set x | x in s) == {s[0]} + (set x | x in tail);
    }
  }

  /** The colours found at the given positions, skipping positions off the
      grid (the source's `compactMap`). */
  function CornerColors(b: Brain, ps: seq<GridPosition>): (cs: seq<int>)
    requires Wf(b)
    ensures |cs| <= |ps|
    ensures |cs| == |ps| <==> forall i :: 0 <= i < |ps| ==> IsValidPosition(b, ps[i])
    ensures |cs| == |ps| ==> forall i :: 0 <= i < |ps| ==> cs[i] == b.grid[ps[i].y][ps[i].x].colorIndex
    ensures |ps| == 1 && IsValidPosition(b, ps[0]) ==> cs == [b.grid[ps[0].y][ps[0].x].colorIndex]
    ensures |ps| == 1 && !IsValidPosition(b, ps[0]) ==> cs == []
    decreases |ps|
  {
    if |ps| == 0 then []
    else
      var head := match ColorIndexAt(b, ps[0]) case Some(c) => [c] case None => [];
      var rest := CornerColors(b, ps[1..]);
      assert forall i :: 1 <= i < |ps| ==> ps[i] == ps[1..][i - 1];
      head + rest
  }

  /** The colours of a concatenation are the colours of each part, in
      order. With the single-position case of `CornerColors` this fixes the
      result: each on-grid position contributes its colour and each
      off-grid position nothing, in the order given. */
  lemma {:induction false} CornerColorsAppend(b: Brain, p: seq<GridPosition>, q: seq<GridPosition>)
    requires Wf(b)
    ensures CornerColors(b, p + q) == CornerColors(b, p) + CornerColors(b, q)
    decreases |p|
  {
    if |p| == 0 {
      assert p + q == q;
    } else {
      assert (p + q)[0] == p[0];
      assert (p + q)[1..] == p[1..] + q;
      CornerColorsAppend(b, p[1..], q);
    }
  }

  /** A non-empty sequence has exactly one distinct element iff all its
      elements equal the first. */
  lemma SingleValue(s: seq<int>)
    requires |s| > 0
    ensures |set v | v in s| == 1 <==> forall i :: 0 <= i < |s| ==> s[i] == s[0]
  {
    var vs := set v | v in s;
    if forall i :: 0 <= i < |s| ==> s[i] == s[0] {
      assert vs == {s[0]};
    } else {
      var i :| 0 <= i < |s| && s[i] != s[0];
      assert {s[0], s[i]} <= vs;
      assert |{s[0], s[i]}| == 2;
      SubsetSize({s[0], s[i]}, vs);
    }
  }

  lemma SubsetSize(a: set<int>, b: set<int>)
    requires a <= b
    ensures |a| <= |b|
  {
    assert b == a + (b - a);
  }

  /** The colour of a grid cell. */
  function ColorAt(b: Brain, p: GridPosition): int
    requires Wf(b) && IsValidPosition(b, p)
  {
    b.grid[p.y][p.x].colorIndex
  }

  /** `checkCornersMatch`: exactly four positions, every one on the grid,
      all of one colour. */
  function CheckCornersMatch(b: Brain, corners: seq<GridPosition>): (ok: bool)
    requires Wf(b)
    ensures ok <==>
      && |corners| == 4
      && (forall i :: 0 <= i < 4 ==> IsValidPosition(b, corners[i]))
      && (forall i :: 0 <= i < 4 ==> ColorAt(b, corners[i]) == ColorAt(b, corners[0]))
  {
    if |corners| != 4 then false
    else
      var colors := CornerColors(b, corners);
      if |colors| != 4 then false
      else
        SingleValue(colors);
        |set c | c in colors| == 1
  }

  /** `grid[p.y][p.x] = sq`. */
  function SetCell(grid: seq<seq<Square>>, n: int, p: GridPosition, sq: Square): (g: seq<seq<Square>>)
    requires Shaped(grid, n) && InGrid(p, n)
    ensures Shaped(g, n)
    ensures forall y, x :: 0 <= y < n && 0 <= x < n ==>
      g[y][x] == if y == p.y && x == p.x then sq else grid[y][x]
  {
    grid[p.y := grid[p.y][p.x := sq]]
  }

  /** `regenerateSquares(in:)`: every listed cell gets a fresh colour and
      every other cell keeps its square. */
  function RegenerateSquares(grid: seq<seq<Square>>, n: int, ps: seq<GridPosition>, draw: ColorSource): (g: seq<seq<Square>>)
    requires Shaped(grid, n)
    requires forall p :: p in ps ==> InGrid(p, n)
    ensures Shaped(g, n)
    ensures forall y, x :: 0 <= y < n && 0 <= x < n ==>
      g[y][x] == if GridPosition(x, y) in ps then Square(draw(GridPosition(x, y)), false) else grid[y][x]
    decreases |ps|
  {
    if |ps| == 0 then grid
    else
      var p := ps[0];
      var g1 := SetCell(grid, n, p, Square(draw(p), false));
      assert forall q :: q in ps[1..] ==> q in ps;
      assert forall q :: q in ps <==> q == p || q in ps[1..];
      RegenerateSquares(g1, n, ps[1..], draw)
  }

  /** What the active mode regenerates for clearing `cleared` squares. */
  function Regeneration(b: Brain, cleared: int): real
    requires b.gameMode.ClassicMode? ==> b.configuration.gridSize != 0
  {
    HealthRegeneration(b.gameMode, b.configuration.healthRegenerationPercentage, cleared, b.configuration)
  }

  /** `regenerateHealth(forSquaresCleared:)`: add the mode's regeneration,
      capped at a full bar, and report the new health. */
  function RegenerateHealth(b: Brain, cleared: int): (r: (Brain, seq<Event>))
    requires b.gameMode.ClassicMode? ==> b.configuration.gridSize != 0
    ensures r.0 == b.(health := r.0.health)
    ensures r.0.health <= 1.0
    ensures r.0.health == 1.0 || r.0.health == b.health + Regeneration(b, cleared)
    ensures r.0.health <= b.health + Regeneration(b, cleared)
    ensures b.health <= 1.0 && 0.0 <= Regeneration(b, cleared) ==> b.health <= r.0.health
    ensures r.1 == [HealthUpdated(r.0.health)]
  {
    var raised := b.health + Regeneration(b, cleared);
    var h := if raised <= 1.0 then raised else 1.0;
    (b.(health := h), [HealthUpdated(h)])
  }

  /** The drain formula is defined: Classic's integer division has a
      non-zero step and its durations are bounded away from zero. */
  predicate DrainDefined(b: Brain) {
    b.gameMode.ClassicMode? ==>
      b.configuration.difficultyIncreasePerScore != 0 && 0.0 < b.configuration.minimumHealthDrainDuration
  }

  /** `currentHealthDrainDuration`: the mode's duration at the current
      score (`None` when infinite). The Classic level plays no part. */
  function CurrentHealthDrainDuration(b: Brain): (d: Option<real>)
    requires DrainDefined(b)
    ensures d.None? <==> b.gameMode.TrainingMode?
    ensures d.Some? ==> 0.0 < d.value
    ensures b.gameMode.SurvivalMode? ==> d == Some(3.0)
    ensures b.gameMode.ClassicMode? ==> b.configuration.minimumHealthDrainDuration <= d.value
    ensures b.gameMode.ClassicMode? ==>
      d == Some(Classic.DrainDuration(b.configuration.initialHealthDrainDuration, Score(b), b.configuration))
  {
    HealthDrainDuration(b.gameMode, b.configuration.initialHealthDrainDuration, Score(b), b.configuration)
  }

  /** Health `health` drained by `deltaTime` over a bar lasting `d`,
      floored at empty, has lost exactly the elapsed share of the bar
      unless it hit empty, and never more. */
  lemma DrainShare(health: real, deltaTime: real, d: real, h: real)
    requires 0.0 < d
    requires h == if health - deltaTime / d >= 0.0 then health - deltaTime / d else 0.0
    ensures (health - h) * d <= deltaTime
    ensures h == 0.0 || (health - h) * d == deltaTime
  {
    assert deltaTime / d * d == deltaTime;
    if health - deltaTime / d < 0.0 {
      assert health * d < deltaTime / d * d;
    }
  }

  /** `triggerGameOver`: enter the terminal state and report it. */
  function TriggerGameOver(b: Brain): (r: (Brain, seq<Event>))
    ensures r.0 == b.(isGameOver := true)
    ensures r.1 == [GameOver]
  {
    (b.(isGameOver := true), [GameOver])
  }

  /** `drainHealth(deltaTime:)`: nothing once the game is over; otherwise
      lose `deltaTime` over the current drain duration of the bar (nothing
      when the duration is infinite), not going below empty, report the
      health, and end the game if the mode says so. */
  function DrainHealth(b: Brain, deltaTime: real): (r: (Brain, seq<Event>))
    requires DrainDefined(b)
    ensures b.isGameOver ==> r == (b, [])
    ensures !b.isGameOver ==>
      && r.0 == b.(health := r.0.health, isGameOver := r.0.isGameOver)
      && (r.0.isGameOver <==> ShouldGameOver(b.gameMode, r.0.health))
      && r.1 == [HealthUpdated(r.0.health)] + (if r.0.isGameOver then [GameOver] else [])
      && 0.0 <= r.0.health
      && (0.0 <= deltaTime && 0.0 <= b.health ==> r.0.health <= b.health)
      && (b.gameMode.TrainingMode? && 0.0 <= b.health ==> r.0.health == b.health && !r.0.isGameOver)
      && (b.gameMode.TrainingMode? && b.health < 0.0 ==> r.0.health == 0.0)
      && (CurrentHealthDrainDuration(b).Some? ==>
            && (b.health - r.0.health) * CurrentHealthDrainDuration(b).value <= deltaTime
            && (r.0.health == 0.0 || (b.health - r.0.health) * CurrentHealthDrainDuration(b).value == deltaTime))
  {
    if b.isGameOver then (b, [])
    else
      var drain := match CurrentHealthDrainDuration(b)
        case Some(d) => deltaTime / d
        case None => 0.0;
      var h := if b.health - drain >= 0.0 then b.health - drain else 0.0;
      assert 0.0 <= deltaTime ==> 0.0 <= drain by {
        if 0.0 <= deltaTime && CurrentHealthDrainDuration(b).Some? {
          DivNonNegative(deltaTime, CurrentHealthDrainDuration(b).value);
        }
      }
      assert CurrentHealthDrainDuration(b).Some? ==>
        (b.health - h) * CurrentHealthDrainDuration(b).value <= deltaTime && (h == 0.0 || (b.health - h) * CurrentHealthDrainDuration(b).value == deltaTime) by {
        if CurrentHealthDrainDuration(b).Some? {
          DrainShare(b.health, deltaTime, CurrentHealthDrainDuration(b).value, h);
        }
      }
      var b1 := b.(health := h);
      if ShouldGameOver(b.gameMode, h) then
        var over := TriggerGameOver(b1);
        (over.0, [HealthUpdated(h)] + over.1)
      else
        (b1, [HealthUpdated(h)])
  }

  lemma DivNonNegative(a: real, d: real)
    requires 0.0 <= a && 0.0 < d
    ensures 0.0 <= a / d
  {
  }

  /** `updateLevelIfNeeded`: in Classic, report the mode's level progress. */
  function LevelProgressEvents(m: GameMode): (evs: seq<Event>)
    ensures m.ClassicMode? ==> evs == [LevelUpdated(m.classic.level, m.classic.experience, m.classic.experienceToNextLevel)]
    ensures !m.ClassicMode? ==> evs == []
  {
    match m
    case ClassicMode(s) => [LevelUpdated(s.level, s.experience, s.experienceToNextLevel)]
    case _ => []
  }

  /** The scoring half of a match: advance the streak (reporting a combo
      of two or more), then add the mode's points for `cleared` squares at
      the new streak's multiplier and report the score. */
  function ScoreMatch(b: Brain, cleared: int, now: real): (r: (Brain, seq<Event>))
    ensures var streak := Combo.Update(b.combo, b.comboSettings, now).0;
      && r.0 == b.(combo := streak, scoreHandler := r.0.scoreHandler)
      && r.0.scoreHandler.baseMultiplier == b.scoreHandler.baseMultiplier
      && Score(r.0) == Score(b) + CalculateScore(b.gameMode, cleared, b.configuration.baseMultiplier, Multiplier(streak, b.comboSettings))
      && r.1 == (if streak.currentCombo > 1 then [ComboTriggered(streak.currentCombo)] else []) + [ScoreUpdated(Score(r.0))]
  {
    var comboStep := Combo.Update(b.combo, b.comboSettings, now);
    var comboEvents := if comboStep.1.Some? then [ComboTriggered(comboStep.1.value)] else [];
    var points := CalculateScore(b.gameMode, cleared, b.configuration.baseMultiplier, Multiplier(comboStep.0, b.comboSettings));
    var scoreStep := Scoring.AddRawScore(b.scoreHandler, points);
    (b.(combo := comboStep.0, scoreHandler := scoreStep.0), comboEvents + [ScoreUpdated(scoreStep.0.score)])
  }

  /** Refill the rectangle between two cells of the grid: cells inside it
      get fresh colours, cells outside keep theirs. */
  function RefillArea(grid: seq<seq<Square>>, n: int, from: GridPosition, to: GridPosition, draw: ColorSource): (g: seq<seq<Square>>)
    requires Shaped(grid, n) && InGrid(from, n) && InGrid(to, n)
    ensures Shaped(g, n)
    ensures forall y, x :: 0 <= y < n && 0 <= x < n ==>
      g[y][x] == if InBox(GridPosition(x, y), from, to) then Square(draw(GridPosition(x, y)), false) else grid[y][x]
  {
    AreaInGrid(from, to, n);
    RegenerateSquares(grid, n, Area(from, to), draw)
  }

  /** `handleSuccessfulMatch`: score the cleared area (advancing the
      combo first), regenerate health, refill the area, let the mode
      react, then report the clear, drop the selection and report the new
      grid. */
  function HandleSuccessfulMatch(b: Brain, from: GridPosition, to: GridPosition, now: real, draw: ColorSource): (r: (Brain, seq<Event>))
    requires Wf(b) && InGrid(from, b.configuration.gridSize) && InGrid(to, b.configuration.gridSize)
    ensures Wf(r.0)
    ensures var cleared := (Abs(from.x - to.x) + 1) * (Abs(from.y - to.y) + 1);
            var streak := Combo.Update(b.combo, b.comboSettings, now).0;
      && r.0.combo == streak
      && Score(r.0) == Score(b) + CalculateScore(b.gameMode, cleared, b.configuration.baseMultiplier, Multiplier(streak, b.comboSettings))
      && r.0.health == RegenerateHealth(b, cleared).0.health
      && r.0.gameMode == OnSuccessfulMatch(b.gameMode, cleared)
      && r.0.selectedPosition.None?
      && r.1 == (if streak.currentCombo > 1 then [ComboTriggered(streak.currentCombo)] else [])
                + [ScoreUpdated(Score(r.0)), HealthUpdated(r.0.health)]
                + LevelProgressEvents(r.0.gameMode)
                + [SquaresCleared(from, to), SelectionCleared, GridUpdated]
    ensures r.0.isGameOver == b.isGameOver
    ensures r.0.configuration == b.configuration && r.0.comboSettings == b.comboSettings
    ensures r.0.scoreHandler.baseMultiplier == b.scoreHandler.baseMultiplier
    ensures r.0.grid == RefillArea(b.grid, b.configuration.gridSize, from, to, draw)
  {
    var cleared := |Area(from, to)|;
    assert cleared == (Abs(from.x - to.x) + 1) * (Abs(from.y - to.y) + 1);
    var streak := Combo.Update(b.combo, b.comboSettings, now).0;
    var scored := ScoreMatch(b, cleared, now);
    var healed := RegenerateHealth(scored.0, cleared);
    assert healed.0.health == RegenerateHealth(b, cleared).0.health;
    assert scored.1 + healed.1 ==
      (if streak.currentCombo > 1 then [ComboTriggered(streak.currentCombo)] else [])
      + [ScoreUpdated(Score(scored.0)), HealthUpdated(healed.0.health)];
    var b1 := healed.0.(
      grid := RefillArea(b.grid, b.configuration.gridSize, from, to, draw),
      gameMode := OnSuccessfulMatch(b.gameMode, cleared),
      selectedPosition := None);
    (b1, scored.1 + healed.1 + LevelProgressEvents(b1.gameMode) + [SquaresCleared(from, to), SelectionCleared, GridUpdated])
  }

  /** A rectangle whose corners match has both ends on the grid, and its
      two ends and two other corners all share one colour. */
  lemma MatchedCorners(b: Brain, from: GridPosition, to: GridPosition)
    requires Wf(b) && CheckCornersMatch(b, Corners(from, to))
    ensures IsValidPosition(b, from) && IsValidPosition(b, to)
    ensures ColorAt(b, GridPosition(from.x, to.y)) == ColorAt(b, from)
    ensures ColorAt(b, GridPosition(to.x, from.y)) == ColorAt(b, from)
    ensures ColorAt(b, to) == ColorAt(b, from)
  {
    CornersInGrid(from, to, b.configuration.gridSize);
    CornersAreExtremes(from, to);
    var cs := Corners(from, to);
    assert forall q :: q in cs ==> ColorAt(b, q) == ColorAt(b, cs[0]);
    assert from in cs && to in cs && GridPosition(from.x, to.y) in cs && GridPosition(to.x, from.y) in cs;
  }

  /** `attemptMatch(from:to:)`. There is no game-over guard here: only
      `selectSquare` checks the flag. */
  function AttemptMatch(b: Brain, from: GridPosition, to: GridPosition, now: real, draw: ColorSource): (r: (Brain, seq<Event>))
    requires Wf(b)
    ensures Wf(r.0)
    ensures !CheckCornersMatch(b, Corners(from, to)) ==>
      r == (b.(selectedPosition := None), [SelectionFailed(from, to), SelectionCleared])
    ensures CheckCornersMatch(b, Corners(from, to)) ==>
      && IsValidPosition(b, from) && IsValidPosition(b, to)
      && ColorAt(b, GridPosition(from.x, to.y)) == ColorAt(b, from)
      && ColorAt(b, GridPosition(to.x, from.y)) == ColorAt(b, from)
      && ColorAt(b, to) == ColorAt(b, from)
      && r == HandleSuccessfulMatch(b, from, to, now, draw)
  {
    if CheckCornersMatch(b, Corners(from, to)) then
      MatchedCorners(b, from, to);
      HandleSuccessfulMatch(b, from, to, now, draw)
    else
      var cleared := ClearSelection(b);
      assert [SelectionFailed(from, to)] + cleared.1 == [SelectionFailed(from, to), SelectionCleared];
      (cleared.0, [SelectionFailed(from, to)] + cleared.1)
  }

  /** `selectSquare(at:)`: ignored when the game is over or the position is
      off the grid; otherwise select it, deselect it if it is the current
      selection, or attempt a match with the current selection. */
  function SelectSquare(b: Brain, p: GridPosition, now: real, draw: ColorSource): (r: (Brain, seq<Event>))
    requires Wf(b)
    ensures Wf(r.0)
    ensures b.isGameOver || !IsValidPosition(b, p) ==> r == (b, [])
    ensures !b.isGameOver && IsValidPosition(b, p) && b.selectedPosition.None? ==>
      r == (b.(selectedPosition := Some(p)), [SquaresSelected({p})])
    ensures !b.isGameOver && IsValidPosition(b, p) && b.selectedPosition == Some(p) ==>
      r == (b.(selectedPosition := None), [SelectionCleared])
    ensures !b.isGameOver && IsValidPosition(b, p) && b.selectedPosition.Some? && b.selectedPosition != Some(p) ==>
      r == AttemptMatch(b, b.selectedPosition.value, p, now, draw)
  {
    if b.isGameOver || !IsValidPosition(b, p) then (b, [])
    else match b.selectedPosition
      case Some(current) =>
        if current == p then ClearSelection(b) else AttemptMatch(b, current, p, now, draw)
      case None =>
        (b.(selectedPosition := Some(p)), [SquaresSelected({p})])
  }

  /** `resetGame`: zero the score, fill the bar, leave the terminal state,
      drop the selection and the streak, redraw the grid, and report grid,
      score, health and selection in that order. The mode's own state
      (Classic's level) is left as it was. */
  function ResetGame(b: Brain, draw: ColorSource): (r: (Brain, seq<Event>))
    requires Wf(b)
    ensures Wf(r.0)
    ensures Score(r.0) == 0 && r.0.scoreHandler.baseMultiplier == b.scoreHandler.baseMultiplier
    ensures r.0.health == 1.0 && !r.0.isGameOver && r.0.selectedPosition.None?
    ensures r.0.combo == Combo.Initial
    ensures r.0.gameMode == b.gameMode
    ensures r.0.configuration == b.configuration && r.0.comboSettings == b.comboSettings
    ensures forall y, x :: 0 <= y < b.configuration.gridSize && 0 <= x < b.configuration.gridSize ==>
      r.0.grid[y][x] == Square(draw(GridPosition(x, y)), false)
    ensures r.1 == [GridUpdated, ScoreUpdated(0), HealthUpdated(1.0), SelectionCleared]
  {
    var b1 := b.(
      scoreHandler := Scoring.Reset(b.scoreHandler).0,
      health := 1.0,
      isGameOver := false,
      selectedPosition := None,
      combo := Combo.Reset(b.combo),
      grid := InitializeGrid(b.configuration, draw));
    (b1, [GridUpdated, ScoreUpdated(0), HealthUpdated(1.0), SelectionCleared])
  }

  /** `startGame`: a reset followed by the mode's start hook, which is
      where Classic returns to level 1. */
  function StartGame(b: Brain, draw: ColorSource): (r: (Brain, seq<Event>))
    requires Wf(b)
    ensures Wf(r.0)
    ensures r.0 == ResetGame(b, draw).0.(gameMode := OnGameStart(b.gameMode))
    ensures r.0.gameMode.ClassicMode? ==> r.0.gameMode.classic == Classic.Fresh
    ensures r.1 == ResetGame(b, draw).1
  {
    var reset := ResetGame(b, draw);
    (reset.0.(gameMode := OnGameStart(b.gameMode)), reset.1)
  }

  /** `setGameModeLogic`: swap the active mode. */
  function SetGameMode(b: Brain, m: GameMode): (r: Brain)
    requires GameModes.Valid(m)
    ensures r == b.(gameMode := m)
    ensures Wf(b) ==> Wf(r)
  {
    b.(gameMode := m)
  }

  /** `getGameOverResult`: the active mode's summary of the game. */
  function GetGameOverResult(b: Brain): (r: ModePolicy.GameModeResult)
    requires Wf(b)
    ensures r == OnGameOver(b.gameMode, Score(b))
    ensures b.gameMode.TrainingMode? ==> r.primaryDisplay == "Practice Complete"
  {
    OnGameOver(b.gameMode, Score(b))
  }
}
