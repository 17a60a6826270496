# Quares game rules in Dafny

Quares is a colour-matching puzzle game. A square grid of coloured squares
is on screen. The player selects two cells. If the four corners of the
rectangle they span share one colour, every square of the rectangle is
cleared and redrawn. A clear scores points, extends a timed combo streak,
regenerates health and, in Classic, earns experience towards the next level.
Health drains continuously, and the game ends when it is empty.

This project models the rules engine. It covers the grid geometry, the
configuration records, the score, combo and level handlers, the three game
modes (Classic, Survival, Training), and the `Brain` that ties them together.
It proves what those rules guarantee.

Every operation is a pure function. Where the Swift objects mutate themselves
and call a delegate, the model returns the new state together with the
sequence of notifications it would have sent, in the order they are sent.

Four things the engine takes from its environment are explicit parameters:

- The wall clock is a `now` argument (seconds).
- The random colour generator is a `ColorSource`, a function from grid
  position to colour index. One is supplied per operation.
- The survival timer is a `Tick` operation.
- The periodic drain timer is the caller of `DrainHealth`.

Swift's `Double` is modelled as `real`. `Int(x)` on a `Double` truncates
toward zero (`Numeric.Trunc`), and `Int` division truncates toward zero
(`Numeric.TruncDiv`). The IEEE infinity the game uses to mean "never" is
`None`. Two values use it: Training's drain duration, and the level
handler's threshold at the top level.

## Modules

| module | models |
|---|---|
| `Geometry` | `GridPosition.area` and `GridPosition.corners` |
| `Config` | `GameConfiguration`, its defaults and `colors()` |
| `LevelConfig` | `LevelConfiguration` |
| `Scoring` | `ScoreHandler` |
| `Combo` | `ComboHandler` |
| `Leveling` | `LevelHandler` |
| `ModePolicy` | `GameModeResult` and the default `calculateScore` of `GameModeLogic` |
| `Classic`, `Survival`, `Training` | the three `GameModeLogic` implementations |
| `GameModes` | the active mode as a variant, with the protocol's methods dispatched on it |
| `Engine` | `Brain` |
| `EngineLaws` | the engine invariant, whole sessions, and the worked full-board match |
| `Numeric`, `Decimal`, `Wrappers` | truncation, integer division, powers, decimal rendering, optionals |

### Behaviour worth knowing

Some of the engine's behaviour is easy to miss when reading only the type
and method names. The model keeps each of these as the code has it:

- **Classic levels.** Classic keeps its own integer level ladder, in
  `ClassicModeLogic`. It starts at 50 and grows the threshold by 1.5×,
  truncated. `Brain` never uses `LevelHandler`.
- **Experience per square.** `LevelHandler` gains one point of experience
  per cleared square. It ignores any per-square rate.
- **Drain speed.** The drain duration depends on the score only. Neither
  level multiplier (`LevelHandler.healthDrainMultiplier` and
  `LevelConfiguration.healthDrainSpeedMultiplierForLevel`) is applied to it.
- **Match after game over.** `attemptMatch` has no game-over guard. Only
  `selectSquare` checks the flag.
- **Reset versus start.** `resetGame` does not reset the mode's own state.
  Classic's level survives a reset. Only `startGame` (through `onGameStart`)
  returns to level 1.
- **Rounding.** Points are truncated (`Int(...)`). The
  Classic difficulty step uses truncating integer division. The two agree
  for the non-negative values a game produces.
- **Missing configuration fields.** `Brain` and `LevelHandler` read
  configuration fields that `GameConfiguration` does not declare: the combo
  threshold and bonuses, and the level tunables. These are modelled as
  explicit records, `Combo.ComboSettings` and `Leveling.LevelParams`.
- **Square.** `Square` is not modelled; it is represented by its colour
  index and an `isEmpty` flag that nothing sets.

## Model

| member | source | states |
|---|---|---|
| Geometry.Area | Quares/Models/GridPosition.swift:7-20 | The area holds exactly the cells of the inclusive bounding box of the two positions, each once. It has width × height cells. It starts at the (min, min) corner and ends at the (max, max) corner. |
| Geometry.ColumnFacts | Quares/Models/GridPosition.swift:15-17 | The inner loop yields every row from `lo` to `hi` of one column, once each. |
| Geometry.BlockFacts | Quares/Models/GridPosition.swift:14-18 | The nested loops yield every cell of the box, once each, and the count is the product of the two spans. |
| Geometry.Corners | Quares/Models/GridPosition.swift:22-34 | There are four corners. Each lies in the area and is one of the extreme x / extreme y combinations. |
| Geometry.CornersAreExtremes | Quares/Models/GridPosition.swift:22-34 | A position is a corner if and only if both of its coordinates are extremes of the two positions. |
| Geometry.AreaSymmetric | Quares/Models/GridPosition.swift:7-20 | Swapping the two positions gives the same area. |
| Geometry.CornersSymmetric | Quares/Models/GridPosition.swift:22-34 | Swapping the two positions gives the same corners. |
| Geometry.DegenerateRectangle | Quares/Models/GridPosition.swift:7-34 | A one-cell rectangle has that cell as its area, and that cell as all four of its corners. |
| Geometry.AreaInGrid | Quares/Models/GridPosition.swift:7-20 | When both ends are on an n × n grid, every cell of the area is too. |
| Geometry.CornersInGrid | Quares/Models/GridPosition.swift:22-34 | All four corners are on the grid if and only if both ends are. |
| Config.Colors | Quares/Models/GameConfiguration.swift:24-26 | `colors()` is a prefix of the palette whose length is the requested count, or the whole palette when more colours are requested than it has. |
| Config.ColorsDistinct | Quares/Models/GameConfiguration.swift:20-26 | The chosen colours are pairwise different. |
| Config.DefaultValues | Quares/Models/GameConfiguration.swift:6-22 | The defaults: a 10 × 10 grid, five colours (red to purple), a 30 s drain with a 2 s floor, 15% regeneration, multiplier 1, and 10% faster per 100 points. |
| LevelConfig.ExperienceRequiredForLevel | Quares/Models/LevelConfiguration.swift:11-17 | At or beyond the last level the threshold is `Int.max`. Below it, the threshold is the base grown geometrically (level − 1) times, truncated. |
| LevelConfig.FirstLevelNeedsBase | Quares/Models/LevelConfiguration.swift:11-17 | Level 1 needs exactly the base experience. |
| LevelConfig.ExperienceRequiredMonotone | Quares/Models/LevelConfiguration.swift:11-17 | With non-negative growth, a higher level never needs less experience. |
| LevelConfig.HealthDrainSpeedMultiplierForLevel | Quares/Models/LevelConfiguration.swift:19-22 | The multiplier is never above the cap or above the linear formula, and it equals one of the two. |
| LevelConfig.DrainSpeedAtFirstLevel | Quares/Models/LevelConfiguration.swift:19-22 | Level 1 drains at normal speed. |
| LevelConfig.DrainSpeedMonotone | Quares/Models/LevelConfiguration.swift:19-22 | A higher level never drains more slowly. |
| LevelConfig.DefaultLadder | Quares/Models/LevelConfiguration.swift:4-22 | Under the defaults: 50 experience for level 1 and 75 for level 2, `Int.max` at level 100, and the 3.0 speed cap reached by level 41. |
| Scoring.Points | Quares/Game/ScoreHandler.swift:22-24 | The points are the product of count, base and combo, truncated once. They lie below the exact product and within one of it. |
| Scoring.New | Quares/Game/ScoreHandler.swift:10-16 | A new handler has score 0 and keeps its base multiplier. |
| Scoring.Reset | Quares/Game/ScoreHandler.swift:18-20 | The score returns to 0, the multiplier is kept, and nothing is reported. |
| Scoring.AddScore | Quares/Game/ScoreHandler.swift:22-26 | The score rises by exactly the points, never falls for non-negative inputs, and the new total is reported once. |
| Scoring.AddRawScore | Quares/Game/ScoreHandler.swift:28-31 | The score rises by exactly the given points, and the new total is reported once. |
| Scoring.CalculateScore | Quares/Game/ScoreHandler.swift:33-36 | The area's cell count times the base multiplier, within one of the exact product, with nothing changed. |
| Scoring.AddAllAccumulates | Quares/Game/ScoreHandler.swift:22-26 | Successive additions sum: one notification per addition, the last carrying the final total. With non-negative inputs, the reported totals never decrease. |
| Scoring.RunStaysAbove | Quares/Game/ScoreHandler.swift:22-26 | Every total reported during a run of non-negative additions is at least the starting score. |
| Scoring.HandlerExamples | Quares/Game/ScoreHandler.swift:22-36 | Worked values: 10 squares at combo 1.10 earn 11, 5 squares at base 2.0 and combo 1.5 earn 15, and a 3 × 3 area is worth 9. |
| Combo.Reset | Quares/Game/ComboHandler.swift:42-45 | After a reset there is no streak and no last success. |
| Combo.Update | Quares/Game/ComboHandler.swift:23-40 | The success time is recorded. The streak grows by one if the previous success was within the threshold, and otherwise restarts at 1. A notification carrying the count is sent exactly when the streak exceeds 1. |
| Combo.Multiplier | Quares/Game/ComboHandler.swift:47-51 | 1 below a streak of two. From a streak of two, 1 + base bonus plus a linear increment for each match beyond two. |
| Combo.MultiplierMonotone | Quares/Game/ComboHandler.swift:47-51 | With non-negative bonuses, a longer streak never lowers the multiplier, which is never below 1. |
| Combo.MultiplierIgnoresTime | Quares/Game/ComboHandler.swift:47-51 | The multiplier depends only on the streak length, not on when the last success happened. |
| Combo.SteadyRunBuildsStreak | Quares/Game/ComboHandler.swift:23-40 | k successes from a fresh handler, each within the window of the last, build a streak of k and notify 2, 3, …, k in order. |
| Combo.ContinueRun | Quares/Game/ComboHandler.swift:23-40 | A steady run continuing a streak of c adds one per success and notifies each new count. |
| Combo.GapRestartsStreak | Quares/Game/ComboHandler.swift:26-31 | A success after a gap longer than the threshold restarts silently at 1, with multiplier 1. |
| Combo.ResetThenUpdate | Quares/Game/ComboHandler.swift:23-45 | After a reset, the next success starts a silent streak of one. |
| Combo.MultiplierExamples | Quares/Game/ComboHandler.swift:47-51 | With a 10% base bonus and a 5% increment, streaks of 2 to 5 give multipliers 1.10, 1.15, 1.20 and 1.25. |
| Leveling.CalculateExperienceRequired | Quares/Game/LevelHandler.swift:57-65 | The multiply-in-a-loop computation equals the closed form: the base times the growth factor to the power (level − 1). Levels up to 1 get the base. |
| Leveling.New | Quares/Game/LevelHandler.swift:13-20 | A new handler is at level 1 with no experience and needs the base amount. |
| Leveling.Reset | Quares/Game/LevelHandler.swift:22-27 | A reset returns to the new-handler state and reports the experience bar once. |
| Leveling.LevelUp | Quares/Game/LevelHandler.swift:43-55 | The level goes up by one. Below the cap, the threshold is paid out of the experience and the next one is computed. At the cap, the threshold becomes infinite and the experience is zeroed. The new level is reported. |
| Leveling.Climb | Quares/Game/LevelHandler.swift:36-38 | The loop levels up only while the experience covers the threshold below the cap. When it climbs, every level passed was affordable; below the cap the experience left is the start minus the thresholds of the levels climbed and the threshold is that of the level reached; at the cap the threshold is infinite and the experience 0. It stops where no further level-up is possible, never passes the cap, and reports one notification per level gained, in order. |
| Leveling.AddExperience | Quares/Game/LevelHandler.swift:29-41 | At the cap nothing happens. Otherwise the squares are added as experience; without a level-up that is the only change, and with level-ups the experience left is the start plus the squares minus the thresholds of the levels climbed (or 0 at the cap), each level passed was affordable, and the handler ends below its next threshold or at the cap. Each level is reported, then the experience bar. |
| Leveling.HealthDrainMultiplier | Quares/Game/LevelHandler.swift:73-75 | The multiplier exceeds 1 by the per-level increase times the number of levels above the first: 1 at level 1 and never below 1 for a non-negative increase. |
| Leveling.HealthDrainMultiplierMonotone | Quares/Game/LevelHandler.swift:73-75 | A higher level never drains more slowly. |
| Leveling.AddExperienceNeverLowersLevel | Quares/Game/LevelHandler.swift:29-41 | Gaining experience never lowers the level. |
| Leveling.ClimbAbsorbs | Quares/Game/LevelHandler.swift:29-55 | Adding experience and then climbing ends in the same handler as climbing, adding the experience and climbing again, except that when the first climb reaches the cap the extra experience changes nothing. |
| Leveling.AddExperienceComposes | Quares/Game/LevelHandler.swift:29-41 | Two gains in a row leave the handler in the same state as one gain of their sum; only the notifications differ. |
| Leveling.LadderExamples | Quares/Game/LevelHandler.swift:29-65 | With base 50 and 50% growth: 10 points stay at level 1, 50 reach level 2 exactly with a threshold of 75, and 150 reach level 3 carrying 25. |
| Leveling.CapExample | Quares/Game/LevelHandler.swift:43-55 | At the cap, the threshold is infinite and the experience is 0, and further experience changes nothing. |
| ModePolicy.DefaultScore | Quares/Game/GameModeLogic.swift:26-30 | Cleared × base × combo, truncated once, within one of the exact product. |
| ModePolicy.DefaultScoreUnit | Quares/Game/GameModeLogic.swift:26-30 | At unit multipliers a match scores one point per square. |
| ModePolicy.DefaultScoreMonotone | Quares/Game/GameModeLogic.swift:26-30 | Clearing more squares never scores less. |
| ModePolicy.DefaultScoreAgreesWithHandler | Quares/Game/GameModeLogic.swift:27-30 | The protocol's duplicated formula gives the same points as `ScoreHandler.addScore`. |
| Classic.DrainDuration | Quares/Game/GameModes/ClassicModeLogic.swift:15-19 | The duration is the larger of the minimum and the base scaled by one minus the speed-up per step times the number of whole score steps (Swift integer division): it is at least both, and equal to one of them. |
| Classic.DrainDurationMonotone | Quares/Game/GameModes/ClassicModeLogic.swift:15-20 | A higher score never gives a slower drain. |
| Classic.DrainDurationFloor | Quares/Game/GameModes/ClassicModeLogic.swift:15-20 | Once the formula reaches the minimum or goes below it, the duration is the minimum. |
| Classic.DefaultDrainSchedule | Quares/Game/GameModes/ClassicModeLogic.swift:15-20 | Under the defaults: 30 s up to score 99, 27 s at 100, 24 s at 250, and the 2 s floor from 1000. |
| Classic.Regeneration | Quares/Game/GameModes/ClassicModeLogic.swift:22-27 | The amount above the base share is proportional to the squares cleared: times the grid area it equals the cleared count times the rest of the bar. So nothing cleared gives the base share, the whole grid gives a full bar, and anything in between lies between the two. |
| Classic.RegenerationMonotone | Quares/Game/GameModes/ClassicModeLogic.swift:22-27 | Clearing more never regenerates less. |
| Classic.ShouldGameOver | Quares/Game/GameModes/ClassicModeLogic.swift:29-31 | The game ends exactly when health is at most zero. |
| Classic.LevelUpLoop | Quares/Game/GameModes/ClassicModeLogic.swift:53-57 | After gaining k levels, the experience is the start minus the k thresholds paid, and the threshold is the start grown k times by half again (rounded down). Every one of those k thresholds was affordable when paid, the loop ends below the final threshold, and a state already below its threshold is left alone. |
| Classic.OnSuccessfulMatch | Quares/Game/GameModes/ClassicModeLogic.swift:50-58 | One experience point per cleared square is added. After gaining k levels, the experience is the start plus the squares minus the k thresholds paid, the threshold is the start grown k times by half again, each of those thresholds was affordable, and the experience ends below the final threshold. |
| Classic.Promote | Quares/Game/GameModes/ClassicModeLogic.swift:54-56 | One pass of the loop: the threshold is paid out of the experience, the level goes up by one, and the next threshold is the old one plus half of it rounded down, which is larger unless both are 1. |
| Classic.TruncThreeHalves | Quares/Game/GameModes/ClassicModeLogic.swift:56 | Converting a non-negative threshold to a Double, multiplying by 1.5 and truncating back to Int gives the threshold plus half of it rounded down. |
| Classic.LevelUpLoopAbsorbs | Quares/Game/GameModes/ClassicModeLogic.swift:50-58 | Adding experience after the loop has settled ends in the same state as adding it before the loop runs. |
| Classic.MatchesCompose | Quares/Game/GameModes/ClassicModeLogic.swift:50-58 | Two matches in a row leave the same level, experience and threshold as one match clearing both counts together. |
| Classic.OnGameStart | Quares/Game/GameModes/ClassicModeLogic.swift:37-41 | Back to level 1, no experience, and 50 to the next level. |
| Classic.OnGameOver | Quares/Game/GameModes/ClassicModeLogic.swift:43-48 | "Score: " followed by the score as Swift prints it, and "Level " followed by the level as Swift prints it: canonical digits with no leading zero, parsing back to the number, after a minus sign for a negative number. By Decimal.CanonicalUnique this fixes both texts. |
| Classic.LadderExamples | Quares/Game/GameModes/ClassicModeLogic.swift:50-58 | From a freshly started mode at level 1: 100 squares reach (2, 50, 75), 50 reach (2, 0, 75), 49 stay at (1, 49, 50), and 250 reach (4, 13, 168). |
| Survival.DrainDuration | Quares/Game/GameModes/SurvivalModeLogic.swift:20-22 | Always 3 s. |
| Survival.Regeneration | Quares/Game/GameModes/SurvivalModeLogic.swift:24-26 | Always 0.8 of a bar. |
| Survival.ShouldGameOver | Quares/Game/GameModes/SurvivalModeLogic.swift:28-30 | The game ends exactly when health is at most zero. |
| Survival.OnSuccessfulMatch | Quares/Game/GameModes/SurvivalModeLogic.swift:32 | Matches leave the clock alone. |
| Survival.OnGameStart | Quares/Game/GameModes/SurvivalModeLogic.swift:34-38 | The clock restarts at zero. |
| Survival.Tick | Quares/Game/GameModes/SurvivalModeLogic.swift:56-61 | Each firing adds 0.1 s and keeps the clock non-negative. |
| Survival.OnGameOver | Quares/Game/GameModes/SurvivalModeLogic.swift:40-50 | "Survived: MM:SS". The minutes field is a `%02d` field: at least two digits, with a leading zero only when it has exactly two. The seconds are two digits below 60. 60 × minutes + seconds is the whole number of seconds survived. By Decimal.Padded2Unique this fixes the text. |
| Survival.ResultExampleShort | Quares/Game/GameModes/SurvivalModeLogic.swift:40-50 | 125.5 s displays as "02:05". |
| Survival.ResultExampleLong | Quares/Game/GameModes/SurvivalModeLogic.swift:40-50 | 6000 s displays as "100:00": the minutes widen to three digits. |
| Training.DrainDuration | Quares/Game/GameModes/TrainingModeLogic.swift:11-13 | Infinite: health never drains. |
| Training.Regeneration | Quares/Game/GameModes/TrainingModeLogic.swift:15-17 | Nothing is regenerated. |
| Training.Score | Quares/Game/GameModes/TrainingModeLogic.swift:19-21 | Nothing scores. |
| Training.ShouldGameOver | Quares/Game/GameModes/TrainingModeLogic.swift:23-25 | Never game over, for any health. |
| Training.OnGameOver | Quares/Game/GameModes/TrainingModeLogic.swift:31-33 | "Practice Complete", with no second line. |
| GameModes.ShouldShowHealthBar | Quares/Game/GameModeLogic.swift:6 | The health bar is shown in every mode except Training. |
| GameModes.ShouldShowScore | Quares/Game/GameModeLogic.swift:7 | The score is shown only in Classic. |
| GameModes.ShouldShowLevel | Quares/Game/GameModeLogic.swift:8 | The level is shown only in Classic. |
| GameModes.ShouldShowTimer | Quares/Game/GameModeLogic.swift:9 | The timer is shown only in Survival. |
| GameModes.VisibilityTable | Quares/Game/GameModeLogic.swift:6-9 | Classic shows everything but the timer, Survival shows only the bar and the timer, and Training shows nothing. Only Survival has a timer. The score is shown exactly when levels are. |
| GameModes.HealthDrainDuration | Quares/Game/GameModeLogic.swift:11 | The duration is infinite exactly in Training. Survival's is 3 s, and Classic's is never below the minimum. |
| GameModes.HealthRegeneration | Quares/Game/GameModeLogic.swift:12 | Per mode: Classic's proportional share, Survival's 0.8, and Training's 0. Always within one bar for a clear that fits on the grid. |
| GameModes.CalculateScore | Quares/Game/GameModeLogic.swift:13 | Zero in Training, the shared default formula otherwise. Never negative for non-negative inputs. |
| GameModes.ShouldGameOver | Quares/Game/GameModeLogic.swift:14 | The game ends exactly when the mode is not Training and health is at most zero. |
| GameModes.OnSuccessfulMatch | Quares/Game/GameModeLogic.swift:16 | Classic passes the cleared count to its own ladder; Survival and Training are unchanged. The mode's kind is kept and the Classic level never falls. |
| GameModes.OnGameStart | Quares/Game/GameModeLogic.swift:17 | Classic returns to its fresh ladder, Survival to a zero clock, and Training is unchanged. |
| GameModes.Tick | Quares/Game/GameModes/SurvivalModeLogic.swift:56-61 | Survival advances its own clock, always forward; the other modes are unchanged. |
| GameModes.OnGameOver | Quares/Game/GameModeLogic.swift:18 | Each mode's own summary. There is a second line exactly in Classic. |
| Decimal.IntToString | Quares/Game/GameModes/ClassicModeLogic.swift:45-46 | An integer's text is canonical digits with no leading zero that parse back to the integer, after a minus sign for a negative integer. |
| Decimal.Pad2 | Quares/Game/GameModes/SurvivalModeLogic.swift:44 | `%02d`: parses back to the number. It has exactly two digits below 100, with a leading zero exactly below 10. From 10 up it is the canonical digits, with no leading zero. |
| Decimal.CanonicalUnique | Quares/Game/GameModes/ClassicModeLogic.swift:45-46 | Digits with no leading zero are determined by their value: only one such text exists per number, so interpolation's output is fixed by the value alone. |
| Decimal.Padded2Unique | Quares/Game/GameModes/SurvivalModeLogic.swift:44 | A `%02d` field is determined by its value: only one such text exists per number. |
| Engine.InitializeGrid | Quares/Game/Brain.swift:81-87 | Every cell of the n × n grid is freshly drawn and is not empty. With a source within the palette, every colour is valid. |
| Engine.New | Quares/Game/Brain.swift:60-73 | A new engine has full health, is not over, and has no selection, streak or score. Its grid is freshly drawn. |
| Engine.Score | Quares/Game/Brain.swift:42 | The brain's score is the score handler's running total. |
| Engine.IsValidPosition | Quares/Game/Brain.swift:98-101 | A position is valid exactly when both coordinates lie in `0 ..< gridSize`. |
| Engine.ValidPositionsFormTheBoard | Quares/Game/Brain.swift:98-101 | On a non-empty grid, the valid positions are exactly the area spanned by the board's corners (0, 0) and (n − 1, n − 1). |
| Engine.SquareAt | Quares/Game/Brain.swift:89-92 | There is a square exactly at positions on the grid, and it is the grid's own square. |
| Engine.ColorIndexAt | Quares/Game/Brain.swift:94-96 | There is a colour exactly at positions on the grid, and it is that square's colour. |
| Engine.ClearSelection | Quares/Game/Brain.swift:120-123 | The selection is dropped, that is reported, and nothing else changes. |
| Engine.PreviewSelection | Quares/Game/Brain.swift:125-128 | Empty unless both ends are on the grid. Otherwise the set holds exactly the cells of the rectangle, and its size is width × height. |
| Engine.CornerColors | Quares/Game/Brain.swift:146 | A single on-grid position gives its colour and a single off-grid position gives nothing. All positions are kept if and only if all are on the grid, and then each value is that cell's colour. |
| Engine.CornerColorsAppend | Quares/Game/Brain.swift:146 | The colours of a concatenation are the colours of each part, in order. With the single-position case this gives the `compactMap` behaviour: the colours of the on-grid positions, in order. |
| Engine.SingleValue | Quares/Game/Brain.swift:149 | The colours form a one-element set if and only if all of them equal the first. |
| Engine.SubsetSize | Quares/Game/Brain.swift:149 | A subset is never larger than its superset. This bounds the size of the colour set in the proof of Engine.SingleValue. |
| Engine.CheckCornersMatch | Quares/Game/Brain.swift:143-150 | Matches if and only if there are exactly four positions, all on the grid, all with the first one's colour. |
| Engine.RegenerateSquares | Quares/Game/Brain.swift:176-182 | Listed cells get a fresh colour, and every other cell keeps its square. |
| Engine.RefillArea | Quares/Game/Brain.swift:166-182 | Cells inside the rectangle are redrawn, and cells outside it are untouched. |
| Engine.RegenerateHealth | Quares/Game/Brain.swift:190-199 | Health rises by the mode's regeneration, capped at a full bar and never falling. Only health changes, and the new value is reported. |
| Engine.CurrentHealthDrainDuration | Quares/Game/Brain.swift:46-52 | The current mode's duration for the configured base and the current score: infinite exactly in Training, 3 s in Survival, and in Classic the classic duration for the initial duration and the score, so at least the minimum. |
| Engine.TriggerGameOver | Quares/Game/Brain.swift:295-300 | The engine is over and says so once. |
| Engine.DrainHealth | Quares/Game/Brain.swift:201-212 | Nothing happens once over. Otherwise, with a finite duration, the health falls by the elapsed time divided by the duration unless that would go below 0, where it stops at 0 (never more than that share is lost). Training, with an infinite duration, keeps the health. The game ends exactly when the mode says so, and the events are the health followed by a game over only if it ended. |
| Engine.DrainShare | Quares/Game/Brain.swift:204-205 | Health floored at 0 after subtracting the elapsed time over a positive duration has lost at most that share times the duration, and exactly that unless it hit 0. |
| Engine.LevelProgressEvents | Quares/Game/Brain.swift:289-293 | Classic reports its level progress, and the other modes report nothing. |
| Engine.ScoreMatch | Quares/Game/Brain.swift:156-163 | The streak advances. The score rises by the mode's points at the new streak's multiplier. A combo is reported only for streaks above one, then the score. |
| Engine.HandleSuccessfulMatch | Quares/Game/Brain.swift:152-174 | The rectangle is scored, health is regenerated, the area is redrawn, the mode reacts and the selection is dropped. The events are combo, score, health, level, cleared, selection cleared, grid — in that order. The flag and the configuration are unchanged. |
| Engine.MatchedCorners | Quares/Game/Brain.swift:133-150 | Matching corners put both ends on the grid and give all four corners one colour. |
| Engine.AttemptMatch | Quares/Game/Brain.swift:132-141 | If the corners do not match, the failure is reported and the selection dropped, and nothing else changes. If they match, both ends are valid, all four corners share a colour, and the match is handled. |
| Engine.SelectSquare | Quares/Game/Brain.swift:105-118 | Nothing happens when the game is over or the position is off the grid. Otherwise: select if nothing is selected, deselect when the same square is tapped again (before any self-match), and otherwise attempt a match. |
| Engine.ResetGame | Quares/Game/Brain.swift:223-235 | Score 0, full health, not over, no selection or streak, and a fresh grid, with the mode left as it was. It reports grid, score, health and selection, in that order. |
| Engine.StartGame | Quares/Game/Brain.swift:216-221 | A reset followed by the mode's start hook. Classic is back at level 1, and the events are the reset's. |
| Engine.SetGameMode | Quares/Game/Brain.swift:75-77 | Only the mode changes. |
| Engine.GetGameOverResult | Quares/Game/Brain.swift:248-250 | The active mode's summary at the current score. |
| EngineLaws.DefaultsAreSane | Quares/Models/GameConfiguration.swift:6-17 | The default tunables satisfy the engine's assumptions. |
| EngineLaws.NewEstablishesInv | Quares/Game/Brain.swift:60-73 | A new engine satisfies the invariant: bar within [0, 1], non-negative score, palette colours, and a selection on the grid. |
| EngineLaws.DefaultEngine | Quares/Game/Brain.swift:60-87 | The default engine is a 10 × 10 grid of five colours, in Classic at level 1 with score 0 and full health. |
| EngineLaws.InvDrainDefined | Quares/Game/Brain.swift:46-52 | Under the invariant, every drain duration is defined and positive. |
| EngineLaws.ClearFitsGrid | Quares/Game/Brain.swift:152-154 | A clear between two grid cells covers at most the whole grid. |
| EngineLaws.MatchRaisesScoreAndHealth | Quares/Game/Brain.swift:152-174 | A successful match never lowers the score or health, and health stays within the bar. |
| EngineLaws.MatchKeepsPalette | Quares/Game/Brain.swift:176-182 | Redrawn cells keep the grid within the palette. |
| EngineLaws.MatchPreservesInv | Quares/Game/Brain.swift:152-174 | A successful match keeps the invariant, never reports a game over, and keeps the flag, the configuration and the mode's kind. |
| EngineLaws.AttemptPreservesInv | Quares/Game/Brain.swift:132-141 | The same holds for any match attempt, successful or not. |
| EngineLaws.SelectPreservesInv | Quares/Game/Brain.swift:105-118 | The same holds for any tap. |
| EngineLaws.DrainPreservesInv | Quares/Game/Brain.swift:201-212 | Draining keeps the invariant and the score, and never raises health. |
| EngineLaws.StartEstablishesInv | Quares/Game/Brain.swift:216-235 | Reset and start both yield an engine satisfying the invariant. |
| EngineLaws.RunFacts | Quares/Game/Brain.swift:295-300 | Over any session of taps, deselections and drains: the invariant holds, the score never falls, a finished game stays finished, and a game over is reported exactly once if the session ends a running game, and never otherwise. |
| EngineLaws.TrainingNeverEnds | Quares/Game/GameModes/TrainingModeLogic.swift:11-25 | No Training session ever ends or reports a game over. |
| EngineLaws.FinishedGameIsFrozen | Quares/Game/Brain.swift:105-106 | Once over, taps and drains change nothing and report nothing. |
| EngineLaws.FullBoardMatch | Quares/Game/Brain.swift:132-174 | Matching a whole n × n Classic board as the first success of a streak scores n² at combo 1, fills the bar, feeds n² to the ladder, and emits the exact event list. |
| EngineLaws.FullBoardOutcome | Quares/Game/Brain.swift:152-174 | The same outcome stated for the match handler itself. |
| EngineLaws.FullBoardState | Quares/Game/Brain.swift:152-174 | After a whole-board Classic match that starts a streak: the score rises by the default score of n² squares at combo 1, the bar is full, the ladder has been fed n² squares, the streak is 1 at the match time, and nothing is selected. |
| EngineLaws.FullBoardEvents | Quares/Game/Brain.swift:152-174 | The same match reports, in order: the new score, the new health, the level progress, the cleared rectangle, the cleared selection and the grid update. |
| EngineLaws.FullBoardRedraw | Quares/Game/Brain.swift:176-182 | Matching the whole board redraws every cell. |
| EngineLaws.DefaultOpeningMatch | Quares/Game/Brain.swift:132-174 | The default opening match (0,0)–(9,9) scores 100, fills the bar, reaches level 2 with 50 of 75 experience, and emits score, health, level, cleared, selection cleared, grid. |
| EngineLaws.DefaultOpeningNumbers | Quares/Game/GameModes/ClassicModeLogic.swift:50-58 | 100 squares at unit multipliers are worth 100, and take a fresh ladder to (2, 50, 75). |
| EngineLaws.MismatchedCornersFail | Quares/Game/Brain.swift:135-140 | Ends of different colours make the attempt fail, with only the selection dropped. |

## Left out

- Timers: the 60 Hz drain timer, the survival display timer, and pause and
  resume (`Brain.swift` 237-246 and 254-287). They only schedule calls. The
  model takes the elapsed time as the `DrainHealth` argument and the survival
  clock as explicit `Tick`s.
- `Date()` and `Int.random`: the clock is a `now` parameter, and colours come
  from a caller-supplied `ColorSource`. Uniformity of the random draw is not
  modelled.
- Delegates: notifications are returned as event sequences. The delegate
  protocol declarations themselves are not modelled.
- IEEE `Double` behaviour: rounding error, NaN and signed zero, and division
  by zero or infinity. Reals are exact. Infinity is `None`.
- 64-bit `Int` overflow of the score, the experience and the grid area:
  integers are unbounded.
- `Brain.multiplier`, `currentCombo` and `gameMode`: read-only accessors that
  add nothing.
- `Brain.calculateScore(forArea:to:)`: it only forwards to
  `Scoring.CalculateScore`, which is modelled.
- `ClassicModeLogic.getLevelProgress` and
  `SurvivalModeLogic.getSurvivalTime`: read-only accessors. The model exposes
  the state directly.
- The `GameMode` display enum, colour modes, sound, the scene, views and view
  models: presentation only.
- `Square` is not modelled; it is represented by its colour index and an
  `isEmpty` flag that nothing sets.
- Scoring.AddScore: Swift's default argument `comboMultiplier = 1.0` has no
  counterpart, since Dafny functions have no default arguments. The
  one-argument Swift call is `AddScore(h, count, 1.0)`.
- Engine.DrainHealth: requires that a Classic game has a non-zero difficulty
  step and a positive minimum duration. Swift traps on the first, and divides
  by zero or a negative on the second.
- Engine.HandleSuccessfulMatch: requires both ends on the grid. Its only
  caller guarantees this, and the source would index out of range otherwise.
- Engine.CurrentHealthDrainDuration: requires the same definedness as
  `DrainHealth`.
- Classic.DrainDuration: requires a non-zero difficulty step, on which Swift's
  integer division traps.
- Classic.Regeneration: requires a non-empty grid. The source would divide by
  zero, giving an IEEE infinity or NaN.
- LevelConfig.ExperienceRequiredForLevel: below level 1 requires a non-zero
  growth factor, because `pow` with a negative exponent divides by it.
- Config.Colors: requires a non-negative colour count, on which `prefix`
  traps.
- Classic.LevelUpLoop: assumes a threshold of at least 1, kept by every
  reachable state. With a threshold of 0 or less, the Swift loop never
  terminates.
- EngineLaws.RunFacts: sessions are sequences of taps, deselections and
  drains. Starting, resetting and changing mode between commands are covered
  by their own members.
