/** `SurvivalModeLogic`: a fixed fast drain, a fixed generous regeneration,
    no score or levels, and a survival clock shown as `mm:ss` at the end.
    The repeating 0.1 s timer that advances the clock is an explicit
    `Tick` here. */
module Survival {
  import opened Wrappers
  import opened Numeric
  import opened Decimal
  import opened Config
  import opened ModePolicy

  datatype SurvivalState = SurvivalState(survivalTime: real)

  const Fresh := SurvivalState(0.0)

  const HealthDrainDuration: real := 3.0
  const HealthRegenerationBoost: real := 0.8
  /** The interval of the survival timer, and what each firing adds. */
  const TickSeconds: real := 0.1

  const ShowsHealthBar := true
  const ShowsScore := false
  const ShowsLevel := false
  const ShowsTimer := true

  /** The clock never runs backwards from zero. */
  predicate Valid(s: SurvivalState) {
    0.0 <= s.survivalTime
  }

  /** `calculateHealthDrainDuration`: three seconds, whatever the base
      duration, the score or the configuration. */
  function DrainDuration(baseDuration: real, score: int, c: GameConfiguration): (d: real)
    ensures d == 3.0
  {
    HealthDrainDuration
  }

  /** `calculateHealthRegeneration`: 0.8 of a bar, whatever was cleared. */
  function Regeneration(baseRegeneration: real, squaresCleared: int, c: GameConfiguration): (g: real)
    ensures g == 0.8
  {
    HealthRegenerationBoost
  }

  /** `shouldGameOver`: the bar is empty. */
  function ShouldGameOver(health: real): (over: bool)
    ensures over <==> health <= 0.0
  {
    health <= 0.0
  }

  /** `onSuccessfulMatch`: matches do not affect the survival clock. */
  function OnSuccessfulMatch(s: SurvivalState, squaresCleared: int): (r: SurvivalState)
    ensures r == s
  {
    s
  }

  /** `onGameStart`: the clock restarts from zero. */
  function OnGameStart(s: SurvivalState): (r: SurvivalState)
    ensures r.survivalTime == 0.0
  {
    Fresh
  }

  /** One firing of the survival timer. */
  function Tick(s: SurvivalState): (r: SurvivalState)
    ensures r.survivalTime - s.survivalTime == TickSeconds
    ensures Valid(s) ==> Valid(r)
  {
    SurvivalState(s.survivalTime + TickSeconds)
  }

  /** `onGameOver`: "Survived: MM:SS" from the whole seconds survived, with
      minutes and seconds zero-padded to two digits, and no second line. */
  function OnGameOver(s: SurvivalState): (r: GameModeResult)
    requires Valid(s)
    ensures r.secondaryDisplay.None?
    ensures 15 <= |r.primaryDisplay| && r.primaryDisplay[..10] == "Survived: "
    ensures r.primaryDisplay[|r.primaryDisplay| - 3] == ':'
    ensures Padded2(r.primaryDisplay[10..|r.primaryDisplay| - 3])
    ensures AllDigits(r.primaryDisplay[|r.primaryDisplay| - 2..])
    ensures ParseNat(r.primaryDisplay[|r.primaryDisplay| - 2..]) < 60
    ensures 60 * ParseNat(r.primaryDisplay[10..|r.primaryDisplay| - 3]) + ParseNat(r.primaryDisplay[|r.primaryDisplay| - 2..])
      == s.survivalTime.Floor
  {
    var total := Trunc(s.survivalTime);
    var minutes, seconds := total / 60, total % 60;
    var mm, ss := Pad2(minutes), Pad2(seconds);
    var text := "Survived: " + mm + ":" + ss;
    assert text[10..|text| - 3] == mm;
    assert text[|text| - 2..] == ss;
    assert text[|text| - 3] == ':';
    GameModeResult(text, None)
  }

  /** Two minutes and five and a half seconds display as "02:05". */
  lemma ResultExampleShort(s: SurvivalState)
    requires s.survivalTime == 125.5
    ensures OnGameOver(s).primaryDisplay == "Survived: 02:05"
  {
    var total := Trunc(s.survivalTime);
    assert total == 125;
    assert total / 60 == 2 && total % 60 == 5;
    assert Pad2(total / 60) == "02";
    assert Pad2(total % 60) == "05";
  }

  /** A hundred minutes widen the minutes field to three digits. */
  lemma ResultExampleLong(s: SurvivalState)
    requires s.survivalTime == 6000.0
    ensures OnGameOver(s).primaryDisplay == "Survived: 100:00"
  {
    var total := Trunc(s.survivalTime);
    assert total == 6000;
    assert total / 60 == 100 && total % 60 == 0;
    HundredMinutes(total / 60);
    assert Pad2(total % 60) == "00";
  }

  lemma HundredMinutes(m: nat)
    requires m == 100
    ensures Pad2(m) == "100"
  {
    assert NatToString(m) == NatToString(m / 10) + [DigitChar(m % 10)];
    assert NatToString(m / 10) == NatToString(1) + [DigitChar(0)];
  }
}
