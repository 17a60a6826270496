/** `ComboHandler`: a streak of successful matches, each within a time
    window of the previous one, and the score multiplier it grants.
    The wall clock is an explicit `now` argument (seconds). */
module Combo {
  import opened Wrappers
  import opened Numeric

  /** The three combo tunables the engine hands to the handler. */
  datatype ComboSettings = ComboSettings(threshold: real, baseBonus: real, increment: real)

  datatype ComboHandler = ComboHandler(currentCombo: nat, lastSuccessTime: Option<real>)

  /** A new handler, and the state `resetCombo` returns to: no streak and
      no previous success. */
  const Initial := ComboHandler(0, None)

  /** `resetCombo`. */
  function Reset(h: ComboHandler): (r: ComboHandler)
    ensures r.currentCombo == 0 && r.lastSuccessTime.None?
  {
    Initial
  }

  /** The previous success is recent enough for the streak to continue. */
  predicate Continues(h: ComboHandler, s: ComboSettings, now: real) {
    h.lastSuccessTime.Some? && now - h.lastSuccessTime.value <= s.threshold
  }

  /** `updateCombo`, called on every successful match: extend the streak
      if the previous success is within the window, otherwise start a new
      streak of one; remember `now`. The second component is the combo
      notification, sent only for streaks longer than one. */
  function Update(h: ComboHandler, s: ComboSettings, now: real): (r: (ComboHandler, Option<nat>))
    ensures r.0.lastSuccessTime == Some(now)
    ensures 1 <= r.0.currentCombo
    ensures Continues(h, s, now) ==> r.0.currentCombo == h.currentCombo + 1
    ensures !Continues(h, s, now) ==> r.0.currentCombo == 1
    ensures r.1.Some? <==> r.0.currentCombo > 1
    ensures r.1.Some? ==> r.1.value == r.0.currentCombo
  {
    var combo := if Continues(h, s, now) then h.currentCombo + 1 else 1;
    var h' := ComboHandler(combo, Some(now));
    (h', if combo > 1 then Some(combo) else None)
  }

  /** `comboMultiplier`: 1 until a streak of two; then one plus the base
      bonus, plus a flat increment for each further match (linear, not
      compounding). */
  function Multiplier(h: ComboHandler, s: ComboSettings): (m: real)
    ensures h.currentCombo <= 1 ==> m == 1.0
    ensures h.currentCombo == 2 ==> m == 1.0 + s.baseBonus
    ensures 2 <= h.currentCombo ==> m - (1.0 + s.baseBonus) == (h.currentCombo - 2) as real * s.increment
  {
    if h.currentCombo <= 1 then 1.0
    else 1.0 + (s.baseBonus + (h.currentCombo - 2) as real * s.increment)
  }

  /** With non-negative bonuses the multiplier never falls as the streak
      grows, and never drops below 1. */
  lemma MultiplierMonotone(s: ComboSettings, c1: nat, c2: nat)
    requires c1 <= c2 && 0.0 <= s.baseBonus && 0.0 <= s.increment
    ensures 1.0 <= Multiplier(ComboHandler(c1, None), s) <= Multiplier(ComboHandler(c2, None), s)
  {
    if 2 <= c2 {
      var x2 := (c2 - 2) as real;
      ProductNonNegative(x2, s.increment);
      if 2 <= c1 {
        var x1 := (c1 - 2) as real;
        ProductNonNegative(x1, s.increment);
        ScaleMonotone(s.increment, x1, x2);
        BonusMonotone(s.baseBonus, x1 * s.increment, x2 * s.increment);
      }
    }
  }

  lemma BonusMonotone(bonus: real, e1: real, e2: real)
    requires 0.0 <= bonus && 0.0 <= e1 <= e2
    ensures 1.0 <= 1.0 + (bonus + e1) <= 1.0 + (bonus + e2)
  {
  }

  /** The multiplier depends on the streak length only, not on when the
      last success happened. */
  lemma MultiplierIgnoresTime(s: ComboHandler, t: Option<real>, settings: ComboSettings)
    ensures Multiplier(s, settings) == Multiplier(s.(lastSuccessTime := t), settings)
  {
  }

  /** A run of successes at the given times. */
  function UpdateAll(h: ComboHandler, s: ComboSettings, times: seq<real>): (r: (ComboHandler, seq<nat>))
    decreases |times|
  {
    if |times| == 0 then (h, [])
    else
      var first := Update(h, s, times[0]);
      var rest := UpdateAll(first.0, s, times[1..]);
      (rest.0, (if first.1.Some? then [first.1.value] else []) + rest.1)
  }

  /** Every success follows the previous one within the window. */
  predicate Steady(s: ComboSettings, times: seq<real>) {
    forall i :: 0 < i < |times| ==> times[i] - times[i - 1] <= s.threshold
  }

  /** A steady run of `k` successes from a fresh (or reset) handler builds a
      streak of exactly `k`, and notifies once for each success after the
      first, with the counts 2, 3, ..., k in order. */
  lemma {:induction false} SteadyRunBuildsStreak(s: ComboSettings, times: seq<real>)
    requires |times| > 0 && Steady(s, times)
    ensures UpdateAll(Initial, s, times).0.currentCombo == |times|
    ensures UpdateAll(Initial, s, times).1 == seq(|times| - 1, i => i + 2)
  {
    var first := Update(Initial, s, times[0]);
    assert first.0 == ComboHandler(1, Some(times[0]));
    assert first.1 == None;
    ContinueRun(first.0, s, times[1..], times[0]);
  }

  /** The step of `SteadyRunBuildsStreak`: a steady run continuing a streak
      of `c` whose last success was at `t` extends it by one per success. */
  lemma {:induction false} ContinueRun(h: ComboHandler, s: ComboSettings, times: seq<real>, t: real)
    requires h.lastSuccessTime == Some(t) && 1 <= h.currentCombo
    requires |times| > 0 ==> times[0] - t <= s.threshold
    requires Steady(s, times)
    ensures UpdateAll(h, s, times).0.currentCombo == h.currentCombo + |times|
    ensures UpdateAll(h, s, times).1 == seq(|times|, i => h.currentCombo + 1 + i)
    decreases |times|
  {
    if |times| > 0 {
      var first := Update(h, s, times[0]);
      assert first.0 == ComboHandler(h.currentCombo + 1, Some(times[0]));
      var tail := times[1..];
      assert Steady(s, tail) by {
        forall i | 0 < i < |tail|
          ensures tail[i] - tail[i - 1] <= s.threshold
        {
          assert tail[i] == times[i + 1] && tail[i - 1] == times[i];
        }
      }
      assert |tail| > 0 ==> tail[0] - times[0] <= s.threshold by {
        if |tail| > 0 {
          assert tail[0] == times[1];
        }
      }
      ContinueRun(first.0, s, tail, times[0]);
      var rest := UpdateAll(first.0, s, tail);
      assert UpdateAll(h, s, times).1 == [h.currentCombo + 1] + rest.1;
    }
  }

  /** A success after a gap longer than the window starts over at one,
      silently, whatever the streak was. */
  lemma GapRestartsStreak(h: ComboHandler, s: ComboSettings, t: real, now: real)
    requires h.lastSuccessTime == Some(t) && now - t > s.threshold
    ensures Update(h, s, now).0.currentCombo == 1
    ensures Update(h, s, now).1 == None
    ensures Multiplier(Update(h, s, now).0, s) == 1.0
  {
  }

  /** A reset handler starts a silent streak of one on its next success. */
  lemma ResetThenUpdate(h: ComboHandler, s: ComboSettings, now: real)
    ensures Update(Reset(h), s, now).0.currentCombo == 1
    ensures Update(Reset(h), s, now).1 == None
    ensures Multiplier(Reset(h), s) == 1.0
  {
  }

  /** The documented multipliers for a 10% base bonus and 5% increment:
      1.10, 1.15, 1.20 and 1.25 for streaks of two to five. */
  lemma MultiplierExamples()
    ensures Multiplier(ComboHandler(2, None), ComboSettings(3.0, 0.10, 0.05)) == 1.10
    ensures Multiplier(ComboHandler(3, None), ComboSettings(3.0, 0.10, 0.05)) == 1.15
    ensures Multiplier(ComboHandler(4, None), ComboSettings(3.0, 0.10, 0.05)) == 1.20
    ensures Multiplier(ComboHandler(5, None), ComboSettings(3.0, 0.10, 0.05)) == 1.25
  {
  }
}
