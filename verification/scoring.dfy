/** `ScoreHandler`: the running score, its fixed base multiplier, and the
    score notifications it sends (modelled as returned events). */
module Scoring {
  import opened Numeric
  import opened Geometry

  datatype ScoreEvent = ScoreUpdated(total: int)

  datatype ScoreHandler = ScoreHandler(score: int, baseMultiplier: real)

  /** The points for clearing `count` squares: `Int(count * base * combo)`,
      a single truncation after both multiplications. */
  function Points(count: int, base: real, combo: real): (p: int)
    ensures 0 <= count && 0.0 <= base && 0.0 <= combo ==>
      0 <= p && p as real <= count as real * base * combo < p as real + 1.0
  {
    NonNegativeProduct(count as real, base, combo);
    Trunc(count as real * base * combo)
  }

  lemma NonNegativeProduct(a: real, b: real, c: real)
    ensures 0.0 <= a && 0.0 <= b && 0.0 <= c ==> 0.0 <= a * b * c
  {
  }

  /** `init(baseMultiplier:)`: a fresh handler starts at zero. */
  function New(baseMultiplier: real): (h: ScoreHandler)
    ensures h.score == 0 && h.baseMultiplier == baseMultiplier
  {
    ScoreHandler(0, baseMultiplier)
  }

  /** `resetScore`: back to zero, with no notification. */
  function Reset(h: ScoreHandler): (r: (ScoreHandler, seq<ScoreEvent>))
    ensures r.0.score == 0 && r.0.baseMultiplier == h.baseMultiplier
    ensures r.1 == []
  {
    (h.(score := 0), [])
  }

  /** `addScore(forSquaresCleared:comboMultiplier:)`: adds the truncated
      product of the count, the base multiplier and the combo multiplier,
      then reports the new total. */
  function AddScore(h: ScoreHandler, count: int, combo: real): (r: (ScoreHandler, seq<ScoreEvent>))
    ensures r.0.baseMultiplier == h.baseMultiplier
    ensures r.0.score - h.score == Points(count, h.baseMultiplier, combo)
    ensures 0 <= count && 0.0 <= h.baseMultiplier && 0.0 <= combo ==> h.score <= r.0.score
    ensures r.1 == [ScoreUpdated(r.0.score)]
  {
    var h' := h.(score := h.score + Points(count, h.baseMultiplier, combo));
    (h', [ScoreUpdated(h'.score)])
  }

  /** `addRawScore`: adds points already computed elsewhere, then reports
      the new total. */
  function AddRawScore(h: ScoreHandler, points: int): (r: (ScoreHandler, seq<ScoreEvent>))
    ensures r.0.score - h.score == points
    ensures r.0.baseMultiplier == h.baseMultiplier
    ensures 0 <= points ==> h.score <= r.0.score
    ensures r.1 == [ScoreUpdated(r.0.score)]
  {
    var h' := h.(score := h.score + points);
    (h', [ScoreUpdated(h'.score)])
  }

  /** `calculateScore(forArea:to:)`: what the rectangle would be worth at
      the base multiplier alone. A query: it returns a number and changes
      nothing, so it has no handler or events in its result. */
  function CalculateScore(h: ScoreHandler, a: GridPosition, b: GridPosition): (s: int)
    ensures 0.0 <= h.baseMultiplier ==>
      var cells := (Abs(a.x - b.x) + 1) * (Abs(a.y - b.y) + 1);
      0 <= s && s as real <= cells as real * h.baseMultiplier < s as real + 1.0
  {
    var area := Area(a, b);
    Trunc(|area| as real * h.baseMultiplier)
  }

  /** A run of `addScore` calls, each with its count and combo multiplier. */
  function AddAll(h: ScoreHandler, adds: seq<(int, real)>): (r: (ScoreHandler, seq<ScoreEvent>))
    decreases |adds|
  {
    if |adds| == 0 then (h, [])
    else
      var first := AddScore(h, adds[0].0, adds[0].1);
      var rest := AddAll(first.0, adds[1..]);
      (rest.0, first.1 + rest.1)
  }

  /** The sum of the points a run of additions earns. */
  function SumPoints(base: real, adds: seq<(int, real)>): int
    decreases |adds|
  {
    if |adds| == 0 then 0 else Points(adds[0].0, base, adds[0].1) + SumPoints(base, adds[1..])
  }

  /** Successive additions accumulate: the final score is the start plus
      every addition's points; each addition sends exactly one
      notification, the last carrying the final total; with non-negative
      counts and multipliers the reported totals never decrease. */
  lemma {:induction false} AddAllAccumulates(h: ScoreHandler, adds: seq<(int, real)>)
    ensures AddAll(h, adds).0.score == h.score + SumPoints(h.baseMultiplier, adds)
    ensures AddAll(h, adds).0.baseMultiplier == h.baseMultiplier
    ensures |AddAll(h, adds).1| == |adds|
    ensures |adds| > 0 ==> AddAll(h, adds).1[|adds| - 1] == ScoreUpdated(AddAll(h, adds).0.score)
    ensures 0.0 <= h.baseMultiplier && (forall i :: 0 <= i < |adds| ==> 0 <= adds[i].0 && 0.0 <= adds[i].1) ==>
      h.score <= AddAll(h, adds).0.score &&
      forall i, j :: 0 <= i < j < |adds| ==> AddAll(h, adds).1[i].total <= AddAll(h, adds).1[j].total
    decreases |adds|, 0
  {
    if |adds| > 0 {
      var first := AddScore(h, adds[0].0, adds[0].1);
      AddAllAccumulates(first.0, adds[1..]);
      var rest := AddAll(first.0, adds[1..]);
      var ev := first.1 + rest.1;
      assert AddAll(h, adds) == (rest.0, ev);
      if 0.0 <= h.baseMultiplier && (forall i :: 0 <= i < |adds| ==> 0 <= adds[i].0 && 0.0 <= adds[i].1) {
        assert forall i :: 0 <= i < |adds[1..]| ==> adds[1..][i] == adds[i + 1];
        forall i, j | 0 <= i < j < |adds|
          ensures ev[i].total <= ev[j].total
        {
          if i == 0 {
            assert ev[0].total == first.0.score;
            RunStaysAbove(first.0, adds[1..], j - 1);
          } else {
            assert ev[i] == rest.1[i - 1] && ev[j] == rest.1[j - 1];
          }
        }
      }
    }
  }

  /** Every total reported during a run of non-negative additions is at
      least the score the run started from. */
  lemma {:induction false} RunStaysAbove(h: ScoreHandler, adds: seq<(int, real)>, k: int)
    requires 0.0 <= h.baseMultiplier
    requires forall i :: 0 <= i < |adds| ==> 0 <= adds[i].0 && 0.0 <= adds[i].1
    requires 0 <= k < |adds|
    ensures |AddAll(h, adds).1| == |adds|
    ensures h.score <= AddAll(h, adds).1[k].total
    decreases |adds|, 1
  {
    AddAllAccumulates(h, adds);
    var first := AddScore(h, adds[0].0, adds[0].1);
    var rest := AddAll(first.0, adds[1..]);
    if k > 0 {
      assert forall i :: 0 <= i < |adds[1..]| ==> adds[1..][i] == adds[i + 1];
      RunStaysAbove(first.0, adds[1..], k - 1);
      assert AddAll(h, adds).1[k] == rest.1[k - 1];
    }
  }

  /** The handler's documented behaviour at base multiplier 1.0 and 2.0:
      10 squares at combo 1.10 earn 11 points, at 1.25 earn 12; 5 squares
      at base 2.0 and combo 1.5 earn 15; a 3 by 3 area is worth 9. */
  lemma HandlerExamples()
    ensures AddScore(New(1.0), 10, 1.10).0.score == 11
    ensures AddScore(New(1.0), 10, 1.25).0.score == 12
    ensures AddScore(New(1.0), 10, 1.0).0.score == 10
    ensures AddScore(New(2.0), 5, 1.5).0.score == 15
    ensures AddScore(AddScore(New(1.0), 5, 1.0).0, 3, 1.0).0.score == 8
    ensures CalculateScore(New(1.0), GridPosition(0, 0), GridPosition(2, 2)) == 9
  {
  }
}
