/** The speed-weighted points of one answer submission. */
module Scoring {

  /** `questionTimeLimit` of every session, in milliseconds. */
  const QuestionTimeLimit: int := 20000

  /** The points a submission earns: 0 when wrong, otherwise
      `Math.round(1000 + max(0, (limit - elapsed) / 1000) * 50)`.
      Times are whole milliseconds, so the bonus is `d / 20` with
      `d = max(0, limit - elapsed)`, and rounding half up adds 10 before
      dividing. `PointsAreJsRound` proves this agrees with the real-valued
      formula. */
  function Points(isCorrect: bool, limit: int, elapsed: int): (p: int)
    ensures p >= 0
    ensures p == 0 <==> !isCorrect
    ensures isCorrect ==> p >= 1000
    ensures isCorrect && elapsed >= limit ==> p == 1000
  {
    if !isCorrect then 0
    else
      var d := if limit - elapsed > 0 then limit - elapsed else 0;
      1000 + (d + 10) / 20
  }

  /** `Math.round`: the nearest integer, halves rounded towards +infinity. */
  function JsRound(x: real): (n: int)
    ensures n as real - 0.5 <= x < n as real + 0.5
  {
    (x + 0.5).Floor
  }

  /** The points formula evaluated on exact reals, as the source writes it. */
  function RealPoints(isCorrect: bool, limit: int, elapsed: int): int
  {
    if !isCorrect then 0
    else
      var timeBonus := if (limit - elapsed) as real / 1000.0 > 0.0
                       then (limit - elapsed) as real / 1000.0 else 0.0;
      JsRound(1000.0 + timeBonus * 50.0)
  }

  /** The integer formula is the source's formula on exact reals. */
  lemma PointsAreJsRound(isCorrect: bool, limit: int, elapsed: int)
    ensures Points(isCorrect, limit, elapsed) == RealPoints(isCorrect, limit, elapsed)
  {
    if isCorrect {
      var d := if limit - elapsed > 0 then limit - elapsed else 0;
      var q, m := (d + 10) / 20, (d + 10) % 20;
      assert d + 10 == 20 * q + m && 0 <= m < 20;
      var timeBonus := if (limit - elapsed) as real / 1000.0 > 0.0
                       then (limit - elapsed) as real / 1000.0 else 0.0;
      assert timeBonus == d as real / 1000.0;
      var x := 1000.0 + timeBonus * 50.0;
      assert x + 0.5 == (1000 + q) as real + m as real / 20.0;
      assert (1000 + q) as real <= x + 0.5 < (1000 + q + 1) as real;
      assert JsRound(x) == 1000 + q;
    }
  }

  /** With the 20-second limit and a submission not before the question
      started, a correct answer earns between 1000 and 2000 points. */
  lemma PointsRange(elapsed: int)
    requires 0 <= elapsed
    ensures 1000 <= Points(true, QuestionTimeLimit, elapsed) <= 2000
    ensures elapsed == 0 ==> Points(true, QuestionTimeLimit, elapsed) == 2000
  {
  }

  /** A later submission never earns more than an earlier one. */
  lemma PointsNonIncreasing(isCorrect: bool, limit: int, e1: int, e2: int)
    requires e1 <= e2
    ensures Points(isCorrect, limit, e2) <= Points(isCorrect, limit, e1)
  {
  }
}
