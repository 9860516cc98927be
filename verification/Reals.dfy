// C's `round` and `ceil` on exact reals, and the order facts that replace square roots.
module Reals {

  /** To the nearest integer, halves away from zero. */
  function Round(r: real): int
  {
    if r >= 0.0 then (r + 0.5).Floor else -((-r + 0.5).Floor)
  }

  function Ceil(r: real): int
  {
    -((-r).Floor)
  }

  function AbsReal(r: real): real
  {
    if r < 0.0 then -r else r
  }

  lemma RoundError(r: real)
    ensures AbsReal(Round(r) as real - r) <= 0.5
  {
  }

  lemma RoundBounded(r: real, n: nat)
    requires AbsReal(r) <= n as real
    ensures 0 - n <= Round(r) <= n
  {
  }

  lemma RoundInteger(n: int)
    ensures Round(n as real) == n
  {
  }

  lemma RealTimesOrder(a: real, b: real, t: real)
    requires 0.0 < t
    ensures a <= b <==> a * t <= b * t
  {
    assert b * t - a * t == (b - a) * t;
  }

  lemma RealSquareOrder(a: real, b: real)
    requires 0.0 <= a && 0.0 <= b
    ensures a <= b <==> a * a <= b * b
  {
    var difference := b * b - a * a;
    assert difference == (b - a) * (b + a);
    if 0.0 < a + b {
      RealTimesOrder(0.0, b - a, b + a);
      assert 0.0 * (b + a) == 0.0;
    }
  }
}
