// The geometry of a simulated finger moving to a target in steps of ten pixels.
// Distances are exact: `hypot` is never computed, only compared and divided by, and both can be done on squares.
module TouchMotion {
  import opened Reals

  const STEP_LENGTH: int := 10
  const TWICE_STEP_LENGTH: int := 2 * STEP_LENGTH

  datatype Point = Point(x: int, y: int)

  function Abs(n: int): nat
  {
    if n < 0 then -n else n
  }

  function Square(n: int): nat
  {
    SquareNonNegative(n);
    n * n
  }

  lemma SquareNonNegative(n: int)
    ensures n * n >= 0
  {
  }

  lemma SquareAbs(d: int)
    ensures Square(Abs(d)) == Square(d)
  {
  }

  lemma SquareOrder(a: nat, b: nat)
    ensures a <= b <==> Square(a) <= Square(b)
  {
    if a <= b {
      assert a * a <= a * b <= b * b;
    } else {
      assert b * b <= a * b < a * a;
    }
  }

  lemma TimesOrder(a: int, b: int, T: nat)
    requires 0 < T
    ensures a <= b <==> a * T <= b * T
  {
    if a <= b {
      assert (b - a) * T >= 0;
    } else {
      assert (a - b - 1) * T >= 0;
    }
  }

  /** The squared distance, `total` squared in the source. */
  function SquaredDistance(p: Point, q: Point): nat
  {
    Square(q.x - p.x) + Square(q.y - p.y)
  }

  function Distance1(p: Point, q: Point): nat
  {
    Abs(q.x - p.x) + Abs(q.y - p.y)
  }

  // ----- Rounding without square roots -----

  /** For d >= 0 and T = total^2 >= d^2: the integer nearest to 10 * d / total, searched upwards from `k`. */
  function NearestFrom(k: nat, d: nat, T: nat): (r: nat)
    requires 0 < T && Square(d) <= T && k <= STEP_LENGTH
    ensures k <= r <= STEP_LENGTH && 400 * Square(d) < Square(2 * r + 1) * T
    ensures k < r ==> Square(2 * r - 1) * T <= 400 * Square(d)
    decreases STEP_LENGTH - k, d
  {
    if 400 * Square(d) < Square(2 * k + 1) * T then k
    else
      assert k == STEP_LENGTH ==> Square(2 * k + 1) == 441;
      NearestFrom(k + 1, d, T)
  }

  /** `round(step * d / total)` where `step` is 10, or half the distance when less than 20 is left. */
  function RoundedStep(d: int, T: nat): (r: int)
    requires 0 < T && Square(d) <= T
  {
    var size := if T < Square(TWICE_STEP_LENGTH) then (Abs(d) + 1) / 2 else (SquareAbs(d); NearestFrom(0, Abs(d), T));
    if d < 0 then -size else size
  }

  lemma RoundsTo(q: real, r: nat)
    requires 0.0 <= q && (2 * r - 1) as real <= 2.0 * q < (2 * r + 1) as real
    ensures Round(q) == r && Round(-q) == 0 - r
  {
  }

  lemma SquareOfReal(n: int, total: real, T: nat)
    requires total * total == T as real
    ensures (n as real * total) * (n as real * total) == (Square(n) * T) as real
  {
    calc {
      (n as real * total) * (n as real * total);
      (n as real * n as real) * (total * total);
      (n * n) as real * T as real;
    }
  }

  /** Comparing the squares of integers decides on which side of n / 2 the quotient q = 10 * a / total lies. */
  lemma Bracket(n: nat, a: nat, T: nat, total: real, q: real)
    requires 0.0 < total && total * total == T as real
    requires q * total == 10.0 * a as real
    ensures n as real <= 2.0 * q <==> Square(n) * T <= 400 * Square(a)
  {
    var left, twenty := n as real * total, 20.0 * a as real;
    RealTimesOrder(n as real, 2.0 * q, total);
    assert 2.0 * q * total == twenty;
    RealTimesOrder(0.0, n as real, total);
    assert 0.0 <= left;
    RealSquareOrder(left, twenty);
    SquareOfReal(n, total, T);
    assert twenty * twenty == (400 * Square(a)) as real;
  }

  /** `step * d / total`, the value the source rounds. */
  function Quotient(d: int, total: real): real
    requires 0.0 < total
  {
    (if total < 20.0 then total / 2.0 else 10.0) * d as real / total
  }

  lemma QuotientValue(d: int, total: real)
    requires 0.0 < total
    ensures total < 20.0 ==> Quotient(d, total) == d as real / 2.0
    ensures 20.0 <= total ==> Quotient(d, total) * total == 10.0 * d as real
    ensures Quotient(-d, total) == -Quotient(d, total)
  {
    if total < 20.0 {
      assert total / 2.0 * d as real == d as real / 2.0 * total;
    } else {
      assert 10.0 * d as real / total * total == 10.0 * d as real;
    }
  }

  lemma FarStep(a: nat, T: nat, total: real, q: real)
    requires 0.0 < total && total * total == T as real && 0 < T && Square(a) <= T
    requires q * total == 10.0 * a as real
    ensures Round(q) == NearestFrom(0, a, T) && Round(-q) == 0 - NearestFrom(0, a, T)
  {
    hide Square, NearestFrom, Round;
    var r := NearestFrom(0, a, T);
    Bracket(2 * r + 1, a, T, total, q);
    if r > 0 {
      Bracket(2 * r - 1, a, T, total, q);
    }
    RealTimesOrder(0.0, q, total);
    RoundsTo(q, r);
  }

  lemma NearIff(T: nat, total: real)
    requires 0.0 < total && total * total == T as real
    ensures total < 20.0 <==> T < 400
  {
    RealSquareOrder(20.0, total);
  }

  lemma SquareOfTwenty()
    ensures Square(20) == 400
  {
  }

  /** The integer search computes what the source computes, for every distance whose root is exact. */
  lemma RoundedStepIsRounding(d: int, T: nat, total: real)
    requires 0.0 < total && total * total == T as real && 0 < T && Square(d) <= T
    ensures RoundedStep(d, T) == Round(Quotient(d, total))
  {
    hide Quotient, Square, NearestFrom;
    var a := Abs(d);
    SquareAbs(d);
    SquareOfTwenty();
    NearIff(T, total);
    QuotientValue(a, total);
    if total < 20.0 {
      RoundsTo(a as real / 2.0, (a + 1) / 2);
      hide Round;
    } else {
      FarStep(a, T, total, Quotient(a, total));
      hide Round;
    }
  }

  // ----- One step and the whole path -----

  function Step(cur: Point, target: Point): Point
  {
    var T := SquaredDistance(cur, target);
    if T <= Square(STEP_LENGTH) then target
    else Point(cur.x + RoundedStep(target.x - cur.x, T), cur.y + RoundedStep(target.y - cur.y, T))
  }

  /** How far a step of `length` along a line of length `total` goes on the axis on which the line measures `d`. */
  function Along(length: real, d: int, total: real): int
    requires 0.0 < total
  {
    Round(length * d as real / total)
  }

  /**
   * A step in the source's own terms, for the exact distance `total`: it lands when at most 10 is left, and otherwise goes
   * 10, or half the rest when less than 20 is left, along the line to the target, rounded on each axis.
   */
  lemma StepIsRounding(cur: Point, target: Point, total: real, length: real)
    requires 0.0 < total && total * total == SquaredDistance(cur, target) as real
    requires length == if total < 20.0 then total / 2.0 else 10.0
    ensures var dx, dy := target.x - cur.x, target.y - cur.y;
            Step(cur, target) ==
            if total <= 10.0 then target
            else Point(cur.x + Along(length, dx, total), cur.y + Along(length, dy, total))
  {
    hide Step, RoundedStep, Square, Along;
    var T := SquaredDistance(cur, target);
    StepUnfold(cur, target);
    ShortIff(T, total);
    if T > 100 {
      AxisIsRounding(target.x - cur.x, T, total, length);
      AxisIsRounding(target.y - cur.y, T, total, length);
    }
  }

  lemma StepUnfold(cur: Point, target: Point)
    ensures var T := SquaredDistance(cur, target);
            Step(cur, target) ==
            if T <= 100 then target
            else Point(cur.x + RoundedStep(target.x - cur.x, T), cur.y + RoundedStep(target.y - cur.y, T))
  {
    SquareOfTen();
  }

  lemma ShortIff(T: nat, total: real)
    requires 0.0 < total && total * total == T as real
    ensures total <= 10.0 <==> T <= 100
  {
    RealSquareOrder(total, 10.0);
  }

  lemma AxisIsRounding(d: int, T: nat, total: real, length: real)
    requires 0.0 < total && total * total == T as real && 0 < T && Square(d) <= T
    requires length == if total < 20.0 then total / 2.0 else 10.0
    ensures RoundedStep(d, T) == Along(length, d, total)
  {
    hide RoundedStep, Round, Square;
    RoundedStepIsRounding(d, T, total);
    assert Quotient(d, total) == length * d as real / total;
  }

  /** A step lands exactly when the distance, not just each axis, is at most 10. */
  lemma LandsIffNear(cur: Point, target: Point)
    requires cur != target
    ensures Step(cur, target) == target <==>
            (target.x - cur.x) * (target.x - cur.x) + (target.y - cur.y) * (target.y - cur.y) <= 100
  {
    var dx, dy, T := target.x - cur.x, target.y - cur.y, SquaredDistance(cur, target);
    SquareOfTen();
    assert T == dx * dx + dy * dy;
    hide Square;
    if T > 100 && Step(cur, target) == target {
      StepWhole(dx, T);
      StepWhole(dy, T);
      assert Abs(dx) <= 10 && Abs(dy) <= 10;
      if T < 400 {
        SquareOfOne();
        SquareAbs(dx);
        SquareAbs(dy);
        SquareOrder(Abs(dx), 1);
        SquareOrder(Abs(dy), 1);
      } else {
        SquareAbs(dx);
        SquareAbs(dy);
        SquareOrder(Abs(dx), 10);
        SquareOrder(Abs(dy), 10);
      }
      assert false;
    }
  }

  lemma SquareOfOne()
    ensures Square(1) == 1
  {
  }

  /** A step that covers all of an axis at once covers little. */
  lemma StepWhole(d: int, T: nat)
    requires 100 < T && Square(d) <= T && RoundedStep(d, T) == d
    ensures Abs(d) <= 10 && (T < 400 ==> Abs(d) <= 1)
  {
    StepSize(d, T);
    SquareOfTwenty();
    hide NearestFrom, Square;
  }

  predicate Between(a: int, b: int, c: int)
  {
    a <= b <= c || c <= b <= a
  }

  /** One step lands or comes at least 6 pixels closer; it moves at most 10 per axis and never overshoots. */
  lemma StepProgress(cur: Point, target: Point)
    requires cur != target
    ensures var next := Step(cur, target);
            && (next == target || Distance1(next, target) + 6 <= Distance1(cur, target))
            && Abs(next.x - cur.x) <= STEP_LENGTH && Abs(next.y - cur.y) <= STEP_LENGTH
            && Between(cur.x, next.x, target.x) && Between(cur.y, next.y, target.y)
            && Distance1(next, target) < Distance1(cur, target)
  {
    var dx, dy, T := target.x - cur.x, target.y - cur.y, SquaredDistance(cur, target);
    SquareOfTen();
    hide Square, RoundedStep;
    if T <= 100 {
      AxisBound(dx, 10, T);
      AxisBound(dy, 10, T);
    } else {
      StepSize(dx, T);
      StepSize(dy, T);
      StepSum(dx, dy);
    }
  }

  lemma SquareOfTen()
    ensures Square(10) == 100
  {
  }

  lemma AxisBound(d: int, bound: nat, T: nat)
    requires Square(d) <= T <= Square(bound)
    ensures Abs(d) <= bound
  {
    SquareAbs(d);
    SquareOrder(Abs(d), bound);
  }

  lemma ScaleBack(x: nat, y: nat, T: nat)
    requires 400 <= T && x * T <= 400 * y
    ensures x <= y
  {
    assert x * 400 <= x * T;
  }

  lemma NearestAtMost(a: nat, T: nat)
    requires 400 <= T && Square(a) <= T
    ensures NearestFrom(0, a, T) <= a
  {
    hide Square, NearestFrom;
    var r := NearestFrom(0, a, T);
    if r > 0 {
      var odd := 2 * r - 1;
      SquareOrder(odd, a);
      ScaleBack(Square(odd), Square(a), T);
    }
  }

  lemma StepSize(d: int, T: nat)
    requires 100 < T && Square(d) <= T
    ensures var r := RoundedStep(d, T);
            Abs(r) <= STEP_LENGTH && Between(0, r, d)
  {
    SquareAbs(d);
    assert Square(20) == 400;
    if T < 400 {
      AxisBound(d, 20, T);
    } else {
      NearestAtMost(Abs(d), T);
    }
  }

  lemma LongerAxis(a: nat, T: nat)
    requires 400 <= T <= 2 * Square(a) && Square(a) <= T
    ensures NearestFrom(0, a, T) >= 7
  {
    hide Square, NearestFrom;
    var r := NearestFrom(0, a, T);
    TimesOrder(Square(2 * r + 1), 200, T);
    SquareOrder(2 * r + 1, 14);
    assert Square(14) == 196 by { SquareOf14(); }
  }

  lemma SquareOf14()
    ensures Square(14) == 196
  {
  }

  lemma SquareOfSum(a: nat, b: nat)
    ensures Square(a) + Square(b) <= Square(a + b)
  {
    assert (a + b) * (a + b) == a * a + b * b + 2 * (a * b);
    assert a * b >= 0;
  }

  lemma StepSum(dx: int, dy: int)
    requires 100 < Square(dx) + Square(dy)
    ensures var T := Square(dx) + Square(dy);
            Abs(RoundedStep(dx, T)) + Abs(RoundedStep(dy, T)) >= 6
  {
    var T, a, b := Square(dx) + Square(dy), Abs(dx), Abs(dy);
    SquareAbs(dx);
    SquareAbs(dy);
    assert Square(10) == 100 && Square(20) == 400;
    hide Square;
    if T < 400 {
      SquareOfSum(a, b);
      SquareOrder(a + b, 10);
    } else if Square(a) >= Square(b) {
      LongerAxis(a, T);
    } else {
      LongerAxis(b, T);
    }
  }

  /** The positions a finger passes through on its way to the target; empty when it is there already. */
  function Path(cur: Point, target: Point): seq<Point>
    decreases Distance1(cur, target)
  {
    if cur == target then []
    else
      StepProgress(cur, target);
      [Step(cur, target)] + Path(Step(cur, target), target)
  }

  predicate InBox(p: Point, width: int, height: int)
  {
    0 <= p.x < width && 0 <= p.y < height
  }

  predicate Near(p: Point, q: Point)
  {
    Abs(q.x - p.x) <= STEP_LENGTH && Abs(q.y - p.y) <= STEP_LENGTH
  }

  /**
   * Every path ends exactly on its target, in jumps of at most 10 pixels per axis, closing in on both axes all the way,
   * inside every rectangle that holds both ends, and within one sixth of the distance (plus one) steps.
   */
  lemma {:induction false} PathReachesTarget(cur: Point, target: Point, width: int, height: int)
    requires InBox(cur, width, height) && InBox(target, width, height)
    ensures var path := [cur] + Path(cur, target);
            && path[|path| - 1] == target
            && (forall i :: 0 <= i < |path| - 1 ==> Near(path[i], path[i + 1]) && path[i] != target)
            && (forall i :: 0 <= i < |path| - 1 ==> path[i + 1] == Step(path[i], target))
            && (forall i :: 0 <= i < |path| - 1 ==> Between(path[i].x, path[i + 1].x, target.x) && Between(path[i].y, path[i + 1].y, target.y))
            && (forall p <- path :: InBox(p, width, height))
    ensures 6 * |Path(cur, target)| <= Distance1(cur, target) + 6
    ensures Distance1(cur, target) == 0 ==> Path(cur, target) == []
    decreases Distance1(cur, target)
  {
    hide Step;
    if cur != target {
      StepProgress(cur, target);
      var next := Step(cur, target);
      PathReachesTarget(next, target, width, height);
      assert [cur] + Path(cur, target) == [cur] + ([next] + Path(next, target));
    }
  }
}
