// The simulated mouse: a displacement is sent as a run of short relative motions.
module VirtualMice {
  import opened Common
  import opened Reals

  const FAST_STEP: real := 5.0
  const TWICE_FAST_STEP: real := 2.0 * FAST_STEP
  const MAXIMUM_STEP_LENGTH: real := 5000.0
  const STEP_UNIT: real := 1.0

  datatype Event = RelX(v: int) | RelY(v: int) | SynReport

  /** The step taken when `total` is left: 5, or a half or the whole of a short rest. */
  function StepOf(total: real): real
  {
    if total < TWICE_FAST_STEP then if total > FAST_STEP then total / 2.0 else total else FAST_STEP
  }

  lemma StepCount(total: real)
    requires 0.0 < total
    ensures 0.0 < StepOf(total) <= FAST_STEP && StepOf(total) <= total
    ensures Ceil((total - StepOf(total)) / FAST_STEP) == Ceil(total / FAST_STEP) - 1
    ensures Ceil(total / FAST_STEP) >= 1
  {
    if total < 10.0 {
      if total > 5.0 {
        assert 1.0 < total / FAST_STEP < 2.0;
        assert 0.0 < total / 2.0 / FAST_STEP <= 1.0;
      } else {
        assert 0.0 < total / FAST_STEP <= 1.0;
      }
    } else {
      assert (total - 5.0) / FAST_STEP == total / FAST_STEP - 1.0;
    }
  }

  /** The steps that spend a budget of `total`. */
  function Steps(total: real): seq<real>
    requires 0.0 <= total
    decreases Ceil(total / FAST_STEP)
  {
    if total == 0.0 then []
    else
      StepCount(total);
      [StepOf(total)] + Steps(total - StepOf(total))
  }

  function Sum(rs: seq<real>): real
  {
    if rs == [] then 0.0 else rs[0] + Sum(rs[1..])
  }

  /** The budget is spent exactly: ceil(total / 5) positive steps of at most 5 that add up to it. */
  lemma {:induction false} StepsSpendBudget(total: real)
    requires 0.0 <= total
    ensures |Steps(total)| == Ceil(total / FAST_STEP) && Sum(Steps(total)) == total
    ensures forall step <- Steps(total) :: 0.0 < step <= FAST_STEP
    decreases Ceil(total / FAST_STEP)
  {
    if total != 0.0 {
      StepCount(total);
      StepsSpendBudget(total - StepOf(total));
    }
  }

  /** The component along an axis of a motion of length `amount` in the direction of the displacement. */
  function Ideal(amount: real, d: int, delta: real): real
    requires 0.0 < delta
  {
    amount * d as real / delta
  }

  /** One axis of one step, rounded to whole units. */
  function Units(step: real, d: int, delta: real): int
    requires 0.0 < delta
  {
    Round(Ideal(step, d, delta))
  }

  /** The events of one step: the axes that move at all, and a report only if one does. */
  function StepEvents(tx: int, ty: int): seq<Event>
  {
    (if tx != 0 then [RelX(tx)] else []) + (if ty != 0 then [RelY(ty)] else []) + (if tx != 0 || ty != 0 then [SynReport] else [])
  }

  function Motion(steps: seq<real>, dx: int, dy: int, delta: real): seq<Event>
    requires 0.0 < delta
  {
    if steps == [] then []
    else StepEvents(Units(steps[0], dx, delta), Units(steps[0], dy, delta)) + Motion(steps[1..], dx, dy, delta)
  }

  /** `delta` is the exact value of `hypot(dx, dy)`. */
  predicate IsLength(delta: real, dx: int, dy: int)
  {
    0.0 <= delta && delta * delta == (dx * dx + dy * dy) as real
  }

  /** An axis moves by at most 5 units per step, so neither bound of the source's filter ever swallows motion. */
  lemma UnitsBounded(step: real, d: int, e: int, delta: real)
    requires 0.0 < step <= FAST_STEP && 0.0 < delta && IsLength(delta, d, e)
    ensures -5 <= Units(step, d, delta) <= 5
  {
    hide Ideal;
    AxisWithin(d, e, delta);
    IdealWithin(step, d, delta);
    RoundBounded(Ideal(step, d, delta), 5);
  }

  lemma AxisWithin(d: int, e: int, delta: real)
    requires 0.0 < delta && IsLength(delta, d, e)
    ensures AbsReal(d as real) <= delta
  {
    var a := AbsReal(d as real);
    assert e * e >= 0;
    assert a * a == (d * d) as real <= delta * delta;
    RealSquareOrder(a, delta);
  }

  lemma ProductWithin(step: real, d: real, delta: real)
    requires 0.0 < step <= 5.0 && AbsReal(d) <= delta
    ensures AbsReal(step * d) <= 5.0 * delta
  {
    ProductBelow(step, d, delta);
    ProductBelow(step, -d, delta);
    assert step * -d == -(step * d);
  }

  lemma ProductBelow(step: real, d: real, delta: real)
    requires 0.0 < step <= 5.0 && d <= delta && 0.0 <= delta
    ensures step * d <= 5.0 * delta
  {
    RealTimesOrder(d, delta, step);
    assert step * d == d * step && delta * step == step * delta;
    assert (5.0 - step) * delta >= 0.0;
  }

  lemma DivideWithin(n: real, delta: real)
    requires 0.0 < delta && AbsReal(n) <= 5.0 * delta
    ensures AbsReal(n / delta) <= 5.0
  {
    var q := n / delta;
    assert q * delta == n;
    RealTimesOrder(q, 5.0, delta);
    RealTimesOrder(-5.0, q, delta);
  }

  lemma IdealWithin(step: real, d: int, delta: real)
    requires 0.0 < step <= FAST_STEP && 0.0 < delta && AbsReal(d as real) <= delta
    ensures AbsReal(Ideal(step, d, delta)) <= 5.0
  {
    hide AbsReal;
    var n := step * d as real;
    ProductWithin(step, d as real, delta);
    DivideWithin(n, delta);
    assert Ideal(step, d, delta) == n / delta;
  }

  lemma MotionUnfold(total: real, dx: int, dy: int, delta: real)
    requires 0.0 < total && 0.0 < delta
    ensures var step := StepOf(total);
            && 0.0 <= total - step
            && Motion(Steps(total), dx, dy, delta) ==
               StepEvents(Units(step, dx, delta), Units(step, dy, delta)) + Motion(Steps(total - step), dx, dy, delta)
  {
    hide StepOf, Units, StepEvents;
    var step := StepOf(total);
    StepCount(total);
    assert ([step] + Steps(total - step))[1..] == Steps(total - step);
  }

  /** The events of a whole move: none for a move shorter than 1, and 5000 at most of the length. */
  function MoveEvents(dx: int, dy: int, delta: real): seq<Event>
  {
    if delta < STEP_UNIT then [] else Motion(Steps(Budget(delta)), dx, dy, delta)
  }

  function Budget(delta: real): real
  {
    if delta < MAXIMUM_STEP_LENGTH then delta else MAXIMUM_STEP_LENGTH
  }

  class VirtualMouse {
    var events: seq<Event>

    constructor ()
      ensures events == []
    {
      events := [];
    }

    /** `Move`, with the exact length `delta` of the displacement in place of `hypot`. */
    method Move(dx: int, dy: int, delta: real)
      requires IsLength(delta, dx, dy)
      modifies this
      ensures events == old(events) + MoveEvents(dx, dy, delta)
    {
      hide Steps, Motion, StepEvents, Units, IsLength, Ceil;
      if delta < STEP_UNIT {
        return;
      }
      var total := if delta < MAXIMUM_STEP_LENGTH then delta else MAXIMUM_STEP_LENGTH;
      ghost var all := Motion(Steps(Budget(delta)), dx, dy, delta);
      var count := Ceil(total / FAST_STEP);
      StepsSpendBudget(total);
      while count > 0
        invariant 0.0 <= total && count == Ceil(total / FAST_STEP)
        invariant events + Motion(Steps(total), dx, dy, delta) == old(events) + all
      {
        CountLeft(total);
        count := count - 1;
        var step;
        if total < TWICE_FAST_STEP {
          if total > FAST_STEP {
            step := total / 2.0;
          } else {
            step := total;
          }
        } else {
          step := FAST_STEP;
        }
        assert step == StepOf(total);
        hide StepOf;
        StepCount(total);
        MotionUnfold(total, dx, dy, delta);
        ghost var before, sent := events, StepEvents(Units(step, dx, delta), Units(step, dy, delta));
        SendStep(step, dx, dy, delta);
        total := total - step;
        Regroup(before, sent, Motion(Steps(total), dx, dy, delta));
      }
      CountLeft(total);
      NoBudgetNoMotion(dx, dy, delta);
      assert events + [] == events;
    }

    /** The events of one iteration of the loop in `Move`. */
    method SendStep(step: real, dx: int, dy: int, delta: real)
      requires 0.0 < step <= FAST_STEP && 0.0 < delta && IsLength(delta, dx, dy)
      modifies this
      ensures events == old(events) + StepEvents(Units(step, dx, delta), Units(step, dy, delta))
    {
      hide Ideal, Round;
      var tx, ty := Round(Ideal(step, dx, delta)), Round(Ideal(step, dy, delta));
      UnitsBounded(step, dx, dy, delta);
      assert IsLength(delta, dy, dx);
      UnitsBounded(step, dy, dx, delta);
      var moveX := AbsReal(tx as real) >= STEP_UNIT && AbsReal(tx as real) <= MAXIMUM_STEP_LENGTH;
      var moveY := AbsReal(ty as real) >= STEP_UNIT && AbsReal(ty as real) <= MAXIMUM_STEP_LENGTH;
      if moveX {
        events := events + [RelX(tx)];
      }
      if moveY {
        events := events + [RelY(ty)];
      }
      if moveX || moveY {
        events := events + [SynReport];
      }
    }
  }

  lemma CountLeft(total: real)
    requires 0.0 <= total
    ensures Ceil(total / FAST_STEP) <= 0 <==> total == 0.0
  {
    if total > 0.0 {
      StepCount(total);
    }
  }

  lemma NoBudgetNoMotion(dx: int, dy: int, delta: real)
    requires 0.0 < delta
    ensures Motion(Steps(0.0), dx, dy, delta) == []
  {
  }

  // ----- Where the pointer ends up -----

  function SumX(events: seq<Event>): int
  {
    if events == [] then 0 else (match events[0] case RelX(v) => v case _ => 0) + SumX(events[1..])
  }

  function SumY(events: seq<Event>): int
  {
    if events == [] then 0 else (match events[0] case RelY(v) => v case _ => 0) + SumY(events[1..])
  }

  lemma {:induction false} SumsAppend(a: seq<Event>, b: seq<Event>)
    ensures SumX(a + b) == SumX(a) + SumX(b) && SumY(a + b) == SumY(a) + SumY(b)
  {
    if a == [] {
      assert a + b == b;
    } else {
      assert (a + b)[1..] == a[1..] + b;
      SumsAppend(a[1..], b);
    }
  }

  lemma StepEventsSum(tx: int, ty: int)
    ensures SumX(StepEvents(tx, ty)) == tx && SumY(StepEvents(tx, ty)) == ty
  {
    var x, y := if tx != 0 then [RelX(tx)] else [], if ty != 0 then [RelY(ty)] else [];
    var r := if tx != 0 || ty != 0 then [SynReport] else [];
    SumsAppend(x + y, r);
    SumsAppend(x, y);
  }

  lemma IdealSum(a: real, b: real, d: int, delta: real)
    requires 0.0 < delta
    ensures Ideal(a + b, d, delta) == Ideal(a, d, delta) + Ideal(b, d, delta)
    ensures Ideal(0.0, d, delta) == 0.0
  {
    assert (a + b) * d as real == a * d as real + b * d as real;
    assert 0.0 * d as real == 0.0;
  }

  /** Rounding makes the pointer drift from the ideal line by at most half a unit per step and axis. */
  lemma {:induction false} MotionDrift(steps: seq<real>, dx: int, dy: int, delta: real)
    requires 0.0 < delta
    ensures var m := Motion(steps, dx, dy, delta);
            && AbsReal(SumX(m) as real - Ideal(Sum(steps), dx, delta)) <= |steps| as real / 2.0
            && AbsReal(SumY(m) as real - Ideal(Sum(steps), dy, delta)) <= |steps| as real / 2.0
  {
    hide Ideal, Round, StepEvents;
    if steps == [] {
      IdealSum(0.0, 0.0, dx, delta);
      IdealSum(0.0, 0.0, dy, delta);
    } else {
      var tx, ty := Units(steps[0], dx, delta), Units(steps[0], dy, delta);
      SumsAppend(StepEvents(tx, ty), Motion(steps[1..], dx, dy, delta));
      StepEventsSum(tx, ty);
      RoundError(Ideal(steps[0], dx, delta));
      RoundError(Ideal(steps[0], dy, delta));
      IdealSum(steps[0], Sum(steps[1..]), dx, delta);
      IdealSum(steps[0], Sum(steps[1..]), dy, delta);
      MotionDrift(steps[1..], dx, dy, delta);
      HalfMore(|steps[1..]|);
    }
  }

  lemma HalfMore(n: nat)
    ensures (n + 1) as real / 2.0 == n as real / 2.0 + 0.5
  {
  }

  /** The ideal displacement has the length and the direction asked for. */
  lemma IdealIsProportional(amount: real, d: int, delta: real)
    requires 0.0 < delta
    ensures Ideal(amount, d, delta) * delta == amount * d as real
  {
  }

  /**
   * A move ends within half the number of steps of the ideal displacement on each axis; moves longer than 5000 are cut to
   * that length first.
   */
  lemma MoveDrift(dx: int, dy: int, delta: real)
    requires 1.0 <= delta && IsLength(delta, dx, dy)
    ensures var total := Budget(delta);
            var m, n := MoveEvents(dx, dy, delta), Ceil(total / FAST_STEP);
            && AbsReal(SumX(m) as real - Ideal(total, dx, delta)) <= n as real / 2.0
            && AbsReal(SumY(m) as real - Ideal(total, dy, delta)) <= n as real / 2.0
  {
    var total := Budget(delta);
    hide IsLength, Ideal, Sum, Steps, Motion;
    StepsSpendBudget(total);
    MotionDrift(Steps(total), dx, dy, delta);
  }

  // ----- What a reader of the device sees -----

  /** A motion counts once it is reported: until then it is pending. `reports` lists what has been reported so far. */
  datatype Pointer = Pointer(x: int, y: int, pendingX: int, pendingY: int, reports: seq<(int, int)>)

  function Feed(p: Pointer, e: Event): Pointer
  {
    match e
    case RelX(v) => p.(pendingX := p.pendingX + v)
    case RelY(v) => p.(pendingY := p.pendingY + v)
    case SynReport => Pointer(p.x + p.pendingX, p.y + p.pendingY, 0, 0, p.reports + [(p.pendingX, p.pendingY)])
  }

  function FeedAll(p: Pointer, events: seq<Event>): Pointer
    decreases |events|
  {
    if events == [] then p else Feed(FeedAll(p, events[..|events| - 1]), events[|events| - 1])
  }

  lemma {:induction false} FeedAppend(p: Pointer, a: seq<Event>, b: seq<Event>)
    ensures FeedAll(p, a + b) == FeedAll(FeedAll(p, a), b)
    decreases |b|
  {
    hide Feed;
    if b == [] {
      assert a + b == a;
    } else {
      assert (a + b)[..|a + b| - 1] == a + b[..|b| - 1];
      FeedAppend(p, a, b[..|b| - 1]);
    }
  }

  predicate AtRest(p: Pointer)
  {
    p.pendingX == 0 && p.pendingY == 0
  }

  /** One iteration of the loop reports its motion at once, and nothing if there is none. */
  lemma StepIsRead(p: Pointer, tx: int, ty: int)
    requires AtRest(p)
    ensures FeedAll(p, StepEvents(tx, ty)) ==
            if tx == 0 && ty == 0 then p else Pointer(p.x + tx, p.y + ty, 0, 0, p.reports + [(tx, ty)])
  {
    var x, y := if tx != 0 then [RelX(tx)] else [], if ty != 0 then [RelY(ty)] else [];
    var r := if tx != 0 || ty != 0 then [SynReport] else [];
    FeedAppend(p, x + y, r);
    FeedAppend(p, x, y);
    assert FeedAll(p, x) == p.(pendingX := tx);
    assert FeedAll(p.(pendingX := tx), y) == p.(pendingX := tx, pendingY := ty);
  }

  /** Each report moves the pointer, and by no more than 5 units per axis. */
  predicate Small(reports: seq<(int, int)>)
  {
    forall i :: 0 <= i < |reports| ==> reports[i] != (0, 0) && -5 <= reports[i].0 <= 5 && -5 <= reports[i].1 <= 5
  }

  lemma SmallAppend(a: seq<(int, int)>, b: seq<(int, int)>)
    requires Small(a) && Small(b)
    ensures Small(a + b)
  {
  }

  lemma {:induction false} MotionIsRead(p: Pointer, steps: seq<real>, dx: int, dy: int, delta: real)
    returns (reports: seq<(int, int)>)
    requires AtRest(p) && 0.0 < delta && IsLength(delta, dx, dy)
    requires forall i :: 0 <= i < |steps| ==> 0.0 < steps[i] <= FAST_STEP
    ensures var m := Motion(steps, dx, dy, delta);
            FeedAll(p, m) == Pointer(p.x + SumX(m), p.y + SumY(m), 0, 0, p.reports + reports)
    ensures |reports| <= |steps| && Small(reports)
    decreases |steps|
  {
    hide Units, StepEvents, Feed, IsLength, Small;
    if steps == [] {
      NoReports();
      assert p.reports + [] == p.reports;
      return [];
    }
    var tx, ty := Units(steps[0], dx, delta), Units(steps[0], dy, delta);
    var first, others := StepEvents(tx, ty), Motion(steps[1..], dx, dy, delta);
    var report := StepReport(p, steps[0], dx, dy, delta);
    FeedAppend(p, first, others);
    SumsAppend(first, others);
    StepEventsSum(tx, ty);
    var later := MotionIsRead(FeedAll(p, first), steps[1..], dx, dy, delta);
    reports := report + later;
    SmallAppend(report, later);
    Regroup(p.reports, report, later);
  }

  lemma NoReports()
    ensures Small([])
  {
  }

  lemma StepReport(p: Pointer, step: real, dx: int, dy: int, delta: real) returns (report: seq<(int, int)>)
    requires AtRest(p) && 0.0 < delta && IsLength(delta, dx, dy) && 0.0 < step <= FAST_STEP
    ensures var tx, ty := Units(step, dx, delta), Units(step, dy, delta);
            FeedAll(p, StepEvents(tx, ty)) == Pointer(p.x + tx, p.y + ty, 0, 0, p.reports + report)
    ensures |report| <= 1 && Small(report)
  {
    hide Units, IsLength, StepEvents, Feed;
    var tx, ty := Units(step, dx, delta), Units(step, dy, delta);
    LengthSwaps(delta, dx, dy);
    UnitsBounded(step, dx, dy, delta);
    UnitsBounded(step, dy, dx, delta);
    StepIsRead(p, tx, ty);
    report := if tx == 0 && ty == 0 then [] else [(tx, ty)];
    assert p.reports + [] == p.reports;
  }

  lemma LengthSwaps(delta: real, dx: int, dy: int)
    requires IsLength(delta, dx, dy)
    ensures IsLength(delta, dy, dx)
  {
  }

  /**
   * What a reader sees of a move: the pointer has moved by the sums of the motions sent, nothing is left pending, and it
   * got there in at most one report per step, each of which moves it, and by no more than 5 units per axis.
   */
  lemma MoveIsRead(x: int, y: int, before: seq<(int, int)>, dx: int, dy: int, delta: real) returns (reports: seq<(int, int)>)
    requires IsLength(delta, dx, dy)
    ensures var m := MoveEvents(dx, dy, delta);
            FeedAll(Pointer(x, y, 0, 0, before), m) == Pointer(x + SumX(m), y + SumY(m), 0, 0, before + reports)
    ensures |reports| <= Ceil(Budget(delta) / FAST_STEP) && Small(reports)
  {
    hide Motion, Steps, Units, Feed;
    if delta < STEP_UNIT {
      BudgetNotNegative(delta);
      assert before + [] == before;
      reports := [];
    } else {
      StepsSpendBudget(Budget(delta));
      var steps := Steps(Budget(delta));
      assert forall i :: 0 <= i < |steps| ==> steps[i] in steps;
      reports := MotionIsRead(Pointer(x, y, 0, 0, before), steps, dx, dy, delta);
    }
  }

  lemma BudgetNotNegative(delta: real)
    requires 0.0 <= delta
    ensures 0 <= Ceil(Budget(delta) / FAST_STEP)
  {
    if delta > 0.0 {
      StepCount(Budget(delta));
    }
  }

  // ----- Where it ends up exactly -----

  /**
   * How far a budget of `total` takes an axis: as many rounded full steps as are followed by another full one, and two
   * rounded halves of what is left.
   */
  function Travel(total: real, d: int, delta: real): int
    requires 0.0 < delta
  {
    if total <= FAST_STEP then Units(total, d, delta)
    else
      var n := Ceil(total / FAST_STEP);
      (n - 2) * Units(FAST_STEP, d, delta) + 2 * Units((total - FAST_STEP * (n - 2) as real) / 2.0, d, delta)
  }

  /** A full step takes the first of the rounded full steps off. */
  lemma TravelUnfold(total: real, d: int, delta: real)
    requires 0.0 < total && 0.0 < delta
    ensures total > FAST_STEP ==> total - StepOf(total) > 0.0
    ensures Travel(total, d, delta) ==
            Units(StepOf(total), d, delta) + if total <= FAST_STEP then 0 else Travel(total - StepOf(total), d, delta)
  {
    hide Units;
    StepCount(total);
    var n := Ceil(total / FAST_STEP);
    if 5.0 < total < 10.0 {
      assert n == 2 by {
        assert 1.0 < total / FAST_STEP < 2.0;
      }
      assert FAST_STEP * 0 as real == 0.0;
    } else if total == 10.0 {
      assert n == 2;
    } else if total > 10.0 {
      assert Ceil((total - FAST_STEP) / FAST_STEP) == n - 1;
      assert total - FAST_STEP - FAST_STEP * (n - 3) as real == total - FAST_STEP * (n - 2) as real;
      var u := Units(FAST_STEP, d, delta);
      assert (n - 2) * u == u + (n - 3) * u;
    }
  }

  /** The sums of all relative motions, in every direction and for every budget. */
  lemma {:induction false} MotionTravels(total: real, dx: int, dy: int, delta: real)
    requires 0.0 < total && 0.0 < delta
    ensures SumX(Motion(Steps(total), dx, dy, delta)) == Travel(total, dx, delta)
    ensures SumY(Motion(Steps(total), dx, dy, delta)) == Travel(total, dy, delta)
    decreases Ceil(total / FAST_STEP)
  {
    hide Motion, Steps, Travel, Units, StepEvents, Ceil;
    var step := StepOf(total);
    StepCount(total);
    MotionUnfold(total, dx, dy, delta);
    TravelUnfold(total, dx, delta);
    TravelUnfold(total, dy, delta);
    var tx, ty := Units(step, dx, delta), Units(step, dy, delta);
    StepEventsSum(tx, ty);
    SumsAppend(StepEvents(tx, ty), Motion(Steps(total - step), dx, dy, delta));
    if total > FAST_STEP {
      MotionTravels(total - step, dx, dy, delta);
    } else {
      NoBudgetNoMotion(dx, dy, delta);
    }
  }

  /**
   * When a move arrives, in every direction and at every length: if and only if on both axes the rounded full steps and
   * the two rounded last steps add up to the displacement. All of it can be computed before the call.
   */
  lemma MoveArrivesIff(dx: int, dy: int, delta: real)
    requires IsLength(delta, dx, dy)
    ensures var m := MoveEvents(dx, dy, delta);
            SumX(m) == dx && SumY(m) == dy <==>
            delta < STEP_UNIT || (Travel(Budget(delta), dx, delta) == dx && Travel(Budget(delta), dy, delta) == dy)
  {
    hide Motion, Steps, Travel;
    if delta < STEP_UNIT {
      ShortMoveIsNone(dx, dy, delta);
    } else {
      MotionTravels(Budget(delta), dx, dy, delta);
    }
  }

  lemma ShortMoveIsNone(dx: int, dy: int, delta: real)
    requires IsLength(delta, dx, dy) && delta < STEP_UNIT
    ensures dx == 0 && dy == 0
  {
    RealSquareOrder(STEP_UNIT, delta);
    assert dx * dx + dy * dy < 1;
    SquarePositive(dx);
    SquarePositive(dy);
  }

  lemma SquarePositive(d: int)
    ensures d * d >= 0 && (d != 0 ==> d * d >= 1)
  {
  }

  // ----- Along an axis -----

  function Signed(sign: int, n: int): int
  {
    if sign < 0 then -n else n
  }

  function Magnitude(d: int): nat
  {
    if d < 0 then -d else d
  }

  lemma RoundHalf(n: nat)
    ensures Round(n as real / 2.0) == (n + 1) / 2
  {
  }

  lemma CancelLength(step: real, delta: real)
    requires 0.0 < delta
    ensures step * delta / delta == step
  {
  }

  lemma AxisIdeal(step: real, d: int)
    requires d != 0
    ensures Ideal(step, d, Magnitude(d) as real) == if d < 0 then -step else step
    ensures Ideal(step, 0, Magnitude(d) as real) == 0.0
  {
    var delta := Magnitude(d) as real;
    CancelLength(step, delta);
    CancelLength(-step, delta);
    assert step * -delta == -step * delta;
    assert step * 0 as real == 0.0;
  }

  lemma AxisUnits(step: real, d: int)
    requires d != 0 && 0.0 <= step
    ensures Units(step, d, Magnitude(d) as real) == Signed(d, Round(step))
    ensures Units(step, 0, Magnitude(d) as real) == 0
  {
    hide Ideal;
    AxisIdeal(step, d);
  }

  /** The whole number of steps in a whole budget. */
  lemma WholeSteps(n: nat)
    ensures Ceil(n as real / FAST_STEP) == (n + 4) / 5
  {
    var k := (n + 4) / 5;
    assert 5 * (k - 1) < n <= 5 * k;
    assert (k - 1) as real < n as real / FAST_STEP <= k as real;
  }

  /** A whole budget along an axis: two halves of an odd rest of 7 or 9 are both rounded up. */
  lemma AxisTravel(n: nat, d: int)
    requires d != 0 && 0 < n
    ensures Travel(n as real, d, Magnitude(d) as real) == Signed(d, n + if n > 5 && n % 5 in {2, 4} then 1 else 0)
    ensures Travel(n as real, 0, Magnitude(d) as real) == 0
  {
    hide Units, Round, Ceil;
    var k := (n + 4) / 5;
    if n <= 5 {
      AxisUnits(n as real, d);
      RoundInteger(n);
    } else {
      WholeSteps(n);
      var rest := n - 5 * (k - 2);
      WholeRest(n, k - 2);
      AxisUnits(FAST_STEP, d);
      RoundInteger(5);
      AxisUnits(rest as real / 2.0, d);
      RoundHalf(rest);
      SignedSum(d, k - 2, (rest + 1) / 2);
    }
  }

  lemma WholeRest(n: nat, k: nat)
    ensures (n as real - FAST_STEP * k as real) / 2.0 == (n - 5 * k) as real / 2.0
  {
  }

  lemma SignedSum(sign: int, k: int, half: int)
    ensures k * Signed(sign, 5) + 2 * Signed(sign, half) == Signed(sign, 5 * k + 2 * half)
    ensures k * 0 + 2 * 0 == 0
  {
  }

  /**
   * Even a move along an axis does not always arrive: it does if and only if its length is at most 5, or at most 5000 and
   * 0, 1 or 3 modulo 5. A shorter one that misses overshoots by one unit; a longer one stops after 5000.
   */
  lemma AxisMoveExactIff(d: int)
    requires d != 0
    ensures var n := Magnitude(d);
            var arrives := n <= 5 || (n <= 5000 && n % 5 in {0, 1, 3});
            var end := if n > 5000 then Signed(d, 5000) else if arrives then d else d + Signed(d, 1);
            var across, down := MoveEvents(d, 0, n as real), MoveEvents(0, d, n as real);
            && SumX(across) == end && SumY(across) == 0 && SumX(down) == 0 && SumY(down) == end
            && (end == d <==> arrives)
  {
    hide Motion, Steps, Travel;
    var delta := Magnitude(d) as real;
    MotionTravels(Budget(delta), d, 0, delta);
    MotionTravels(Budget(delta), 0, d, delta);
    AxisTravel(if Magnitude(d) > 5000 then 5000 else Magnitude(d), d);
  }
}
