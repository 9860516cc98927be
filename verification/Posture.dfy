// Posture detection: an acceleration sample is classified, and a debounced state machine reports entering and leaving
// the posture. One machine serves the three postures, which differ only in how they classify.
module Posture {
  import opened Reals

  const COUNTER_THRESHOLD: int := 5
  const ACC_VALID_THRHD: real := 160.0
  const JUDGE_FLOAT: real := 0.000001

  datatype Accel = Accel(x: real, y: real, z: real)
  datatype Angles = Angles(pitch: real, roll: real)
  datatype Kind = AbsoluteStill | Horizontal | Vertical

  predicate Valid(a: Accel)
  {
    AbsReal(a.x) <= ACC_VALID_THRHD && AbsReal(a.y) <= ACC_VALID_THRHD && AbsReal(a.z) <= ACC_VALID_THRHD
  }

  /** `SetData` swaps the axes of the sensor into those of the device. */
  function DeviceAxes(a: Accel): Accel
  {
    Accel(a.y, a.x, -a.z)
  }

  datatype Class = In | Out | Skipped

  predicate Strictly(low: real, v: real, high: real)
  {
    low < v < high
  }

  /**
   * The class of a sample in device axes. The root in the still posture's resultant is compared by its square; `angles`
   * stands for the two arc tangents.
   */
  function Classify(kind: Kind, a: Accel, angles: Accel -> Angles): Class
  {
    var p, r := AbsReal(angles(a).pitch), AbsReal(angles(a).roll);
    match kind
    case AbsoluteStill =>
      if Strictly(49.0, a.x * a.x + a.y * a.y + a.z * a.z, 121.0) then In else Out
    case Horizontal =>
      if (Strictly(160.0, p, 180.1) && Strictly(160.0, r, 180.1)) || (Strictly(0.0, p, 5.0) && Strictly(0.0, r, 5.0))
      then In else Out
    case Vertical =>
      if AbsReal(a.y) <= JUDGE_FLOAT && AbsReal(a.z) <= JUDGE_FLOAT then Skipped
      else if Strictly(80.0, p, 110.0) || Strictly(80.0, r, 110.0) then In else Out
  }

  /** The still posture in the source's own terms: the resultant acceleration lies strictly between 7 and 11. */
  lemma StillByResultant(a: Accel, resultant: real, angles: Accel -> Angles)
    requires 0.0 <= resultant && resultant * resultant == a.x * a.x + a.y * a.y + a.z * a.z
    ensures Classify(AbsoluteStill, a, angles) == In <==> 7.0 < resultant < 11.0
  {
    RealSquareOrder(resultant, 7.0);
    RealSquareOrder(11.0, resultant);
  }

  /** An angle near zero, as of a device that lies on its back. */
  predicate FaceUp(angle: real)
  {
    angle != 0.0 && -5.0 < angle < 5.0
  }

  /** An angle near a half turn, as of a device that lies on its face. */
  predicate FaceDown(angle: real)
  {
    160.0 < angle < 180.1 || -180.1 < angle < -160.0
  }

  /** Lying flat takes both angles, and both must say the same side: one of them alone, or one of each, will not do. */
  lemma HorizontalNeedsBoth(a: Accel, angles: Accel -> Angles)
    ensures var pitch, roll := angles(a).pitch, angles(a).roll;
            Classify(Horizontal, a, angles) ==
            if (FaceUp(pitch) && FaceUp(roll)) || (FaceDown(pitch) && FaceDown(roll)) then In else Out
  {
  }

  /** Standing upright takes one angle near a right one; a sample without any force across the screen is passed over. */
  lemma VerticalNeedsOne(a: Accel, angles: Accel -> Angles)
    ensures var upright := (v: real) => 80.0 < v < 110.0 || -110.0 < v < -80.0;
            && (Classify(Vertical, a, angles) == Skipped <==> -0.000001 <= a.y <= 0.000001 && -0.000001 <= a.z <= 0.000001)
            && (Classify(Vertical, a, angles) == In <==>
                  Classify(Vertical, a, angles) != Skipped && (upright(angles(a).pitch) || upright(angles(a).roll)))
  {
  }

  datatype State = Unknown | Entered | Exited
  datatype Report = ReportEnter | ReportExit

  /** `reports` is what the registered callbacks have been told so far. */
  datatype Machine = Machine(state: State, counter: int, reports: seq<Report>)

  const START: Machine := Machine(Unknown, COUNTER_THRESHOLD, [])

  /** `UpdateStateAndReport`: without a callback neither the state changes nor anything is reported. */
  function Update(m: Machine, state: State, report: Report, hasCallback: bool): Machine
  {
    if hasCallback then m.(state := state, reports := m.reports + [report]) else m
  }

  /** `ExecuteOperation`. */
  function Step(m: Machine, c: Class, hasCallback: bool): Machine
  {
    match c
    case Skipped => m
    case In =>
      if m.state == Entered then m
      else if m.counter - 1 == 0 then Update(m.(counter := COUNTER_THRESHOLD), Entered, ReportEnter, hasCallback)
      else m.(counter := m.counter - 1)
    case Out =>
      var reset := m.(counter := COUNTER_THRESHOLD);
      if m.state == Exited then reset else Update(reset, Exited, ReportExit, hasCallback)
  }

  class Algorithm {
    const kind: Kind
    const angles: Accel -> Angles
    var state: State
    var counter: int
    var hasCallback: bool
    var reports: seq<Report>

    function View(): Machine
      reads this
    {
      Machine(state, counter, reports)
    }

    constructor (kind: Kind, angles: Accel -> Angles)
      ensures View() == START && !hasCallback && this.kind == kind && this.angles == angles
    {
      this.kind, this.angles := kind, angles;
      state, counter, hasCallback, reports := Unknown, COUNTER_THRESHOLD, false, [];
    }

    method RegisterCallback(present: bool)
      modifies this`hasCallback
      ensures hasCallback == present
    {
      hasCallback := present;
    }

    method UpdateStateAndReport(value: Report, newState: State)
      modifies this
      ensures View() == Update(old(View()), newState, value, hasCallback) && hasCallback == old(hasCallback)
    {
      if !hasCallback {
        return;
      }
      state := newState;
      reports := reports + [value];
    }

    /** `StartAlgorithm`: samples beyond the sensor's range are dropped, the others drive the machine. */
    method StartAlgorithm(isAccelerometer: bool, data: Accel) returns (ok: bool)
      modifies this
      ensures ok <==> && isAccelerometer && -160.0 <= data.x <= 160.0 && -160.0 <= data.y <= 160.0
                      && -160.0 <= data.z <= 160.0
      ensures hasCallback == old(hasCallback)
      ensures View() ==
              if ok then Step(old(View()), Classify(kind, Accel(data.y, data.x, -data.z), angles), hasCallback)
              else old(View())
    {
      if !isAccelerometer {
        return false;
      }
      if AbsReal(data.x) > ACC_VALID_THRHD || AbsReal(data.y) > ACC_VALID_THRHD || AbsReal(data.z) > ACC_VALID_THRHD {
        return false;
      }
      ExecuteOperation(DeviceAxes(data));
      return true;
    }

    method ExecuteOperation(para: Accel)
      modifies this
      ensures View() == Step(old(View()), Classify(kind, para, angles), hasCallback) && hasCallback == old(hasCallback)
    {
      match Classify(kind, para, angles)
      case Skipped =>
      case In =>
        if state == Entered {
          return;
        }
        counter := counter - 1;
        if counter == 0 {
          counter := COUNTER_THRESHOLD;
          UpdateStateAndReport(ReportEnter, Entered);
        }
      case Out =>
        counter := COUNTER_THRESHOLD;
        if state == Exited {
          return;
        }
        UpdateStateAndReport(ReportExit, Exited);
    }
  }

  // ----- The machine as a function of the sample history -----

  /** The length of the run of in-class samples that ends the history; skipped samples do not count. */
  function TrailingRun(history: seq<Class>): nat
  {
    if history == [] then 0
    else
      match history[|history| - 1]
      case In => TrailingRun(history[..|history| - 1]) + 1
      case Out => 0
      case Skipped => TrailingRun(history[..|history| - 1])
  }

  function StateAfter(history: seq<Class>): State
  {
    if TrailingRun(history) >= COUNTER_THRESHOLD then Entered else if Out in history then Exited else Unknown
  }

  /** One report for each prefix of the history that ends in a change of state. */
  function ReportsAfter(history: seq<Class>): seq<Report>
  {
    if history == [] then []
    else
      var before, state := history[..|history| - 1], StateAfter(history);
      ReportsAfter(before) +
      if state == StateAfter(before) then [] else [if state == Entered then ReportEnter else ReportExit]
  }

  /** The machine fed with a history while a callback is registered. */
  function Run(history: seq<Class>): Machine
  {
    if history == [] then START else Step(Run(history[..|history| - 1]), history[|history| - 1], true)
  }

  /**
   * With a callback registered from the start, the whole machine is a function of the history: entered exactly when the
   * trailing run of in-class samples has reached five, left exactly when it is shorter and some sample was out of class,
   * and one report for each change.
   */
  lemma {:induction false} RunIsHistory(history: seq<Class>)
    ensures var m := Run(history);
            && m.state == StateAfter(history)
            && m.counter == (if m.state == Entered then COUNTER_THRESHOLD else COUNTER_THRESHOLD - TrailingRun(history))
            && m.reports == ReportsAfter(history)
    decreases |history|
  {
    if history != [] {
      var before, last := history[..|history| - 1], history[|history| - 1];
      assert history == before + [last];
      assert Out in history <==> Out in before || last == Out;
      RunIsHistory(before);
    }
  }

  /** The fifth sample in a row enters, the fourth does not, and one sample out of class leaves at once. */
  lemma FiveInARow()
    ensures var four := Step(Step(Step(Step(START, In, true), In, true), In, true), In, true);
            var five := Step(four, In, true);
            && four == Machine(Unknown, 1, []) && five == Machine(Entered, 5, [ReportEnter])
            && Step(five, Out, true) == Machine(Exited, 5, [ReportEnter, ReportExit])
  {
  }

  // ----- Callbacks set and cleared at any time -----

  datatype Input = Input(sample: Class, hasCallback: bool)

  function RunInputs(inputs: seq<Input>): Machine
  {
    if inputs == [] then START
    else
      var last := inputs[|inputs| - 1];
      Step(RunInputs(inputs[..|inputs| - 1]), last.sample, last.hasCallback)
  }

  function Samples(inputs: seq<Input>): seq<Class>
  {
    seq(|inputs|, i requires 0 <= i < |inputs| => inputs[i].sample)
  }

  /** The last input is an in-class sample that completes a run of 5, 10, 15, ... while there is a callback. */
  predicate Enters(inputs: seq<Input>)
  {
    inputs != [] && inputs[|inputs| - 1] == Input(In, true) && TrailingRun(Samples(inputs)) % COUNTER_THRESHOLD == 0
  }

  /** The last input is an out-of-class sample while there is a callback. */
  predicate Leaves(inputs: seq<Input>)
  {
    inputs != [] && inputs[|inputs| - 1] == Input(Out, true)
  }

  /** Some prefix enters, and none after it leaves. */
  predicate HasEntered(inputs: seq<Input>)
  {
    exists i :: 0 <= i <= |inputs| && Enters(inputs[..i]) && forall j :: i < j <= |inputs| ==> !Leaves(inputs[..j])
  }

  /** Some prefix leaves, and none after it enters. */
  predicate HasLeft(inputs: seq<Input>)
  {
    exists i :: 0 <= i <= |inputs| && Leaves(inputs[..i]) && forall j :: i < j <= |inputs| ==> !Enters(inputs[..j])
  }

  lemma Prefixes(inputs: seq<Input>)
    requires inputs != []
    ensures inputs[..|inputs|] == inputs
    ensures forall i :: 0 <= i < |inputs| ==> inputs[..|inputs| - 1][..i] == inputs[..i]
  {
  }

  lemma HasEnteredUnfold(inputs: seq<Input>)
    ensures HasEntered(inputs) <==> inputs != [] && (Enters(inputs) || (HasEntered(inputs[..|inputs| - 1]) && !Leaves(inputs)))
  {
    hide Enters, Leaves;
    var n := |inputs|;
    if n == 0 {
      assert !Enters([]) by {
        NothingEnters();
      }
    } else {
      Prefixes(inputs);
      var before := inputs[..n - 1];
      if Enters(inputs) {
        assert Enters(inputs[..n]);
      } else if HasEntered(before) && !Leaves(inputs) {
        var i :| 0 <= i <= n - 1 && Enters(before[..i]) && forall j :: i < j <= n - 1 ==> !Leaves(before[..j]);
        forall j | i < j <= n ensures !Leaves(inputs[..j]) {
          assert j < n ==> before[..j] == inputs[..j];
        }
        assert Enters(inputs[..i]);
      }
      if HasEntered(inputs) && !Enters(inputs) {
        var i :| 0 <= i <= n && Enters(inputs[..i]) && forall j :: i < j <= n ==> !Leaves(inputs[..j]);
        assert !Leaves(inputs[..n]);
        assert Enters(before[..i]);
        assert forall j :: i < j <= n - 1 ==> before[..j] == inputs[..j];
      }
    }
  }

  lemma HasLeftUnfold(inputs: seq<Input>)
    ensures HasLeft(inputs) <==> inputs != [] && (Leaves(inputs) || (HasLeft(inputs[..|inputs| - 1]) && !Enters(inputs)))
  {
    hide Enters, Leaves;
    var n := |inputs|;
    if n == 0 {
      assert !Leaves([]) by {
        NothingEnters();
      }
    } else {
      Prefixes(inputs);
      var before := inputs[..n - 1];
      if Leaves(inputs) {
        assert Leaves(inputs[..n]);
      } else if HasLeft(before) && !Enters(inputs) {
        var i :| 0 <= i <= n - 1 && Leaves(before[..i]) && forall j :: i < j <= n - 1 ==> !Enters(before[..j]);
        forall j | i < j <= n ensures !Enters(inputs[..j]) {
          assert j < n ==> before[..j] == inputs[..j];
        }
        assert Leaves(inputs[..i]);
      }
      if HasLeft(inputs) && !Leaves(inputs) {
        var i :| 0 <= i <= n && Leaves(inputs[..i]) && forall j :: i < j <= n ==> !Enters(inputs[..j]);
        assert !Enters(inputs[..n]);
        assert Leaves(before[..i]);
        assert forall j :: i < j <= n - 1 ==> before[..j] == inputs[..j];
      }
    }
  }

  lemma NothingEnters()
    ensures !Enters([]) && !Leaves([])
  {
  }

  /**
   * The machine as a function of the history when callbacks come and go: it is in the posture if and only if some sample
   * entered it and none left it since, out of it if and only if some sample left it and none entered it since, and the
   * counter tells the length of the current run modulo five.
   */
  lemma {:induction false} RunInputsIsHistory(inputs: seq<Input>)
    ensures var m := RunInputs(inputs);
            && (m.state == Entered <==> HasEntered(inputs))
            && (m.state == Exited <==> HasLeft(inputs))
            && m.counter == COUNTER_THRESHOLD -
                            if m.state == Entered then 0 else TrailingRun(Samples(inputs)) % COUNTER_THRESHOLD
    decreases |inputs|
  {
    hide HasEntered, HasLeft;
    HasEnteredUnfold(inputs);
    HasLeftUnfold(inputs);
    if inputs != [] {
      var before := inputs[..|inputs| - 1];
      RunInputsIsHistory(before);
      assert Samples(inputs)[..|inputs| - 1] == Samples(before);
      OneMore(TrailingRun(Samples(before)));
    }
  }

  lemma OneMore(n: nat)
    ensures (n + 1) % COUNTER_THRESHOLD ==
            if n % COUNTER_THRESHOLD == COUNTER_THRESHOLD - 1 then 0 else n % COUNTER_THRESHOLD + 1
  {
  }

  predicate Alternating(reports: seq<Report>)
  {
    forall i :: 0 <= i < |reports| - 1 ==> reports[i] != reports[i + 1]
  }

  /** Whenever callbacks come and go, reports alternate, the last one tells the state, and the counter stays in 1..5. */
  lemma {:induction false} ReportsAlternate(inputs: seq<Input>)
    ensures var m := RunInputs(inputs);
            && Alternating(m.reports)
            && 1 <= m.counter <= 5
            && m.state == if m.reports == [] then Unknown else if m.reports[|m.reports| - 1] == ReportEnter then Entered else Exited
    decreases |inputs|
  {
    if inputs != [] {
      ReportsAlternate(inputs[..|inputs| - 1]);
    }
  }
}
