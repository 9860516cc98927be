// Samples on their way from the sensor's threads to the algorithm thread: a locked list and a semaphore.
module SensorHandOff {
  import opened Posture

  /** The consumer is at `sem_wait`; or past it and about to pop; or holds a sample and is about to notify. */
  datatype Consumer = AtWait | Woken | Holding(sample: Accel)

  /**
   * An algorithm in the callback map, with its machine and whether a callback is registered. `since` counts the samples
   * handed on before it subscribed, and `heard` is the history of what it was given since, and whether it could report.
   */
  datatype Algo = Algo(machine: Machine, hasCallback: bool, since: nat, heard: seq<Input>)

  /**
   * `pushed` counts producers between the push and the `sem_post`. `accepted` and `notified` are histories: the samples
   * pushed, and those handed to the callback map, which is `algos`.
   */
  datatype HandOff = HandOff(
    list: seq<Accel>, sem: nat, pushed: nat, consumer: Consumer,
    accepted: seq<Accel>, notified: seq<Accel>, algos: map<Kind, Algo>)

  const INITIAL: HandOff := HandOff([], 0, 0, AtWait, [], [], map[])

  /** `Interrupt` is a `sem_wait` that returns without having taken a count; the loop does not look at its result. */
  datatype Action =
    | Push(sample: Accel)
    | Post
    | Wait
    | Interrupt
    | Pop
    | Notify
    | Subscribe(kind: Kind)                    // a new algorithm enters the callback map, unless there is one of its kind
    | Unsubscribe(kind: Kind)
    | RegisterCallback(kind: Kind, present: bool)

  predicate Enabled(s: HandOff, a: Action)
  {
    match a
    case Push(sample) => Valid(sample)
    case Post => s.pushed > 0
    case Wait => s.consumer == AtWait && s.sem > 0
    case Interrupt => s.consumer == AtWait
    case Pop => s.consumer == Woken
    case Notify => s.consumer.Holding?
    case RegisterCallback(kind, _) => kind in s.algos
    case _ => true
  }

  /** The list accepts exactly the samples within the sensor's range, at any time. */
  lemma AcceptsIffInRange(s: HandOff, sample: Accel)
    ensures Enabled(s, Push(sample)) <==>
            -160.0 <= sample.x <= 160.0 && -160.0 <= sample.y <= 160.0 && -160.0 <= sample.z <= 160.0
  {
  }

  function ClassOf(kind: Kind, angles: Accel -> Angles, sample: Accel): Class
  {
    Classify(kind, DeviceAxes(sample), angles)
  }

  /** One algorithm is given one sample. */
  function Hear(kind: Kind, angles: Accel -> Angles, a: Algo, sample: Accel): Algo
  {
    var c := ClassOf(kind, angles, sample);
    a.(machine := Step(a.machine, c, a.hasCallback), heard := a.heard + [Input(c, a.hasCallback)])
  }

  function Apply(angles: Accel -> Angles, s: HandOff, a: Action): HandOff
    requires Enabled(s, a)
  {
    match a
    case Push(sample) => s.(list := s.list + [sample], accepted := s.accepted + [sample], pushed := s.pushed + 1)
    case Post => s.(sem := s.sem + 1, pushed := s.pushed - 1)
    case Wait => s.(sem := s.sem - 1, consumer := Woken)
    case Interrupt => s.(consumer := Woken)
    case Pop => if s.list == [] then s.(consumer := AtWait) else s.(list := s.list[1..], consumer := Holding(s.list[0]))
    case Notify =>
      s.(consumer := AtWait, notified := s.notified + [s.consumer.sample],
         algos := map kind | kind in s.algos :: Hear(kind, angles, s.algos[kind], s.consumer.sample))
    case Subscribe(kind) =>
      if kind in s.algos then s else s.(algos := s.algos[kind := Algo(START, false, |s.notified|, [])])
    case Unsubscribe(kind) => s.(algos := s.algos - {kind})
    case RegisterCallback(kind, present) => s.(algos := s.algos[kind := s.algos[kind].(hasCallback := present)])
  }

  ghost predicate Reaches(angles: Accel -> Angles, from: HandOff, actions: seq<Action>, s: HandOff)
    decreases |actions|
  {
    if actions == [] then s == from
    else Enabled(from, actions[0]) && Reaches(angles, Apply(angles, from, actions[0]), actions[1..], s)
  }

  function InHand(c: Consumer): seq<Accel>
  {
    if c.Holding? then [c.sample] else []
  }

  function Classes(kind: Kind, angles: Accel -> Angles, samples: seq<Accel>): seq<Class>
  {
    seq(|samples|, i requires 0 <= i < |samples| => ClassOf(kind, angles, samples[i]))
  }

  // ----- The hand-off -----

  predicate Lossless(s: HandOff)
  {
    && s.notified + InHand(s.consumer) + s.list == s.accepted
    && |s.list| <= s.sem + s.pushed + (if s.consumer == Woken then 1 else 0)
  }

  predicate Balanced(s: HandOff)
  {
    |s.list| == s.sem + s.pushed + (if s.consumer == Woken then 1 else 0)
  }

  lemma LosslessStep(angles: Accel -> Angles, s: HandOff, a: Action)
    requires Enabled(s, a) && Lossless(s)
    ensures Lossless(Apply(angles, s, a))
    ensures Balanced(s) && a != Interrupt ==> Balanced(Apply(angles, s, a))
  {
    match a
    case Push(sample) =>
      assert s.notified + InHand(s.consumer) + (s.list + [sample]) == s.accepted + [sample];
    case Pop =>
      if s.list != [] {
        assert [s.list[0]] + s.list[1..] == s.list;
        assert s.notified + [] + ([s.list[0]] + s.list[1..]) == s.notified + [s.list[0]] + s.list[1..];
      }
    case Notify =>
      assert Apply(angles, s, a).notified + [] + s.list == s.accepted;
    case _ =>
  }

  lemma {:induction false} LosslessRun(angles: Accel -> Angles, from: HandOff, actions: seq<Action>, s: HandOff)
    requires Lossless(from) && Reaches(angles, from, actions, s)
    ensures Lossless(s)
    ensures Balanced(from) && Interrupt !in actions ==> Balanced(s)
    decreases |actions|
  {
    hide Lossless, Balanced, Apply, Enabled;
    if actions != [] {
      LosslessStep(angles, from, actions[0]);
      LosslessRun(angles, Apply(angles, from, actions[0]), actions[1..], s);
    }
  }

  /**
   * The hand-off is a lossless queue: samples handed on, in hand and in the list are always the accepted ones in order.
   * Unless `sem_wait` is interrupted, the list's length is what the semaphore and the threads between steps say, so a
   * woken consumer always finds a sample.
   */
  lemma HandOffIsFifo(angles: Accel -> Angles, actions: seq<Action>, s: HandOff)
    requires Reaches(angles, INITIAL, actions, s)
    ensures s.notified + InHand(s.consumer) + s.list == s.accepted
    ensures Interrupt !in actions ==> |s.list| == s.sem + s.pushed + (if s.consumer == Woken then 1 else 0)
    ensures Interrupt !in actions && s.consumer == Woken ==> s.list != []
  {
    assert Lossless(INITIAL) && Balanced(INITIAL);
    LosslessRun(angles, INITIAL, actions, s);
  }

  // ----- Progress -----

  /** A bound on the steps that producers about to post and the consumer can take without a new sample. */
  function Work(s: HandOff): nat
  {
    4 * s.pushed + 3 * s.sem + if s.consumer == AtWait then 0 else if s.consumer == Woken then 2 else 1
  }

  predicate Settling(a: Action)
  {
    a in {Post, Wait, Pop, Notify}
  }

  lemma CanSettle(s: HandOff) returns (a: Action)
    requires !(s.sem == 0 && s.pushed == 0 && s.consumer == AtWait)
    ensures Settling(a) && Enabled(s, a)
  {
    a := if s.consumer == Woken then Pop else if s.consumer.Holding? then Notify else if s.sem > 0 then Wait else Post;
  }

  lemma SettlingStep(angles: Accel -> Angles, s: HandOff, a: Action)
    requires Enabled(s, a) && Settling(a)
    ensures Work(Apply(angles, s, a)) < Work(s) && Apply(angles, s, a).accepted == s.accepted
  {
  }

  /**
   * Every sample gets through: from every reachable state, posts that are due and steps of the consumer, and nothing else,
   * lead to a state in which all accepted samples have been handed on.
   */
  lemma {:induction false} SamplesGetThrough(angles: Accel -> Angles, s: HandOff) returns (actions: seq<Action>, s': HandOff)
    requires Lossless(s)
    ensures Reaches(angles, s, actions, s') && forall a <- actions :: Settling(a)
    ensures s'.accepted == s.accepted && s'.notified == s'.accepted && s'.list == [] && s'.consumer == AtWait
    decreases Work(s)
  {
    hide Apply, Enabled, Settling, Work;
    if s.sem == 0 && s.pushed == 0 && s.consumer == AtWait {
      assert s.notified + [] + [] == s.notified;
      return [], s;
    }
    var a := CanSettle(s);
    SettlingStep(angles, s, a);
    LosslessStep(angles, s, a);
    var others;
    others, s' := SamplesGetThrough(angles, Apply(angles, s, a));
    actions := [a] + others;
    assert actions[1..] == others;
  }

  lemma ReachableIsLossless(angles: Accel -> Angles, actions: seq<Action>, s: HandOff)
    requires Reaches(angles, INITIAL, actions, s)
    ensures Lossless(s)
  {
    LosslessRun(angles, INITIAL, actions, s);
  }

  // ----- The callback map -----

  /** An algorithm has been given exactly the samples handed on since it subscribed, and its machine shows it. */
  predicate Informed(kind: Kind, angles: Accel -> Angles, notified: seq<Accel>, a: Algo)
  {
    && |notified| == a.since + |a.heard|
    && (forall i :: 0 <= i < |a.heard| ==> a.heard[i].sample == ClassOf(kind, angles, notified[a.since + i]))
    && a.machine == RunInputs(a.heard)
  }

  predicate AllInformed(angles: Accel -> Angles, s: HandOff)
  {
    forall kind <- s.algos :: Informed(kind, angles, s.notified, s.algos[kind])
  }

  lemma HearInformed(kind: Kind, angles: Accel -> Angles, notified: seq<Accel>, a: Algo, sample: Accel)
    requires Informed(kind, angles, notified, a)
    ensures Informed(kind, angles, notified + [sample], Hear(kind, angles, a, sample))
  {
    hide Step, Classify;
    var heard := Hear(kind, angles, a, sample).heard;
    assert heard[..|heard| - 1] == a.heard;
  }

  lemma AllInformedStep(angles: Accel -> Angles, s: HandOff, a: Action)
    requires Enabled(s, a) && AllInformed(angles, s)
    ensures AllInformed(angles, Apply(angles, s, a))
  {
    if a.Notify? {
      hide Informed, Hear;
      forall kind <- s.algos
        ensures Informed(kind, angles, s.notified + [s.consumer.sample], Hear(kind, angles, s.algos[kind], s.consumer.sample))
      {
        HearInformed(kind, angles, s.notified, s.algos[kind], s.consumer.sample);
      }
    }
  }

  lemma {:induction false} AllInformedRun(angles: Accel -> Angles, from: HandOff, actions: seq<Action>, s: HandOff)
    requires AllInformed(angles, from) && Reaches(angles, from, actions, s)
    ensures AllInformed(angles, s)
    decreases |actions|
  {
    hide AllInformed, Apply, Enabled;
    if actions != [] {
      AllInformedStep(angles, from, actions[0]);
      AllInformedRun(angles, Apply(angles, from, actions[0]), actions[1..], s);
    }
  }

  /** With a callback registered all along, the two ways of running a machine agree. */
  lemma {:induction false} RunOfInputs(inputs: seq<Input>, classes: seq<Class>)
    requires |inputs| == |classes|
    requires forall i :: 0 <= i < |inputs| ==> inputs[i] == Input(classes[i], true)
    ensures RunInputs(inputs) == Run(classes)
    decreases |inputs|
  {
    if inputs != [] {
      RunOfInputs(inputs[..|inputs| - 1], classes[..|classes| - 1]);
    }
  }

  /**
   * From sensor to report, in every reachable state, interrupted waits and any coming and going of algorithms and
   * callbacks included. Every subscribed algorithm has been given exactly the samples handed on since it subscribed; its
   * state is a function of them and of when it had a callback, and its reports alternate; and while it has had a callback
   * for all of them, its reports are a function of the samples.
   */
  lemma ReportsAreHistory(angles: Accel -> Angles, actions: seq<Action>, s: HandOff, kind: Kind)
    requires Reaches(angles, INITIAL, actions, s) && kind in s.algos
    ensures var a := s.algos[kind];
            && a.since <= |s.notified| && Alternating(a.machine.reports)
            && (a.machine.state == Entered <==> HasEntered(a.heard)) && (a.machine.state == Exited <==> HasLeft(a.heard))
            && var h := Classes(kind, angles, s.notified[a.since..]);
            && |a.heard| == |h| && (forall i :: 0 <= i < |h| ==> a.heard[i].sample == h[i])
            && ((forall i :: 0 <= i < |h| ==> a.heard[i].hasCallback) ==>
                  a.machine.state == StateAfter(h) && a.machine.reports == ReportsAfter(h))
  {
    hide HasEntered, HasLeft, Alternating, StateAfter, ReportsAfter, Run, RunInputs;
    AllInformedRun(angles, INITIAL, actions, s);
    var a := s.algos[kind];
    assert Informed(kind, angles, s.notified, a);
    var h := Classes(kind, angles, s.notified[a.since..]);
    ReportsAlternate(a.heard);
    RunInputsIsHistory(a.heard);
    if forall i :: 0 <= i < |h| ==> a.heard[i].hasCallback {
      RunOfInputs(a.heard, h);
      RunIsHistory(h);
    }
  }

  /** `states` are the states that `actions` lead through from the start. */
  ghost predicate IsRun(angles: Accel -> Angles, actions: seq<Action>, states: seq<HandOff>)
  {
    && |states| == |actions| + 1 && states[0] == INITIAL
    && forall i :: 0 <= i < |actions| ==>
         Enabled(states[i], actions[i]) && states[i + 1] == Apply(angles, states[i], actions[i])
  }

  /** The last registration for `kind` before position `n`, since it last subscribed or unsubscribed, set a callback. */
  ghost predicate CallbackSet(actions: seq<Action>, n: nat, kind: Kind)
    requires n <= |actions|
  {
    exists q: nat :: q < n && actions[q] == RegisterCallback(kind, true) && Untouched(actions, q, n, kind)
  }

  predicate Untouched(actions: seq<Action>, q: nat, n: nat, kind: Kind)
    requires n <= |actions|
  {
    forall k :: q < k < n ==>
      actions[k] != RegisterCallback(kind, false) && actions[k] != Unsubscribe(kind)
  }

  /** The algorithm of `kind` subscribed before position `n`, and has not unsubscribed since. */
  ghost predicate SubscribedSince(actions: seq<Action>, n: nat, kind: Kind)
    requires n <= |actions|
  {
    exists q: nat :: q < n && actions[q] == Subscribe(kind) && Stays(actions, q, n, kind)
  }

  predicate Stays(actions: seq<Action>, q: nat, n: nat, kind: Kind)
    requires n <= |actions|
  {
    forall k :: q < k < n ==> actions[k] != Unsubscribe(kind)
  }

  lemma MapStep(angles: Accel -> Angles, s: HandOff, a: Action, kind: Kind)
    requires Enabled(s, a)
    ensures var s' := Apply(angles, s, a);
            && (kind in s'.algos <==> a == Subscribe(kind) || (kind in s.algos && a != Unsubscribe(kind)))
            && (kind in s'.algos && s'.algos[kind].hasCallback <==>
                a == RegisterCallback(kind, true) ||
                (kind in s.algos && s.algos[kind].hasCallback && a != RegisterCallback(kind, false) && a != Unsubscribe(kind)))
  {
    hide Step, ClassOf;
  }

  /**
   * The callback map at any position of any run: the algorithms that subscribed and did not unsubscribe since; and one of
   * them has a callback if and only if the last registration for it, since it subscribed, set one.
   */
  lemma {:induction false} MapIsHistory(angles: Accel -> Angles, actions: seq<Action>, states: seq<HandOff>, n: nat, kind: Kind)
    requires IsRun(angles, actions, states) && n <= |actions|
    ensures kind in states[n].algos <==> SubscribedSince(actions, n, kind)
    ensures kind in states[n].algos && states[n].algos[kind].hasCallback <==> CallbackSet(actions, n, kind)
    decreases n
  {
    hide Apply, Enabled;
    if n > 0 {
      var m := n - 1;
      MapIsHistory(angles, actions, states, m, kind);
      MapStep(angles, states[m], actions[m], kind);
      SubscriptionStep(actions, m, kind);
      CallbackStep(actions, m, kind);
    }
  }

  lemma SubscriptionStep(actions: seq<Action>, m: nat, kind: Kind)
    requires m < |actions|
    ensures SubscribedSince(actions, m + 1, kind) <==>
            actions[m] == Subscribe(kind) || (SubscribedSince(actions, m, kind) && actions[m] != Unsubscribe(kind))
  {
    if SubscribedSince(actions, m, kind) && actions[m] != Unsubscribe(kind) {
      var q: nat :| q < m && actions[q] == Subscribe(kind) && Stays(actions, q, m, kind);
      assert Stays(actions, q, m + 1, kind);
    }
    assert Stays(actions, m, m + 1, kind);
    if SubscribedSince(actions, m + 1, kind) {
      var q: nat :| q < m + 1 && actions[q] == Subscribe(kind) && Stays(actions, q, m + 1, kind);
      assert q < m ==> Stays(actions, q, m, kind);
    }
  }

  lemma CallbackStep(actions: seq<Action>, m: nat, kind: Kind)
    requires m < |actions|
    ensures CallbackSet(actions, m + 1, kind) <==>
            || actions[m] == RegisterCallback(kind, true)
            || (CallbackSet(actions, m, kind) && actions[m] != RegisterCallback(kind, false) && actions[m] != Unsubscribe(kind))
  {
    if CallbackSet(actions, m, kind) && actions[m] != RegisterCallback(kind, false) && actions[m] != Unsubscribe(kind) {
      var q: nat :| q < m && actions[q] == RegisterCallback(kind, true) && Untouched(actions, q, m, kind);
      assert Untouched(actions, q, m + 1, kind);
    }
    assert Untouched(actions, m, m + 1, kind);
    if CallbackSet(actions, m + 1, kind) {
      var q: nat :| q < m + 1 && actions[q] == RegisterCallback(kind, true) && Untouched(actions, q, m + 1, kind);
      assert q < m ==> Untouched(actions, q, m, kind);
    }
  }

  /** What an algorithm hears when a sample is handed on: its class, and whether a callback is set by the history so far. */
  lemma HeardWithCallback(angles: Accel -> Angles, actions: seq<Action>, states: seq<HandOff>, n: nat, kind: Kind)
    requires IsRun(angles, actions, states) && n < |actions| && actions[n] == Notify && SubscribedSince(actions, n, kind)
    ensures states[n].consumer.Holding? && kind in states[n].algos && kind in states[n + 1].algos
    ensures var sample := states[n].consumer.sample;
            var c := Classify(kind, Accel(sample.y, sample.x, -sample.z), angles);
            states[n + 1].algos[kind].heard ==
            states[n].algos[kind].heard + [Input(c, CallbackSet(actions, n, kind))]
  {
    MapIsHistory(angles, actions, states, n, kind);
  }

  /** Once the pipeline is at rest, the samples handed on are all that were ever accepted. */
  lemma AtRestAllNotified(angles: Accel -> Angles, actions: seq<Action>, s: HandOff)
    requires Reaches(angles, INITIAL, actions, s) && s.sem == 0 && s.pushed == 0 && s.consumer == AtWait
    ensures s.notified == s.accepted
  {
    LosslessRun(angles, INITIAL, actions, s);
    assert s.notified + [] + [] == s.notified;
  }
}
