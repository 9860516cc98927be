// Boomerang metadata: a round opens with an accepted NotifyMetadata, and is answered once, by a submission or a timer.
module MetadataRounds {
  import opened Common

  type Callback = nat
  type Bundle = string

  /** One OnNotifyMetadata sent by SubmitMetadata: in which round, to whom, with what. */
  datatype Answer = Answer(round: nat, listener: Callback, metadata: string)

  /**
   * The fields of the manager that these calls touch. `round` counts accepted NotifyMetadata calls, `screenshots` records
   * whom each of them asked for a screenshot, and `answers` what SubmitMetadata has sent; all three are histories.
   */
  datatype Manager = Manager(
    listeners: map<Bundle, set<Callback>>, notifyListener: Option<Callback>, bundleNameCache: map<Callback, Bundle>,
    hasSubmitted: bool, round: nat, screenshots: seq<set<Callback>>, answers: seq<Answer>)

  const INITIAL: Manager := Manager(map[], None, map[], false, 0, [], [])

  predicate Subscribed(m: Manager, bundle: Bundle)
  {
    bundle in m.listeners && m.listeners[bundle] != {}
  }

  /** `NotifyMetadata`: only for a bundle with a subscriber. A cached bundle name is not overwritten. */
  function AfterNotify(m: Manager, bundle: Bundle, callback: Callback): Manager
  {
    if !Subscribed(m, bundle) then m
    else
      m.(notifyListener := Some(callback),
         bundleNameCache := if callback in m.bundleNameCache then m.bundleNameCache else m.bundleNameCache[callback := bundle],
         hasSubmitted := false, round := m.round + 1, screenshots := m.screenshots + [m.listeners[bundle]])
  }

  /** `SubmitMetadata`; `applink` is the bundle the link belongs to, or None when the lookup fails. */
  function AfterSubmit(m: Manager, metadata: string, applink: Option<Bundle>): Manager
  {
    if m.hasSubmitted then m
    else
      var marked := m.(hasSubmitted := true);
      if m.notifyListener.None? then marked
      else
        var listener := m.notifyListener.value;
        var matches := listener in m.bundleNameCache && applink == Some(m.bundleNameCache[listener]);
        marked.(bundleNameCache := m.bundleNameCache - {listener},
                answers := m.answers + [Answer(m.round, listener, if matches then metadata else "")])
  }

  /** `OnRemoteDied`: the callback leaves every subscription, and the round if it is its listener. */
  function AfterDeath(m: Manager, callback: Callback): Manager
  {
    m.(listeners := map b | b in m.listeners :: m.listeners[b] - {callback},
       notifyListener := if m.notifyListener == Some(callback) then None else m.notifyListener)
  }

  // ----- Interleavings -----

  /** A timer thread: started by the NotifyMetadata of its round; it may then find the round submitted, or sleep. */
  datatype Timer = Started | Asleep | Fired

  datatype State = State(manager: Manager, timers: seq<Timer>)

  /** Calls under the manager's mutex, and the two steps of the timer of round `i + 1`. */
  datatype Action =
    | Subscribe(bundle: Bundle, callback: Callback)
    | Unsubscribe(bundle: Bundle, callback: Callback)
    | Notify(bundle: Bundle, callback: Callback)
    | Submit(metadata: string, applink: Option<Bundle>)
    | Decode(callback: Callback)
    | Die(callback: Callback)
    | TimerChecks(i: nat)
    | TimerSubmits(i: nat, applink: Option<Bundle>)

  predicate Enabled(s: State, a: Action)
  {
    match a
    case TimerChecks(i) => i < |s.timers| && s.timers[i] == Started
    case TimerSubmits(i, _) => i < |s.timers| && s.timers[i] == Asleep
    case _ => true
  }

  function Apply(s: State, a: Action): State
    requires Enabled(s, a)
  {
    var m := s.manager;
    match a
    case Subscribe(b, c) =>
      s.(manager := m.(listeners := m.listeners[b := (if b in m.listeners then m.listeners[b] else {}) + {c}]))
    case Unsubscribe(b, c) =>
      if b !in m.listeners then s
      else if m.listeners[b] - {c} == {} && c in m.listeners[b] then s.(manager := m.(listeners := m.listeners - {b}))
      else s.(manager := m.(listeners := m.listeners[b := m.listeners[b] - {c}]))
    case Notify(b, c) =>
      State(AfterNotify(m, b, c), if Subscribed(m, b) then s.timers + [Started] else s.timers)
    case Submit(metadata, applink) => s.(manager := AfterSubmit(m, metadata, applink))
    case Decode(c) => s.(manager := m.(notifyListener := Some(c)))
    case Die(c) => s.(manager := AfterDeath(m, c))
    case TimerChecks(i) => s.(timers := s.timers[i := if m.hasSubmitted then Fired else Asleep])
    case TimerSubmits(i, applink) => State(AfterSubmit(m, "", applink), s.timers[i := Fired])
  }

  const START: State := State(INITIAL, [])

  ghost predicate Reaches(from: State, actions: seq<Action>, s: State)
    decreases |actions|
  {
    if actions == [] then s == from
    else Enabled(from, actions[0]) && Reaches(Apply(from, actions[0]), actions[1..], s)
  }

  // ----- The code -----

  class DeviceStatusManager {
    var boomerangListeners: map<Bundle, set<Callback>>
    var notifyListener: Option<Callback>
    var bundleNameCache: map<Callback, Bundle>
    var hasSubmitted: bool
    ghost var round: nat
    ghost var screenshots: seq<set<Callback>>
    ghost var answers: seq<Answer>
    ghost var timers: seq<Timer>

    ghost function View(): State
      reads this
    {
      State(Manager(boomerangListeners, notifyListener, bundleNameCache, hasSubmitted, round, screenshots, answers), timers)
    }

    constructor ()
      ensures View() == START
    {
      boomerangListeners, notifyListener, bundleNameCache, hasSubmitted := map[], None, map[], false;
      round, screenshots, answers, timers := 0, [], [], [];
    }

    method Subscribe(bundleName: Bundle, callback: Callback)
      modifies this`boomerangListeners
      ensures View() == Apply(old(View()), Action.Subscribe(bundleName, callback))
    {
      if bundleName !in boomerangListeners {
        boomerangListeners := boomerangListeners[bundleName := {callback}];
        assert {} + {callback} == {callback};
      } else {
        boomerangListeners := boomerangListeners[bundleName := boomerangListeners[bundleName] + {callback}];
      }
    }

    /** The last callback of a bundle takes the bundle with it. */
    method Unsubscribe(bundleName: Bundle, callback: Callback)
      modifies this`boomerangListeners
      ensures View() == Apply(old(View()), Action.Unsubscribe(bundleName, callback))
    {
      if bundleName !in boomerangListeners {
        return;
      }
      var present := callback in boomerangListeners[bundleName];
      boomerangListeners := boomerangListeners[bundleName := boomerangListeners[bundleName] - {callback}];
      if present && boomerangListeners[bundleName] == {} {
        boomerangListeners := boomerangListeners - {bundleName};
      }
    }

    method NotifyMetadata(bundleName: Bundle, callback: Callback) returns (ok: bool)
      modifies this
      ensures ok == Subscribed(old(View()).manager, bundleName)
      ensures View() == Apply(old(View()), Notify(bundleName, callback))
    {
      if bundleName !in boomerangListeners {
        return false;
      }
      if boomerangListeners[bundleName] == {} {
        return false;
      }
      screenshots := screenshots + [boomerangListeners[bundleName]];
      notifyListener := Some(callback);
      if callback !in bundleNameCache {
        bundleNameCache := bundleNameCache[callback := bundleName];
      }
      hasSubmitted := false;
      round, timers := round + 1, timers + [Started];
      return true;
    }

    method GetBundleNameByCallback(listener: Callback) returns (r: Option<Bundle>)
      modifies this`bundleNameCache
      ensures r == if listener in old(bundleNameCache) then Some(old(bundleNameCache)[listener]) else None
      ensures bundleNameCache == old(bundleNameCache) - {listener}
    {
      if listener in bundleNameCache {
        r := Some(bundleNameCache[listener]);
        bundleNameCache := bundleNameCache - {listener};
      } else {
        r := None;
      }
    }

    ghost method OnNotifyMetadata(listener: Callback, metadata: string)
      modifies this`answers
      ensures answers == old(answers) + [Answer(round, listener, metadata)]
    {
      answers := answers + [Answer(round, listener, metadata)];
    }

    /** The result says that both bundle names were found, which is not that they are equal. */
    method SubmitMetadata(metadata: string, applink: Option<Bundle>) returns (ok: bool)
      modifies this`hasSubmitted, this`bundleNameCache, this`answers
      ensures View() == Apply(old(View()), Submit(metadata, applink))
      ensures ok <==> && !old(hasSubmitted) && notifyListener.Some? && notifyListener.value in old(bundleNameCache)
                      && applink.Some?
    {
      if hasSubmitted {
        return false;
      }
      hasSubmitted := true;
      if notifyListener == None {
        return false;
      }
      var listener := notifyListener.value;
      var callbackBundleName := GetBundleNameByCallback(listener);
      if callbackBundleName == None {
        OnNotifyMetadata(listener, "");
        return false;
      }
      if applink == None {
        OnNotifyMetadata(listener, "");
        return false;
      }
      if callbackBundleName.value == applink.value {
        OnNotifyMetadata(listener, metadata);
      } else {
        OnNotifyMetadata(listener, "");
      }
      return true;
    }

    /** `TimerTask` of round `i + 1` before it sleeps, without the mutex. */
    method TimerTaskChecks(ghost i: nat) returns (sleeps: bool)
      requires Enabled(View(), TimerChecks(i))
      modifies this`timers
      ensures View() == Apply(old(View()), TimerChecks(i))
      ensures sleeps == !hasSubmitted && timers[i] == if sleeps then Asleep else Fired
    {
      sleeps := !hasSubmitted;
      timers := timers[i := if hasSubmitted then Fired else Asleep];
    }

    /** `TimerTask` of round `i + 1` after it has slept: it submits, whichever round is open by then. */
    method TimerTaskSubmits(ghost i: nat, applink: Option<Bundle>)
      requires Enabled(View(), TimerSubmits(i, applink))
      modifies this
      ensures View() == Apply(old(View()), TimerSubmits(i, applink))
    {
      var _ := SubmitMetadata("", applink);
      timers := timers[i := Fired];
    }

    method OnRemoteDied(remote: Callback)
      modifies this
      ensures View() == Apply(old(View()), Die(remote))
    {
      boomerangListeners := map b | b in boomerangListeners :: boomerangListeners[b] - {remote};
      if notifyListener != None && notifyListener.value == remote {
        notifyListener := None;
      }
    }
  }

  // ----- At most one answer -----

  /** The answers sent in round `n`. */
  function AnswersOf(answers: seq<Answer>, n: nat): nat
  {
    if answers == [] then 0
    else AnswersOf(answers[..|answers| - 1], n) + if answers[|answers| - 1].round == n then 1 else 0
  }

  ghost predicate OnePerRound(s: State)
  {
    var m := s.manager;
    && |s.timers| == m.round
    && (forall n: nat :: AnswersOf(m.answers, n) <= if n > m.round then 0 else 1)
    && (!m.hasSubmitted ==> AnswersOf(m.answers, m.round) == 0)
  }

  lemma SubmitAnswers(m: Manager, metadata: string, applink: Option<Bundle>, n: nat)
    ensures AnswersOf(AfterSubmit(m, metadata, applink).answers, n) ==
            AnswersOf(m.answers, n) + if !m.hasSubmitted && m.notifyListener.Some? && n == m.round then 1 else 0
  {
    var answers := AfterSubmit(m, metadata, applink).answers;
    if |answers| > |m.answers| {
      assert answers[..|answers| - 1] == m.answers;
    }
  }

  lemma OnePerRoundStep(s: State, a: Action)
    requires Enabled(s, a) && OnePerRound(s)
    ensures OnePerRound(Apply(s, a))
  {
    match a
    case Submit(metadata, applink) =>
      forall n: nat ensures AnswersOf(Apply(s, a).manager.answers, n) <= if n > s.manager.round then 0 else 1 {
        SubmitAnswers(s.manager, metadata, applink, n);
      }
    case TimerSubmits(_, applink) =>
      forall n: nat ensures AnswersOf(Apply(s, a).manager.answers, n) <= if n > s.manager.round then 0 else 1 {
        SubmitAnswers(s.manager, "", applink, n);
      }
    case _ =>
  }

  lemma {:induction false} OnePerRoundRun(from: State, actions: seq<Action>, s: State)
    requires OnePerRound(from) && Reaches(from, actions, s)
    ensures OnePerRound(s)
    decreases |actions|
  {
    hide OnePerRound, Apply, Enabled;
    if actions != [] {
      OnePerRoundStep(from, actions[0]);
      OnePerRoundRun(Apply(from, actions[0]), actions[1..], s);
    }
  }

  /** In every interleaving, each round gets at most one answer from SubmitMetadata, and none before it is opened. */
  lemma AnsweredAtMostOnce(actions: seq<Action>, s: State, n: nat)
    requires Reaches(START, actions, s)
    ensures AnswersOf(s.manager.answers, n) <= 1
    ensures n > s.manager.round ==> AnswersOf(s.manager.answers, n) == 0
  {
    OnePerRoundRun(START, actions, s);
  }

  // ----- The timer guarantees an answer -----

  /** No newer round is opened, no image is decoded, and the round's listener does not die. */
  predicate Undisturbed(a: Action, listener: Callback, m: Manager)
  {
    match a
    case Notify(b, _) => !Subscribed(m, b)
    case Decode(_) => false
    case Die(c) => c != listener
    case _ => true
  }

  ghost predicate ReachesUndisturbed(from: State, actions: seq<Action>, s: State, listener: Callback)
    decreases |actions|
  {
    if actions == [] then s == from
    else
      && Enabled(from, actions[0]) && Undisturbed(actions[0], listener, from.manager)
      && ReachesUndisturbed(Apply(from, actions[0]), actions[1..], s, listener)
  }

  /** The round is still `n`, its listener is alive, and it is answered exactly when it is marked as submitted. */
  predicate Pursued(s: State, n: nat, listener: Callback)
  {
    var m := s.manager;
    && m.round == n && 0 < n == |s.timers| && m.notifyListener == Some(listener)
    && AnswersOf(m.answers, n) == (if m.hasSubmitted then 1 else 0)
    && (s.timers[n - 1] == Fired ==> m.hasSubmitted)
    && (forall a <- m.answers :: a.round == n ==> a.listener == listener)
  }

  lemma PursuedStep(s: State, a: Action, n: nat, listener: Callback)
    requires Enabled(s, a) && Undisturbed(a, listener, s.manager) && Pursued(s, n, listener)
    ensures Pursued(Apply(s, a), n, listener)
  {
    match a
    case Submit(metadata, applink) => SubmitAnswers(s.manager, metadata, applink, n);
    case TimerSubmits(_, applink) => SubmitAnswers(s.manager, "", applink, n);
    case _ =>
  }

  lemma {:induction false} PursuedRun(from: State, actions: seq<Action>, s: State, n: nat, listener: Callback)
    requires Pursued(from, n, listener) && ReachesUndisturbed(from, actions, s, listener)
    ensures Pursued(s, n, listener)
    decreases |actions|
  {
    hide Pursued, Apply, Enabled, Undisturbed;
    if actions != [] {
      PursuedStep(from, actions[0], n, listener);
      PursuedRun(Apply(from, actions[0]), actions[1..], s, n, listener);
    }
  }

  lemma {:induction false} NoneOfRound(answers: seq<Answer>, n: nat)
    requires AnswersOf(answers, n) == 0
    ensures forall a <- answers :: a.round != n
    decreases |answers|
  {
    if answers != [] {
      NoneOfRound(answers[..|answers| - 1], n);
    }
  }

  /**
   * A round that is left alone is answered exactly once by the time its timer is through, and by nobody but its own
   * listener: any reachable state, an accepted NotifyMetadata, and then any steps in which no newer round, decode request
   * or death of the listener intervenes.
   */
  lemma TimerGuaranteesAnswer(before: seq<Action>, s0: State, bundle: Bundle, listener: Callback, after: seq<Action>, s: State)
    requires Reaches(START, before, s0) && Subscribed(s0.manager, bundle)
    requires ReachesUndisturbed(Apply(s0, Notify(bundle, listener)), after, s, listener)
    ensures var n := s0.manager.round + 1;
            && n == |s.timers| && AnswersOf(s.manager.answers, n) <= 1
            && (s.timers[n - 1] == Fired ==> AnswersOf(s.manager.answers, n) == 1)
            && (forall a <- s.manager.answers :: a.round == n ==> a.listener == listener)
  {
    OnePerRoundRun(START, before, s0);
    NoneOfRound(s0.manager.answers, s0.manager.round + 1);
    PursuedRun(Apply(s0, Notify(bundle, listener)), after, s, s0.manager.round + 1, listener);
  }

  /** No timer is ever stuck, so nothing but time is needed for a round to be answered. */
  lemma TimerCanStep(s: State, i: nat, link: Option<Bundle>)
    requires i < |s.timers| && s.timers[i] != Fired
    ensures Enabled(s, TimerChecks(i)) || Enabled(s, TimerSubmits(i, link))
  {
  }

  /** Left entirely alone, a round is answered by the two steps of its timer, with the empty string. */
  lemma TimerAnswers(before: seq<Action>, s0: State, bundle: Bundle, listener: Callback) returns (s: State)
    requires Reaches(START, before, s0) && Subscribed(s0.manager, bundle)
    ensures var n := s0.manager.round + 1;
            && Reaches(Apply(s0, Notify(bundle, listener)), [TimerChecks(n - 1), TimerSubmits(n - 1, None)], s)
            && s.manager.answers == s0.manager.answers + [Answer(n, listener, "")]
  {
    OnePerRoundRun(START, before, s0);
    var n := s0.manager.round + 1;
    var s1 := Apply(s0, Notify(bundle, listener));
    var s2 := Apply(s1, TimerChecks(n - 1));
    s := Apply(s2, TimerSubmits(n - 1, None));
    var actions := ReachesVia(s2, TimerSubmits(n - 1, None), [], s);
    actions := ReachesVia(s1, TimerChecks(n - 1), actions, s);
  }

  // ----- The states of a run -----

  /** `states` are the states that `actions` lead through from `from`. */
  ghost predicate IsRun(from: State, actions: seq<Action>, states: seq<State>)
  {
    && |states| == |actions| + 1 && states[0] == from
    && forall i :: 0 <= i < |actions| ==> Enabled(states[i], actions[i]) && states[i + 1] == Apply(states[i], actions[i])
  }

  /** Every run has its states, so what is proved of all positions in them is proved of all reachable states. */
  lemma {:induction false} RunStates(from: State, actions: seq<Action>, s: State) returns (states: seq<State>)
    requires Reaches(from, actions, s)
    ensures IsRun(from, actions, states) && states[|actions|] == s
    decreases |actions|
  {
    hide Enabled, Apply;
    if actions == [] {
      states := [from];
    } else {
      var others := RunStates(Apply(from, actions[0]), actions[1..], s);
      states := [from] + others;
      forall i | 0 <= i < |actions| ensures Enabled(states[i], actions[i]) && states[i + 1] == Apply(states[i], actions[i]) {
        if i > 0 {
          assert actions[i] == actions[1..][i - 1] && states[i] == others[i - 1];
        }
      }
    }
  }

  /** `a` is a NotifyMetadata call that is accepted, and so opens a round. */
  predicate Opens(s: State, a: Action)
  {
    a.Notify? && Subscribed(s.manager, a.bundle)
  }

  /** `a` is a submission that sends an answer to `listener`. */
  predicate Answers(s: State, a: Action, listener: Callback)
  {
    (a.Submit? || a.TimerSubmits?) && !s.manager.hasSubmitted && s.manager.notifyListener == Some(listener)
  }

  // ----- Who is subscribed -----

  predicate Listens(m: Manager, bundle: Bundle, c: Callback)
  {
    bundle in m.listeners && c in m.listeners[bundle]
  }

  lemma SubscribedIffListens(m: Manager, bundle: Bundle)
    ensures Subscribed(m, bundle) <==> exists c :: Listens(m, bundle, c)
  {
    if Subscribed(m, bundle) {
      var c :| c in m.listeners[bundle];
      assert Listens(m, bundle, c);
    }
  }

  lemma ListensStep(s: State, a: Action, bundle: Bundle, c: Callback)
    requires Enabled(s, a)
    ensures Listens(Apply(s, a).manager, bundle, c) <==>
            a == Subscribe(bundle, c) ||
            (Listens(s.manager, bundle, c) && a != Unsubscribe(bundle, c) && a != Die(c))
  {
    match a
    case Subscribe(_, _) =>
    case Unsubscribe(b, d) =>
      if b in s.manager.listeners {
        assert c in s.manager.listeners[b] - {d} <==> c in s.manager.listeners[b] && c != d;
      }
    case Die(d) =>
      if bundle in s.manager.listeners {
        assert c in s.manager.listeners[bundle] - {d} <==> c in s.manager.listeners[bundle] && c != d;
      }
    case _ =>
  }

  /** `c` subscribed to the bundle before position `n`, and has neither unsubscribed nor died since. */
  ghost predicate SubscribedSince(actions: seq<Action>, n: nat, bundle: Bundle, c: Callback)
    requires n <= |actions|
  {
    exists q: nat :: q < n && actions[q] == Subscribe(bundle, c) && Unbroken(actions, q, n, bundle, c)
  }

  predicate Unbroken(actions: seq<Action>, q: nat, n: nat, bundle: Bundle, c: Callback)
    requires n <= |actions|
  {
    forall k :: q < k < n ==> actions[k] != Unsubscribe(bundle, c) && actions[k] != Die(c)
  }

  /** Subscriptions, at any position of any run: exactly those that were made and neither taken back nor ended by death. */
  lemma {:induction false} SubscriptionIsHistory(actions: seq<Action>, states: seq<State>, n: nat, bundle: Bundle, c: Callback)
    requires IsRun(START, actions, states) && n <= |actions|
    ensures Listens(states[n].manager, bundle, c) <==> SubscribedSince(actions, n, bundle, c)
    decreases n
  {
    hide Apply, Enabled, Listens;
    if n == 0 {
      NobodyListens(bundle, c);
    } else {
      var m := n - 1;
      SubscriptionIsHistory(actions, states, m, bundle, c);
      ListensStep(states[m], actions[m], bundle, c);
      if SubscribedSince(actions, m, bundle, c) && actions[m] != Unsubscribe(bundle, c) && actions[m] != Die(c) {
        var q: nat :| q < m && actions[q] == Subscribe(bundle, c) && Unbroken(actions, q, m, bundle, c);
        assert Unbroken(actions, q, n, bundle, c);
      }
      if actions[m] == Subscribe(bundle, c) {
        assert Unbroken(actions, m, n, bundle, c);
      }
      if SubscribedSince(actions, n, bundle, c) {
        var q: nat :| q < n && actions[q] == Subscribe(bundle, c) && Unbroken(actions, q, n, bundle, c);
        assert q < m ==> Unbroken(actions, q, m, bundle, c);
      }
    }
  }

  lemma NobodyListens(bundle: Bundle, c: Callback)
    ensures !Listens(START.manager, bundle, c)
  {
  }

  /** A callback that has died listens to nothing, nobody else is affected, and nobody else's rounds are. */
  lemma DeathUnsubscribes(m: Manager, c: Callback, bundle: Bundle, other: Callback)
    ensures !Listens(AfterDeath(m, c), bundle, c)
    ensures other != c ==> Listens(AfterDeath(m, c), bundle, other) == Listens(m, bundle, other)
    ensures Subscribed(AfterDeath(m, c), bundle) <==> exists d :: d != c && Listens(m, bundle, d)
  {
    SubscribedIffListens(AfterDeath(m, c), bundle);
    if exists d :: d != c && Listens(m, bundle, d) {
      var d :| d != c && Listens(m, bundle, d);
      assert Listens(AfterDeath(m, c), bundle, d);
    }
    if exists d :: Listens(AfterDeath(m, c), bundle, d) {
      var d :| Listens(AfterDeath(m, c), bundle, d);
      assert d != c && Listens(m, bundle, d);
    }
  }

  /** A round is opened exactly while somebody listens to its bundle, and asks all who do for a screenshot. */
  lemma OpensIffSomeoneListens(actions: seq<Action>, states: seq<State>, n: nat, bundle: Bundle, callback: Callback)
    requires IsRun(START, actions, states) && n < |actions| && actions[n] == Notify(bundle, callback)
    ensures states[n + 1].manager.round == states[n].manager.round + 1 <==>
            exists c :: SubscribedSince(actions, n, bundle, c)
    ensures states[n + 1].manager.round == states[n].manager.round + 1 ==>
              var asked := states[n + 1].manager.screenshots;
              && |asked| == |states[n].manager.screenshots| + 1
              && forall c :: c in asked[|asked| - 1] <==> SubscribedSince(actions, n, bundle, c)
  {
    hide SubscribedSince;
    SubscribedIffListens(states[n].manager, bundle);
    forall c ensures Listens(states[n].manager, bundle, c) == SubscribedSince(actions, n, bundle, c) {
      SubscriptionIsHistory(actions, states, n, bundle, c);
    }
    if exists c :: SubscribedSince(actions, n, bundle, c) {
      var c :| SubscribedSince(actions, n, bundle, c);
      assert Listens(states[n].manager, bundle, c);
    }
  }

  // ----- What is sent -----

  ghost predicate AnsweredBetween(actions: seq<Action>, states: seq<State>, i: nat, n: nat, listener: Callback)
    requires n <= |actions| < |states|
  {
    exists k :: i < k < n && Answers(states[k], actions[k], listener)
  }

  predicate OpensFor(actions: seq<Action>, states: seq<State>, i: nat, listener: Callback)
    requires i < |actions| < |states|
  {
    Opens(states[i], actions[i]) && actions[i].callback == listener
  }

  /** At position `n`, the round opened at position `i` is the listener's first one since it was last answered. */
  ghost predicate FirstUnanswered(actions: seq<Action>, states: seq<State>, i: nat, n: nat, listener: Callback)
    requires n <= |actions| < |states|
  {
    && i < n && OpensFor(actions, states, i, listener) && !AnsweredBetween(actions, states, i, n, listener)
    && forall j :: 0 <= j < i && OpensFor(actions, states, j, listener) ==> AnsweredBetween(actions, states, j, i, listener)
  }

  /** At position `n`, `bundle` is the one named by the listener's first round since it was last answered. */
  ghost predicate Awaits(actions: seq<Action>, states: seq<State>, n: nat, listener: Callback, bundle: Bundle)
    requires n <= |actions| < |states|
  {
    exists i: nat :: i < n && actions[i] == Notify(bundle, listener) && FirstUnanswered(actions, states, i, n, listener)
  }

  /** The cached name is the bundle of the first unanswered round, and there is none when all rounds are answered. */
  ghost predicate CacheIsFirst(actions: seq<Action>, states: seq<State>, n: nat, listener: Callback)
    requires n <= |actions| < |states|
  {
    var cache := states[n].manager.bundleNameCache;
    if listener in cache then
      Awaits(actions, states, n, listener, cache[listener])
    else
      forall j :: 0 <= j < n && OpensFor(actions, states, j, listener) ==> AnsweredBetween(actions, states, j, n, listener)
  }

  lemma AwaitsOne(actions: seq<Action>, states: seq<State>, n: nat, listener: Callback, b: Bundle, b': Bundle)
    requires n <= |actions| < |states|
    requires Awaits(actions, states, n, listener, b) && Awaits(actions, states, n, listener, b')
    ensures b == b'
  {
    var i: nat :| i < n && actions[i] == Notify(b, listener) && FirstUnanswered(actions, states, i, n, listener);
    var i': nat :| i' < n && actions[i'] == Notify(b', listener) && FirstUnanswered(actions, states, i', n, listener);
    FirstIsUnique(actions, states, i, i', n, listener);
  }

  lemma FirstIsUnique(actions: seq<Action>, states: seq<State>, i: nat, i': nat, n: nat, listener: Callback)
    requires n <= |actions| < |states|
    requires FirstUnanswered(actions, states, i, n, listener) && FirstUnanswered(actions, states, i', n, listener)
    ensures i == i'
  {
  }

  /** What one action does to the cached name of one listener. */
  lemma CacheStep(s: State, a: Action, listener: Callback)
    requires Enabled(s, a)
    ensures var before, after := s.manager.bundleNameCache, Apply(s, a).manager.bundleNameCache;
            if Answers(s, a, listener) then listener !in after
            else if Opens(s, a) && a.callback == listener && listener !in before then
              listener in after && after[listener] == a.bundle
            else (listener in after <==> listener in before) && (listener in after ==> after[listener] == before[listener])
  {
  }

  lemma AnsweredLater(actions: seq<Action>, states: seq<State>, i: nat, n: nat, listener: Callback)
    requires n < |actions| < |states|
    ensures AnsweredBetween(actions, states, i, n + 1, listener) <==>
            AnsweredBetween(actions, states, i, n, listener) || (i < n && Answers(states[n], actions[n], listener))
  {
    hide Answers;
  }

  lemma CacheIsFirstStep(actions: seq<Action>, states: seq<State>, n: nat, listener: Callback)
    requires IsRun(START, actions, states) && n < |actions| && CacheIsFirst(actions, states, n, listener)
    ensures CacheIsFirst(actions, states, n + 1, listener)
  {
    hide Answers, AnsweredBetween, Apply, Enabled, Subscribed;
    CacheStep(states[n], actions[n], listener);
    forall i: nat ensures AnsweredBetween(actions, states, i, n + 1, listener) <==>
                     AnsweredBetween(actions, states, i, n, listener) || (i < n && Answers(states[n], actions[n], listener)) {
      AnsweredLater(actions, states, i, n, listener);
    }
    var before, after := states[n].manager.bundleNameCache, states[n + 1].manager.bundleNameCache;
    assert Answers(states[n], actions[n], listener) ==> !Opens(states[n], actions[n]) by {
      AnswersNotOpens(states[n], actions[n], listener);
    }
    if listener in before && listener in after {
      var i: nat :| i < n && actions[i] == Notify(before[listener], listener) && FirstUnanswered(actions, states, i, n, listener);
      assert FirstUnanswered(actions, states, i, n + 1, listener);
    } else if listener in after {
      NotAnsweredAtOnce(actions, states, n, listener);
      assert FirstUnanswered(actions, states, n, n + 1, listener);
    } else {
      forall j | 0 <= j < n + 1 && OpensFor(actions, states, j, listener)
        ensures AnsweredBetween(actions, states, j, n + 1, listener)
      {
        AnsweredLater(actions, states, j, n, listener);
        assert listener in before ==> Answers(states[n], actions[n], listener);
      }
    }
  }

  lemma AnswersNotOpens(s: State, a: Action, listener: Callback)
    ensures Answers(s, a, listener) ==> !Opens(s, a)
  {
  }

  lemma NotAnsweredAtOnce(actions: seq<Action>, states: seq<State>, n: nat, listener: Callback)
    requires n < |actions| < |states|
    ensures !AnsweredBetween(actions, states, n, n + 1, listener)
  {
  }

  lemma {:induction false} CacheIsFirstAt(actions: seq<Action>, states: seq<State>, n: nat, listener: Callback)
    requires IsRun(START, actions, states) && n <= |actions|
    ensures CacheIsFirst(actions, states, n, listener)
    decreases n
  {
    if n > 0 {
      CacheIsFirstAt(actions, states, n - 1, listener);
      CacheIsFirstStep(actions, states, n - 1, listener);
    }
  }

  /**
   * What a submission sends, at any position of any run: the metadata if its link belongs to the bundle named by the
   * first round that this listener has opened since it was last answered, and the empty string otherwise.
   */
  lemma SentIffBundleMatches(
      actions: seq<Action>, states: seq<State>, n: nat, listener: Callback, metadata: string, link: Option<Bundle>)
    requires IsRun(START, actions, states) && n < |actions|
    requires actions[n] == Submit(metadata, link) && Answers(states[n], actions[n], listener)
    ensures var m := states[n].manager;
            var matches := link.Some? && Awaits(actions, states, n, listener, link.value);
            states[n + 1].manager.answers == m.answers + [Answer(m.round, listener, if matches then metadata else "")]
  {
    hide Awaits;
    CacheIsFirstAt(actions, states, n, listener);
    var cache := states[n].manager.bundleNameCache;
    if listener !in cache {
      NothingAwaited(actions, states, n, listener);
    } else if link.Some? && Awaits(actions, states, n, listener, link.value) {
      AwaitsOne(actions, states, n, listener, link.value, cache[listener]);
    }
  }

  lemma NothingAwaited(actions: seq<Action>, states: seq<State>, n: nat, listener: Callback)
    requires n <= |actions| < |states|
    requires CacheIsFirst(actions, states, n, listener) && listener !in states[n].manager.bundleNameCache
    ensures forall b :: !Awaits(actions, states, n, listener, b)
  {
    hide AnsweredBetween;
  }

  /** Answers are only ever appended, one by each submission that answers. */
  lemma AnswersStep(s: State, a: Action)
    requires Enabled(s, a)
    ensures var before, after := s.manager.answers, Apply(s, a).manager.answers;
            || after == before
            || (|after| == |before| + 1 && after[..|before|] == before && Answers(s, a, after[|before|].listener)
                && (after[|before|].metadata != "" ==> a.Submit?) && after[|before|].round == s.manager.round)
  {
  }

  /** The position of the submission that sent the k-th answer. */
  lemma {:induction false} SentAt(actions: seq<Action>, states: seq<State>, n: nat, k: nat) returns (p: nat)
    requires IsRun(START, actions, states) && n <= |actions| && k < |states[n].manager.answers|
    ensures p < n && |states[p].manager.answers| == k
    ensures |states[p + 1].manager.answers| == k + 1 && states[p + 1].manager.answers[k] == states[n].manager.answers[k]
    decreases n
  {
    hide Answers, Apply, Enabled;
    AnswersStep(states[n - 1], actions[n - 1]);
    if k < |states[n - 1].manager.answers| {
      p := SentAt(actions, states, n - 1, k);
    } else {
      p := n - 1;
    }
  }

  /**
   * Nothing but what was submitted is ever sent, and only for the right bundle. In every reachable state an answer other
   * than the empty string comes from a submission of that very text, whose link belongs to the bundle named by the first
   * round the listener had opened since it was last answered.
   */
  lemma AnswersAreEarned(actions: seq<Action>, s: State, k: nat) returns (states: seq<State>, p: nat, bundle: Bundle)
    requires Reaches(START, actions, s) && k < |s.manager.answers| && s.manager.answers[k].metadata != ""
    ensures IsRun(START, actions, states) && states[|actions|] == s && p < |actions| && |states[p].manager.answers| == k
    ensures var a := s.manager.answers[k];
            && actions[p] == Submit(a.metadata, Some(bundle)) && a.round == states[p].manager.round
            && Awaits(actions, states, p, a.listener, bundle)
  {
    hide Awaits;
    states := RunStates(START, actions, s);
    p := SentAt(actions, states, |actions|, k);
    var a := s.manager.answers[k];
    AnswersStep(states[p], actions[p]);
    var link := actions[p].applink;
    SentIffBundleMatches(actions, states, p, a.listener, actions[p].metadata, link);
    bundle := link.value;
  }

  /**
   * Metadata for the bundle that a round names is sent in that round if and only if no other name is cached for the
   * listener: a name left over from an unanswered round is not overwritten.
   */
  lemma CurrentBundleDecidesIff(m: Manager, bundle: Bundle, listener: Callback, metadata: string)
    requires Subscribed(m, bundle) && metadata != ""
    ensures AfterSubmit(AfterNotify(m, bundle, listener), metadata, Some(bundle)).answers ==
            m.answers + [Answer(m.round + 1, listener, metadata)] <==>
            listener !in m.bundleNameCache || m.bundleNameCache[listener] == bundle
  {
    var sent := AfterSubmit(AfterNotify(m, bundle, listener), metadata, Some(bundle)).answers;
    assert sent[|m.answers|] == sent[|sent| - 1];
  }

  /** Two accepted rounds by one listener without a cached name: the FIRST bundle named decides the second round. */
  lemma FirstBundleDecides(m: Manager, listener: Callback, first: Bundle, second: Bundle, metadata: string, link: Bundle)
    requires Subscribed(m, first) && Subscribed(m, second) && listener !in m.bundleNameCache && metadata != ""
    ensures var twice := AfterNotify(AfterNotify(m, first, listener), second, listener);
            AfterSubmit(twice, metadata, Some(link)).answers ==
            m.answers + [Answer(m.round + 2, listener, if link == first then metadata else "")]
  {
    var once := AfterNotify(m, first, listener);
    assert Subscribed(once, second);
  }

  // ----- Who is answered -----

  /** `a` makes `c` the one to be answered: it opens a round, or asks for an image to be decoded. */
  predicate Names(s: State, a: Action, c: Callback)
  {
    (Opens(s, a) && a.callback == c) || a == Decode(c)
  }

  predicate NamesAnyone(s: State, a: Action)
  {
    Opens(s, a) || a.Decode?
  }

  /** `c` is the callback named last before position `n`, and has not died since. */
  ghost predicate LastNamed(actions: seq<Action>, states: seq<State>, n: nat, c: Callback)
    requires n <= |actions| < |states|
  {
    exists q: nat :: q < n && Names(states[q], actions[q], c) && Unnamed(actions, states, q, n, c)
  }

  predicate Unnamed(actions: seq<Action>, states: seq<State>, q: nat, n: nat, c: Callback)
    requires n <= |actions| < |states|
  {
    forall k :: q < k < n ==> !NamesAnyone(states[k], actions[k]) && actions[k] != Die(c)
  }

  lemma ListenerStep(s: State, a: Action, c: Callback)
    requires Enabled(s, a)
    ensures Apply(s, a).manager.notifyListener == Some(c) <==>
            Names(s, a, c) || (s.manager.notifyListener == Some(c) && !NamesAnyone(s, a) && a != Die(c))
  {
  }

  /**
   * Who would be answered, at any position of any run: the callback last named by a round opened or by a decode request,
   * unless it has died since.
   */
  lemma {:induction false} ListenerIsLastNamed(actions: seq<Action>, states: seq<State>, n: nat, c: Callback)
    requires IsRun(START, actions, states) && n <= |actions|
    ensures states[n].manager.notifyListener == Some(c) <==> LastNamed(actions, states, n, c)
    decreases n
  {
    hide Names, NamesAnyone, Apply, Enabled;
    if n > 0 {
      var m := n - 1;
      ListenerIsLastNamed(actions, states, m, c);
      ListenerStep(states[m], actions[m], c);
      if LastNamed(actions, states, m, c) && !NamesAnyone(states[m], actions[m]) && actions[m] != Die(c) {
        var q: nat :| q < m && Names(states[q], actions[q], c) && Unnamed(actions, states, q, m, c);
        assert Unnamed(actions, states, q, n, c);
      }
      if Names(states[m], actions[m], c) {
        assert Unnamed(actions, states, m, n, c);
      }
      if LastNamed(actions, states, n, c) {
        var q: nat :| q < n && Names(states[q], actions[q], c) && Unnamed(actions, states, q, n, c);
        if q < m {
          assert Unnamed(actions, states, q, m, c);
        }
      }
    }
  }

  /** The answer of a round goes to the callback that opened it if and only if the last decode request since, if any, names it. */
  lemma OwnListenerAnsweredIff(actions: seq<Action>, states: seq<State>, q: nat, n: nat, c: Callback)
    requires IsRun(START, actions, states) && q < n < |actions| && Answers(states[n], actions[n], c)
    requires Opens(states[q], actions[q]) && forall k :: q < k < n ==> !Opens(states[k], actions[k])
    ensures c == actions[q].callback <==>
            forall k :: q < k < n && actions[k].Decode? && (forall j :: k < j < n ==> !actions[j].Decode?) ==>
              actions[k].callback == actions[q].callback
  {
    ListenerIsLastNamed(actions, states, n, c);
    var p: nat :| p < n && Names(states[p], actions[p], c) && Unnamed(actions, states, p, n, c);
    assert q <= p by {
      assert NamesAnyone(states[q], actions[q]);
    }
    forall k | p < k < n ensures !actions[k].Decode? {
      assert !NamesAnyone(states[k], actions[k]);
    }
  }

  /** A run in which the only answer of a round goes to a callback that took no part in opening it. */
  lemma DecodeDiverts() returns (actions: seq<Action>, s: State)
    ensures Reaches(START, actions, s) && s.manager.round == 1
    ensures s.manager.answers == [Answer(1, 7, "")] && Notify("app", 0) in actions && Notify("app", 7) !in actions
  {
    hide Reaches;
    var s1 := Apply(START, Subscribe("app", 0));
    var s2 := Apply(s1, Notify("app", 0));
    var s3 := Apply(s2, Decode(7));
    s := Apply(s3, Submit("link", Some("app")));
    ReachesItself(s);
    actions := ReachesVia(s3, Submit("link", Some("app")), [], s);
    actions := ReachesVia(s2, Decode(7), actions, s);
    actions := ReachesVia(s1, Notify("app", 0), actions, s);
    actions := ReachesVia(START, Subscribe("app", 0), actions, s);
  }

  // ----- Whose timer answers -----

  /** Rounds are counted by the calls that open them, and every round has its timer. */
  lemma RoundStep(s: State, a: Action)
    requires Enabled(s, a) && |s.timers| == s.manager.round
    ensures var s' := Apply(s, a);
            |s'.timers| == s'.manager.round && s'.manager.round == s.manager.round + if Opens(s, a) then 1 else 0
  {
  }

  /** The round count does not move while no call opens a round. */
  lemma {:induction false} RoundCounts(actions: seq<Action>, states: seq<State>, q: nat, n: nat)
    requires IsRun(START, actions, states) && q <= n <= |actions|
    ensures |states[n].timers| == states[n].manager.round
    ensures states[q].manager.round <= states[n].manager.round
    ensures states[q].manager.round == states[n].manager.round <==> forall k :: q <= k < n ==> !Opens(states[k], actions[k])
    decreases n
  {
    hide Opens, Apply, Enabled;
    if q < n {
      RoundCounts(actions, states, q, n - 1);
      RoundStep(states[n - 1], actions[n - 1]);
      if states[q].manager.round < states[n].manager.round {
        var k :| q <= k < n && Opens(states[k], actions[k]);
      }
    } else if n > 0 {
      RoundCounts(actions, states, n - 1, n - 1);
      RoundStep(states[n - 1], actions[n - 1]);
    }
  }

  /** The position of the call that started timer `i`. */
  lemma {:induction false} StartedAt(actions: seq<Action>, states: seq<State>, n: nat, i: nat) returns (q: nat)
    requires IsRun(START, actions, states) && n <= |actions| && i < |states[n].timers|
    ensures q < n && Opens(states[q], actions[q]) && |states[q].timers| == i
    decreases n
  {
    hide Opens, Apply, Enabled;
    RoundCounts(actions, states, n - 1, n - 1);
    RoundStep(states[n - 1], actions[n - 1]);
    if i < |states[n - 1].timers| {
      q := StartedAt(actions, states, n - 1, i);
    } else {
      q := n - 1;
    }
  }

  /**
   * A timer that submits answers whatever round is open, with the empty string. It answers the round it was started for
   * if and only if no further round has been opened since.
   */
  lemma OwnTimerAnswersIff(actions: seq<Action>, states: seq<State>, n: nat, listener: Callback) returns (q: nat)
    requires IsRun(START, actions, states) && n < |actions|
    requires actions[n].TimerSubmits? && Answers(states[n], actions[n], listener)
    ensures q < n && Opens(states[q], actions[q]) && states[q].manager.round == actions[n].i
    ensures var round := states[n].manager.round;
            && states[n + 1].manager.answers == states[n].manager.answers + [Answer(round, listener, "")]
            && (round == actions[n].i + 1 <==> forall k :: q < k < n ==> !Opens(states[k], actions[k]))
  {
    q := StartedAt(actions, states, n, actions[n].i);
    RoundCounts(actions, states, q, q);
    RoundStep(states[q], actions[q]);
    RoundCounts(actions, states, q + 1, n);
  }

  /** A run in which the timer of the first round, which has its answer, closes the second round before its time. */
  lemma StaleTimerAnswers() returns (actions: seq<Action>, s: State)
    ensures Reaches(START, actions, s) && s.manager.answers == [Answer(1, 0, "link"), Answer(2, 0, "")]
    ensures s.timers == [Fired, Started]
  {
    hide Reaches;
    var s1 := Apply(START, Subscribe("app", 0));
    var s2 := Apply(s1, Notify("app", 0));
    var s3 := Apply(s2, TimerChecks(0));
    var s4 := Apply(s3, Submit("link", Some("app")));
    var s5 := Apply(s4, Notify("app", 0));
    s := Apply(s5, TimerSubmits(0, None));
    ReachesItself(s);
    actions := ReachesVia(s5, TimerSubmits(0, None), [], s);
    actions := ReachesVia(s4, Notify("app", 0), actions, s);
    actions := ReachesVia(s3, Submit("link", Some("app")), actions, s);
    actions := ReachesVia(s2, TimerChecks(0), actions, s);
    actions := ReachesVia(s1, Notify("app", 0), actions, s);
    actions := ReachesVia(START, Subscribe("app", 0), actions, s);
  }

  lemma ReachesItself(s: State)
    ensures Reaches(s, [], s)
  {
  }

  lemma ReachesVia(from: State, a: Action, others: seq<Action>, s: State) returns (actions: seq<Action>)
    requires Enabled(from, a) && Reaches(Apply(from, a), others, s)
    ensures actions == [a] + others && Reaches(from, actions, s)
  {
    actions := [a] + others;
    assert actions[1..] == others;
  }
}
