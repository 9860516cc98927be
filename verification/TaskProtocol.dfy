// Posters and the worker thread, interleaved at the points where another thread can get in between.
//
// A poster writes the pipe token and pushes the task while it holds the mutex, so what it is doing is the state of the
// lock. The worker reads a token without the mutex, pops a batch under it, and runs the batch without it.
module TaskProtocol {
  import opened Common
  import opened IdFactories
  import opened DelegateTaskQueues

  /** A poster inside `PostTask`: it has taken an id; then it has also written its token. */
  datatype Lock = Unlocked | HasId(id: int, sync: bool) | HasWritten(id: int, sync: bool)

  /** The worker: between tokens, between a token and its pop, or somewhere in a batch. */
  datatype Worker =
    | Idle
    | Popping
    | Working(batch: seq<nat>)
    | Began(task: nat, batch: seq<nat>)                  // saw hasWaited_ false
    | Ran(task: nat, value: int, batch: seq<nat>)        // the callback returned
    | Setting(task: nat, value: int, batch: seq<nat>)    // saw hasWaited_ false again, about to set the promise

  /** Where the poster of a task stands. `Expired` and `Ready` are outcomes of the wait, before `SetWaited`. */
  datatype Poster = NotWaiting | Waits | Expired | Ready | GaveUp | Collects | Returned(value: int)

  /** A task that has been accepted; `runs` counts executions of its callback and `result` is what the last one gave. */
  datatype Record = Record(
    id: int, sync: bool, poster: Poster, waited: bool, begun: bool, runs: nat, result: Option<int>, promise: Option<int>)

  /** `queue` and `done` hold positions in `accepted`, the list of accepted tasks in the order of their pushes. */
  datatype State = State(
    ids: IdState, queue: seq<nat>, tokens: nat, lock: Lock, worker: Worker, accepted: seq<Record>, done: seq<nat>)

  const INITIAL: State := State(IdState(1, {}), [], 0, Unlocked, Idle, [], [])

  datatype Action =
    | TakeId(sync: bool)
    | WriteFails
    | WriteToken
    | Push
    | ReadToken
    | Pop
    | Discard
    | Begin
    | Run(value: int)
    | SkipPromise
    | WillSet
    | SetPromise
    | EndBatch
    | WaitReady(t: nat)
    | WaitExpires(t: nat)
    | SetWaited(t: nat)
    | Collect(t: nat)

  function QueuedIds(s: State): (r: seq<int>)
    requires Sane(s)
    ensures |r| == |s.queue|
  {
    seq(|s.queue|, i requires 0 <= i < |s.queue| => s.accepted[s.queue[i]].id)
  }

  /** All positions are positions of accepted tasks. */
  predicate Sane(s: State)
  {
    && (forall i :: 0 <= i < |s.queue| ==> s.queue[i] < |s.accepted|)
    && (forall i :: 0 <= i < |Pending(s.worker)| ==> Pending(s.worker)[i] < |s.accepted|)
  }

  /** The task the worker is at: the first one of its batch that it has not finished. */
  function Current(s: State): Record
    requires Sane(s) && Pending(s.worker) != []
  {
    s.accepted[Pending(s.worker)[0]]
  }

  function WithCurrent(s: State, r: Record): seq<Record>
    requires Sane(s) && Pending(s.worker) != []
  {
    s.accepted[Pending(s.worker)[0] := r]
  }

  /** The tasks the worker has popped and not finished, in order. */
  function Pending(w: Worker): (r: seq<nat>)
    ensures w.Began? || w.Ran? || w.Setting? ==> r != [] && r[0] == w.task && r[1..] == w.batch
  {
    match w
    case Idle => []
    case Popping => []
    case Working(batch) => batch
    case Began(t, batch) => [t] + batch
    case Ran(t, _, batch) => [t] + batch
    case Setting(t, _, batch) => [t] + batch
  }

  predicate Enabled(s: State, a: Action)
    requires Sane(s)
  {
    match a
    case TakeId(_) => s.lock == Unlocked && |s.queue| <= MAX_TASKS_LIMIT
    case WriteFails => s.lock.HasId?
    case WriteToken => s.lock.HasId?
    case Push => s.lock.HasWritten?
    case ReadToken => s.worker == Idle && s.tokens > 0
    case Pop => s.worker == Popping && s.lock == Unlocked
    case Discard => s.worker.Working? && s.worker.batch != [] && Current(s).waited
    case Begin => s.worker.Working? && s.worker.batch != [] && !Current(s).waited
    case Run(_) => s.worker.Began?
    case SkipPromise => s.worker.Ran? && (Current(s).waited || !Current(s).sync)
    case WillSet => s.worker.Ran? && !Current(s).waited && Current(s).sync
    case SetPromise => s.worker.Setting?
    case EndBatch => s.worker == Working([])
    case WaitReady(t) => t < |s.accepted| && s.accepted[t].poster == Waits && s.accepted[t].promise.Some?
    case WaitExpires(t) => t < |s.accepted| && s.accepted[t].poster == Waits && s.accepted[t].promise.None?
    case SetWaited(t) => t < |s.accepted| && s.accepted[t].poster in {Expired, Ready}
    case Collect(t) => t < |s.accepted| && s.accepted[t].poster == Collects && s.accepted[t].promise.Some?
  }

  ghost function Apply(s: State, a: Action): (s': State)
    requires Sane(s) && Enabled(s, a)
    ensures Sane(s')
  {
    match a
    case TakeId(sync) => s.(ids := AfterGenerate(s.ids), lock := HasId(Generated(s.ids), sync))
    case WriteFails => s.(ids := Recover(s.ids, s.lock.id), lock := Unlocked)
    case WriteToken => s.(tokens := s.tokens + 1, lock := HasWritten(s.lock.id, s.lock.sync))
    case Push =>
      var r := Record(s.lock.id, s.lock.sync, if s.lock.sync then Waits else NotWaiting, false, false, 0, None, None);
      s.(queue := s.queue + [|s.accepted|], lock := Unlocked, accepted := s.accepted + [r])
    case ReadToken => s.(tokens := s.tokens - 1, worker := Popping)
    case Pop =>
      var k := Min(|s.queue|, ONCE_PROCESS_TASK_LIMIT);
      s.(ids := RecoverAll(s.ids, QueuedIds(s)[..k]), queue := s.queue[k..], worker := Working(s.queue[..k]))
    case Discard => s.(worker := Working(s.worker.batch[1..]), done := s.done + [s.worker.batch[0]])
    case Begin =>
      s.(worker := Began(s.worker.batch[0], s.worker.batch[1..]), accepted := WithCurrent(s, Current(s).(begun := true)))
    case Run(v) =>
      var r := Current(s);
      s.(worker := Ran(s.worker.task, v, s.worker.batch), accepted := WithCurrent(s, r.(runs := r.runs + 1, result := Some(v))))
    case SkipPromise => s.(worker := Working(s.worker.batch), done := s.done + [s.worker.task])
    case WillSet => s.(worker := Setting(s.worker.task, s.worker.value, s.worker.batch))
    case SetPromise =>
      s.(worker := Working(s.worker.batch), done := s.done + [s.worker.task],
         accepted := WithCurrent(s, Current(s).(promise := Some(s.worker.value))))
    case EndBatch => s.(worker := Idle)
    case WaitReady(t) => s.(accepted := s.accepted[t := s.accepted[t].(poster := Ready)])
    case WaitExpires(t) => s.(accepted := s.accepted[t := s.accepted[t].(poster := Expired)])
    case SetWaited(t) =>
      var r := s.accepted[t];
      s.(accepted := s.accepted[t := r.(waited := true, poster := if r.poster == Ready then Collects else GaveUp)])
    case Collect(t) =>
      var r := s.accepted[t];
      s.(accepted := s.accepted[t := r.(poster := Returned(r.promise.value))])
  }

  /** `s` is reached from `from` by the given steps, in this order. */
  ghost predicate Reaches(from: State, actions: seq<Action>, s: State)
    requires Sane(from)
    decreases |actions|
  {
    if actions == [] then s == from
    else Enabled(from, actions[0]) && Reaches(Apply(from, actions[0]), actions[1..], s)
  }

  // ----- The protocol and the code -----

  function TaskOf(r: Record): Task
  {
    Task(r.id, r.sync)
  }

  function TasksAt(s: State, positions: seq<nat>): seq<Task>
    requires forall i :: 0 <= i < |positions| ==> positions[i] < |s.accepted|
  {
    seq(|positions|, i requires 0 <= i < |positions| => TaskOf(s.accepted[positions[i]]))
  }

  /** What the mutex protects, as the methods of `DelegateTasks` see it. */
  function QueueOf(s: State): Queue
    requires Sane(s)
  {
    Queue(s.ids, TasksAt(s, s.queue), s.tokens)
  }

  /**
   * `PostTask` is three steps of the protocol, or two when the pipe refuses the token, or none when the queue is full:
   * between them, what the mutex protects changes as the method's contract says, and nothing else is accepted or done.
   */
  lemma PostIsSteps(s: State, sync: bool, pipeAccepts: bool) returns (actions: seq<Action>, s': State)
    requires Sane(s) && s.lock == Unlocked
    ensures actions == if |s.queue| > MAX_TASKS_LIMIT then []
                       else if pipeAccepts then [TakeId(sync), WriteToken, Push] else [TakeId(sync), WriteFails]
    ensures Reaches(s, actions, s') && Sane(s') && s'.lock == Unlocked
    ensures QueueOf(s') == AfterPost(QueueOf(s), sync, pipeAccepts)
    ensures s'.worker == s.worker && s'.done == s.done && s.accepted <= s'.accepted
  {
    hide Reaches;
    if |s.queue| > MAX_TASKS_LIMIT {
      NoSteps(s);
      return [], s;
    }
    var s1 := Apply(s, TakeId(sync));
    if !pipeAccepts {
      s' := Apply(s1, WriteFails);
      NoSteps(s');
      actions := Then(s1, WriteFails, [], s');
      actions := Then(s, TakeId(sync), actions, s');
    } else {
      var s2 := Apply(s1, WriteToken);
      s' := Apply(s2, Push);
      NoSteps(s');
      assert QueueOf(s').tasks == QueueOf(s).tasks + [Task(Generated(s.ids), sync)];
      actions := Then(s2, Push, [], s');
      actions := Then(s1, WriteToken, actions, s');
      actions := Then(s, TakeId(sync), actions, s');
    }
  }

  lemma NoSteps(s: State)
    requires Sane(s)
    ensures Reaches(s, [], s)
  {
  }

  lemma Then(from: State, a: Action, others: seq<Action>, s: State) returns (actions: seq<Action>)
    requires Sane(from) && Enabled(from, a) && Reaches(Apply(from, a), others, s)
    ensures actions == [a] + others && Reaches(from, actions, s)
  {
    actions := [a] + others;
    assert actions[1..] == others;
  }

  /** `PopPendingTaskList` is one step, since it holds the mutex throughout; the worker's batch is what it pops. */
  lemma PopIsStep(s: State)
    requires Sane(s) && Enabled(s, Pop)
    ensures QueueOf(Apply(s, Pop)) == AfterPop(QueueOf(s))
    ensures var s' := Apply(s, Pop);
            && |Pending(s'.worker)| == Min(|s.queue|, ONCE_PROCESS_TASK_LIMIT)
            && TasksAt(s', Pending(s'.worker)) + QueueOf(s').tasks == QueueOf(s).tasks
  {
    var k := Min(|s.queue|, ONCE_PROCESS_TASK_LIMIT);
    assert Ids(QueueOf(s).tasks[..k]) == QueuedIds(s)[..k];
    assert QueueOf(Apply(s, Pop)).tasks == QueueOf(s).tasks[k..];
  }

  // ----- Wake-ups -----

  /** Every task in the queue, or about to enter it, is matched by an unread token or by the worker's pending pop. */
  predicate Awake(s: State)
  {
    |s.queue| + (if s.lock.HasWritten? then 1 else 0) <= s.tokens + (if s.worker == Popping then 1 else 0)
  }

  lemma AwakeStep(s: State, a: Action)
    requires Sane(s) && Enabled(s, a) && Awake(s)
    ensures Awake(Apply(s, a))
  {
  }

  // ----- Order -----

  function UpTo(n: nat): seq<nat>
  {
    seq(n, i requires 0 <= i < n => i)
  }

  /** Finished, popped and queued tasks, put together, are all accepted tasks in the order they were accepted. */
  predicate InOrder(s: State)
  {
    Front(s) + s.queue == UpTo(|s.accepted|)
  }

  function Front(s: State): seq<nat>
  {
    s.done + Pending(s.worker)
  }

  /** Working through a batch never changes the list of finished and popped tasks; only a pop does. */
  lemma FrontStep(s: State, a: Action)
    requires Sane(s) && Enabled(s, a)
    ensures var s' := Apply(s, a);
            && |s'.accepted| == |s.accepted| + (if a.Push? then 1 else 0)
            && if a.Pop? then Front(s') + s'.queue == Front(s) + s.queue
               else Front(s') == Front(s) && s'.queue == if a.Push? then s.queue + [|s.accepted|] else s.queue
  {
    if a.Pop? {
      var k := Min(|s.queue|, ONCE_PROCESS_TASK_LIMIT);
      assert s.done + [] + s.queue == s.done + s.queue[..k] + s.queue[k..];
    } else if a.Discard? || a.Begin? {
      var t, rest := s.worker.batch[0], s.worker.batch[1..];
      assert s.worker.batch == [t] + rest;
      assert s.done + ([t] + rest) == s.done + [t] + rest;
    } else if a.SkipPromise? || a.SetPromise? {
      var t, rest := s.worker.task, s.worker.batch;
      assert s.done + ([t] + rest) == s.done + [t] + rest;
    }
  }

  lemma InOrderStep(s: State, a: Action)
    requires Sane(s) && Enabled(s, a) && InOrder(s)
    ensures InOrder(Apply(s, a))
  {
    hide Apply, Front, Pending, Enabled, Sane;
    FrontStep(s, a);
    var s' := Apply(s, a);
    assert a.Push? ==> Front(s') + s'.queue == UpTo(|s.accepted|) + [|s.accepted|];
  }

  // ----- Ids -----

  function Held(lock: Lock): set<int>
  {
    if lock == Unlocked then {} else {lock.id}
  }

  ghost predicate IdsShared(s: State)
    requires Sane(s)
  {
    && Shared(s.ids, Held(s.lock), QueuedIds(s)) && s.ids.seed <= MAX_SEED
    && |s.queue| + (if s.lock == Unlocked then 0 else 1) <= MAX_TASKS_LIMIT + 1
  }

  lemma {:induction false} RecoverAllShared(s: IdState, queued: seq<int>, k: nat)
    requires k <= |queued| && Shared(s, {}, queued)
    ensures Shared(RecoverAll(s, queued[..k]), {}, queued[k..]) && RecoverAll(s, queued[..k]).seed == s.seed
    decreases k
  {
    hide Shared, Recover;
    if k == 0 {
      assert queued[0..] == queued;
    } else {
      PopShared(s, queued);
      assert queued[..k][0] == queued[0] && queued[..k][1..] == queued[1..][..k - 1];
      RecoverAllShared(Recover(s, queued[0]), queued[1..], k - 1);
      assert queued[1..][k - 1..] == queued[k..];
    }
  }

  /** What an action does to the ids in the queue. */
  lemma QueuedIdsStep(s: State, a: Action)
    requires Sane(s) && Enabled(s, a)
    ensures var s' := Apply(s, a);
            QueuedIds(s') == if a.Push? then QueuedIds(s) + [s.lock.id]
                             else if a.Pop? then QueuedIds(s)[Min(|s.queue|, ONCE_PROCESS_TASK_LIMIT)..] else QueuedIds(s)
  {
    var s' := Apply(s, a);
    assert forall t :: 0 <= t < |s.accepted| ==> s'.accepted[t].id == s.accepted[t].id;
  }

  lemma IdsSharedStep(s: State, a: Action)
    requires Sane(s) && Enabled(s, a) && IdsShared(s)
    ensures IdsShared(Apply(s, a))
  {
    hide QueuedIds, Shared, Sane, Generated, AfterGenerate, Recover, RecoverAll, Pending, Current, WithCurrent;
    QueuedIdsStep(s, a);
    match a
    case TakeId(_) =>
      GenerateShared(s.ids, QueuedIds(s));
    case WriteFails =>
      RecoverShared(s.ids, s.lock.id, QueuedIds(s));
    case Push =>
      PushShared(s.ids, s.lock.id, QueuedIds(s));
    case Pop =>
      RecoverAllShared(s.ids, QueuedIds(s), Min(|s.queue|, ONCE_PROCESS_TASK_LIMIT));
    case _ =>
  }

  // ----- Synchronous posts -----

  datatype Stage = Untouched | Starting | Executed(value: int) | Finished

  /** By `InOrder`, the tasks before position |done| are finished and the one at that position may be in progress. */
  function StageOf(s: State, t: nat): Stage
  {
    if t < |s.done| then Finished
    else if t > |s.done| then Untouched
    else
      match s.worker
      case Began(_, _) => Starting
      case Ran(_, v, _) => Executed(v)
      case Setting(_, v, _) => Executed(v)
      case _ => Untouched
  }

  /** What the record of a task says at each stage of its execution, whatever its poster does. */
  predicate ExecutionOk(r: Record, stage: Stage)
  {
    match stage
    case Untouched => !r.begun && r.runs == 0 && r.result == None && r.promise == None
    case Starting => r.begun && r.runs == 0 && r.result == None && r.promise == None
    case Executed(v) => r.begun && r.runs == 1 && r.result == Some(v) && r.promise == None
    case Finished =>
      && r.runs == (if r.begun then 1 else 0) && (r.begun <==> r.result.Some?)
      && (r.promise.Some? ==> r.promise == r.result)
      && (r.sync && r.promise == None ==> r.waited)
      && (!r.sync ==> r.begun)
  }

  predicate PosterOk(r: Record)
  {
    && (r.sync <==> r.poster != NotWaiting)
    && (r.waited <==> r.poster in {GaveUp, Collects} || r.poster.Returned?)
    && (r.poster in {Ready, Collects} || r.poster.Returned? ==> r.promise.Some?)
    && (r.poster.Returned? ==> r.promise == Some(r.poster.value))
  }

  predicate Faithful(s: State)
  {
    forall t :: 0 <= t < |s.accepted| ==> ExecutionOk(s.accepted[t], StageOf(s, t)) && PosterOk(s.accepted[t])
  }

  /** The worker sets the promise only of a synchronous task. */
  predicate SetsOnlySync(s: State)
    requires Sane(s)
  {
    s.worker.Setting? ==> Current(s).sync
  }

  lemma InOrderAtTask(s: State)
    requires InOrder(s)
    ensures Pending(s.worker) != [] ==> Pending(s.worker)[0] == |s.done|
  {
    if Pending(s.worker) != [] {
      assert (Front(s) + s.queue)[|s.done|] == Pending(s.worker)[0];
    }
  }

  /** One task's record after one action. */
  lemma RecordStep(s: State, a: Action, t: nat)
    requires Sane(s) && Enabled(s, a) && SetsOnlySync(s) && t < |s.accepted|
    requires Pending(s.worker) != [] ==> Pending(s.worker)[0] == |s.done|
    requires ExecutionOk(s.accepted[t], StageOf(s, t)) && PosterOk(s.accepted[t])
    ensures var s' := Apply(s, a); ExecutionOk(s'.accepted[t], StageOf(s', t)) && PosterOk(s'.accepted[t])
  {
    hide Sane;
  }

  lemma FaithfulStep(s: State, a: Action)
    requires Sane(s) && Enabled(s, a) && InOrder(s) && Faithful(s) && SetsOnlySync(s)
    ensures Faithful(Apply(s, a))
  {
    InOrderAtTask(s);
    var s' := Apply(s, a);
    FrontStep(s, a);
    InOrderStep(s, a);
    InOrderAtTask(s');
    forall t | 0 <= t < |s'.accepted| ensures ExecutionOk(s'.accepted[t], StageOf(s', t)) && PosterOk(s'.accepted[t]) {
      if t < |s.accepted| {
        RecordStep(s, a, t);
      } else {
        NewRecord(s, a);
      }
    }
  }

  lemma NewRecord(s: State, a: Action)
    requires Sane(s) && Enabled(s, a) && InOrder(s) && a.Push?
    ensures var s', t := Apply(s, a), |s.accepted|; ExecutionOk(s'.accepted[t], StageOf(s', t)) && PosterOk(s'.accepted[t])
  {
    assert |Front(s) + s.queue| == |s.accepted|;
    if |s.done| == |s.accepted| {
      assert Pending(s.worker) == [];
    }
  }

  lemma SetsOnlySyncStep(s: State, a: Action)
    requires Sane(s) && Enabled(s, a) && SetsOnlySync(s)
    ensures SetsOnlySync(Apply(s, a))
  {
  }

  // ----- Every run -----

  ghost predicate Inv(s: State)
  {
    Sane(s) && Awake(s) && InOrder(s) && IdsShared(s) && Faithful(s) && SetsOnlySync(s)
  }

  lemma InvStep(s: State, a: Action)
    requires Inv(s) && Enabled(s, a)
    ensures Inv(Apply(s, a))
  {
    hide Awake, InOrder, IdsShared, Faithful, SetsOnlySync;
    AwakeStep(s, a);
    InOrderStep(s, a);
    IdsSharedStep(s, a);
    FaithfulStep(s, a);
    SetsOnlySyncStep(s, a);
  }

  lemma {:induction false} InvRun(from: State, actions: seq<Action>, s: State)
    requires Inv(from) && Reaches(from, actions, s)
    ensures Inv(s)
    decreases |actions|
  {
    if actions != [] {
      InvStep(from, actions[0]);
      hide Inv, Apply, Enabled;
      InvRun(Apply(from, actions[0]), actions[1..], s);
    }
  }

  lemma InvInitial()
    ensures Inv(INITIAL)
  {
    assert UpTo(0) == [] && QueuedIds(INITIAL) == [];
  }

  /**
   * No wake-up is lost. Whatever posters and the worker do and however they interleave: a queued task implies an unread
   * token, which keeps the level-triggered pipe readable, or a worker about to pop. So whenever the pipe is empty, the
   * worker idle and no poster inside its critical section, every accepted task has been executed or discarded.
   */
  lemma NoLostWakeup(actions: seq<Action>, s: State)
    requires Reaches(INITIAL, actions, s)
    ensures s.queue != [] ==> s.tokens > 0 || s.worker == Popping
    ensures s.tokens == 0 && s.worker == Idle && s.lock == Unlocked ==> s.done == UpTo(|s.accepted|)
  {
    hide Reaches, Awake, InOrder, IdsShared, Faithful, SetsOnlySync;
    InvInitial();
    InvRun(INITIAL, actions, s);
    AwakeInOrder(s);
  }

  lemma AwakeInOrder(s: State)
    requires Awake(s) && InOrder(s)
    ensures s.queue != [] ==> s.tokens > 0 || s.worker == Popping
    ensures s.tokens == 0 && s.worker == Idle && s.lock == Unlocked ==> s.done == UpTo(|s.accepted|)
  {
    hide UpTo;
  }

  /** Tasks finish in the order in which they were accepted, and none is lost or duplicated on the way. */
  lemma FinishedInPostOrder(actions: seq<Action>, s: State)
    requires Reaches(INITIAL, actions, s)
    ensures s.done + Pending(s.worker) + s.queue == UpTo(|s.accepted|)
  {
    InvInitial();
    InvRun(INITIAL, actions, s);
  }

  /**
   * In every reachable state ids 1 .. seed-1 are each free, held by the poster in its critical section, or carried by
   * exactly one queued task; the queue holds at most 1001 tasks and the counter never passes 1002, so the id 0 that marks
   * exhaustion is never handed out.
   */
  lemma IdsConserved(actions: seq<Action>, s: State)
    requires Reaches(INITIAL, actions, s)
    ensures Sane(s) && Shared(s.ids, Held(s.lock), QueuedIds(s))
    ensures s.ids.seed <= 1002 && |s.queue| <= 1001 && 0 !in QueuedIds(s) && 0 !in Held(s.lock)
  {
    InvInitial();
    InvRun(INITIAL, actions, s);
  }

  /**
   * Synchronous posts are faithful. A callback runs at most once; a poster whose wait ended ready returns exactly what
   * that one run returned, which is what the callback gave; a task that has been dealt with either ran or had been given
   * up; and a poster still waiting for a task that has been dealt with finds its promise set.
   */
  lemma SyncPostFaithful(actions: seq<Action>, s: State, t: nat)
    requires Reaches(INITIAL, actions, s) && t < |s.accepted|
    ensures var r := s.accepted[t];
            && r.runs <= 1
            && (r.poster.Returned? ==> r.runs == 1 && r.result == Some(r.poster.value) && Run(r.poster.value) in actions)
            && (t < |s.done| ==> r.runs == 1 || (r.sync && r.waited))
            && (t < |s.done| && r.poster == Waits ==> r.promise.Some? && r.promise == r.result)
  {
    InvInitial();
    InvRun(INITIAL, actions, s);
    assert ExecutionOk(s.accepted[t], StageOf(s, t)) && PosterOk(s.accepted[t]);
    ResultsAreRun(INITIAL, actions, s);
  }

  predicate ResultFrom(s: State, t: nat, values: set<int>)
    requires t < |s.accepted|
  {
    s.accepted[t].result.Some? ==> s.accepted[t].result.value in values
  }

  predicate ResultsFrom(s: State, values: set<int>)
  {
    forall t :: 0 <= t < |s.accepted| ==> ResultFrom(s, t, values)
  }

  lemma ResultsStep(s: State, a: Action, values: set<int>)
    requires Sane(s) && Enabled(s, a) && ResultsFrom(s, values)
    ensures ResultsFrom(Apply(s, a), values + if a.Run? then {a.value} else {})
  {
    var s', more := Apply(s, a), values + if a.Run? then {a.value} else {};
    forall t | 0 <= t < |s'.accepted| ensures ResultFrom(s', t, more) {
      assert t < |s.accepted| ==> ResultFrom(s, t, values);
    }
  }

  function ValuesRun(actions: seq<Action>): set<int>
  {
    if actions == [] then {} else (if actions[0].Run? then {actions[0].value} else {}) + ValuesRun(actions[1..])
  }

  lemma {:induction false} ValuesInRun(actions: seq<Action>)
    ensures forall v <- ValuesRun(actions) :: Run(v) in actions
  {
    if actions != [] {
      ValuesInRun(actions[1..]);
    }
  }

  lemma {:induction false} ResultsFromRun(from: State, actions: seq<Action>, s: State, values: set<int>)
    requires Sane(from) && Reaches(from, actions, s) && ResultsFrom(from, values)
    ensures ResultsFrom(s, values + ValuesRun(actions))
    decreases |actions|
  {
    hide Apply, Enabled, ResultsFrom;
    if actions == [] {
      assert values + ValuesRun(actions) == values;
    } else {
      var more := values + if actions[0].Run? then {actions[0].value} else {};
      ResultsStep(from, actions[0], values);
      ResultsFromRun(Apply(from, actions[0]), actions[1..], s, more);
      assert more + ValuesRun(actions[1..]) == values + ValuesRun(actions);
    }
  }

  /** Every result is the value of some execution of a callback. */
  lemma ResultsAreRun(from: State, actions: seq<Action>, s: State)
    requires from == INITIAL && Reaches(from, actions, s)
    ensures forall t :: 0 <= t < |s.accepted| && s.accepted[t].result.Some? ==> Run(s.accepted[t].result.value) in actions
  {
    hide Reaches, ValuesRun;
    ResultsFromRun(from, actions, s, {});
    ValuesInRun(actions);
    forall t | 0 <= t < |s.accepted| && s.accepted[t].result.Some?
      ensures Run(s.accepted[t].result.value) in actions
    {
      assert ResultFrom(s, t, {} + ValuesRun(actions));
    }
  }

  // ----- Progress -----

  predicate ByWorker(a: Action)
  {
    a in {ReadToken, Pop, Discard, Begin, SkipPromise, WillSet, SetPromise, EndBatch} || a.Run?
  }

  function StageWork(w: Worker): nat
  {
    match w
    case Idle => 0
    case Popping => 90
    case Working(_) => 4
    case Began(_, _) => 3
    case Ran(_, _, _) => 2
    case Setting(_, _, _) => 1
  }

  /** A bound on the steps the worker can take before it has to wait: at most ten tasks a token, five steps a task. */
  function Work(s: State): nat
  {
    100 * s.tokens + StageWork(s.worker) + 5 * |Pending(s.worker)|
  }

  /** The worker never has to wait for a poster except for the lock, unless there is nothing to do. */
  lemma WorkerCanStep(s: State) returns (a: Action)
    requires Sane(s) && s.lock == Unlocked && !(s.tokens == 0 && s.worker == Idle)
    ensures ByWorker(a) && Enabled(s, a)
  {
    match s.worker
    case Idle => a := ReadToken;
    case Popping => a := Pop;
    case Working(batch) => a := if batch == [] then EndBatch else if Current(s).waited then Discard else Begin;
    case Began(_, _) => a := Run(0);
    case Ran(_, _, _) => a := if Current(s).waited || !Current(s).sync then SkipPromise else WillSet;
    case Setting(_, _, _) => a := SetPromise;
  }

  lemma WorkDecreases(s: State, a: Action)
    requires Sane(s) && Enabled(s, a) && ByWorker(a)
    ensures Work(Apply(s, a)) < Work(s)
    ensures s.lock == Unlocked ==> Apply(s, a).lock == Unlocked
    ensures |Apply(s, a).accepted| == |s.accepted|
  {
  }

  /** The worker on its own finishes within `Work(s)` steps, whichever of them it takes. */
  lemma {:induction false} WorkerStops(s: State, actions: seq<Action>, s': State)
    requires Sane(s) && Reaches(s, actions, s') && forall a <- actions :: ByWorker(a)
    ensures |actions| + Work(s') <= Work(s)
    decreases |actions|
  {
    hide Apply, Enabled, Work, ByWorker;
    if actions != [] {
      WorkDecreases(s, actions[0]);
      WorkerStops(Apply(s, actions[0]), actions[1..], s');
    }
  }

  lemma {:induction false} WorkerDrains(s: State) returns (actions: seq<Action>, s': State)
    requires Inv(s) && s.lock == Unlocked
    ensures Reaches(s, actions, s') && forall a <- actions :: ByWorker(a)
    ensures Inv(s') && s'.lock == Unlocked && s'.tokens == 0 && s'.worker == Idle && |s'.accepted| == |s.accepted|
    decreases Work(s)
  {
    hide Apply, Enabled, ByWorker, Awake, InOrder, IdsShared, Faithful, SetsOnlySync, Work, Reaches;
    if s.tokens == 0 && s.worker == Idle {
      NoSteps(s);
      return [], s;
    }
    var a := WorkerCanStep(s);
    WorkDecreases(s, a);
    InvStep(s, a);
    actions, s' := WorkerDrains(Apply(s, a));
    actions := Then(s, a, actions, s');
  }

  /**
   * Everything accepted gets done. From every reachable state with no poster in its critical section, the worker's own
   * steps lead to a state in which every accepted task has been executed or discarded; and it cannot fail to get there,
   * since it stops after a bounded number of steps and never stops before.
   */
  lemma EverythingGetsDone(before: seq<Action>, s: State) returns (actions: seq<Action>, s': State)
    requires Reaches(INITIAL, before, s) && s.lock == Unlocked
    ensures Sane(s) && Reaches(s, actions, s') && (forall a <- actions :: ByWorker(a)) && |actions| <= Work(s)
    ensures s'.tokens == 0 && s'.worker == Idle && |s'.accepted| == |s.accepted| && s'.done == UpTo(|s.accepted|)
    ensures forall run: seq<Action>, end: State :: (forall a <- run :: ByWorker(a)) && Reaches(s, run, end) ==>
              |run| <= Work(s) &&
              ((forall a | ByWorker(a) && Sane(end) :: !Enabled(end, a)) ==> end.done == UpTo(|end.accepted|))
  {
    hide Reaches, Awake, InOrder, IdsShared, Faithful, SetsOnlySync, Work, Apply, Enabled, ByWorker;
    InvInitial();
    InvRun(INITIAL, before, s);
    actions, s' := WorkerDrains(s);
    WorkerStops(s, actions, s');
    AwakeInOrder(s');
    forall run: seq<Action>, end: State | (forall a <- run :: ByWorker(a)) && Reaches(s, run, end)
      ensures |run| <= Work(s)
      ensures (forall a | ByWorker(a) && Sane(end) :: !Enabled(end, a)) ==> end.done == UpTo(|end.accepted|)
    {
      WorkerStops(s, run, end);
      InvRun(s, run, end);
      KeepsUnlocked(s, run, end);
      if forall a | ByWorker(a) && Sane(end) :: !Enabled(end, a) {
        if !(end.tokens == 0 && end.worker == Idle) {
          var a := WorkerCanStep(end);
          assert false;
        }
        AwakeInOrder(end);
      }
    }
  }

  lemma {:induction false} KeepsUnlocked(s: State, actions: seq<Action>, s': State)
    requires Sane(s) && Reaches(s, actions, s') && (forall a <- actions :: ByWorker(a)) && s.lock == Unlocked
    ensures s'.lock == Unlocked
    decreases |actions|
  {
    hide Apply, Enabled, ByWorker;
    if actions != [] {
      WorkDecreases(s, actions[0]);
      KeepsUnlocked(Apply(s, actions[0]), actions[1..], s');
    }
  }

  /**
   * No poster is ever stuck: one in its critical section can go on, and one that waits, has stopped waiting, or is about
   * to collect its value can take its next step, whatever the worker does.
   */
  lemma PosterCanStep(before: seq<Action>, s: State)
    requires Reaches(INITIAL, before, s)
    ensures Sane(s)
    ensures match s.lock
            case Unlocked => |s.queue| <= 1000 ==> Enabled(s, TakeId(true)) && Enabled(s, TakeId(false))
            case HasId(_, _) => Enabled(s, WriteToken) && Enabled(s, WriteFails)
            case HasWritten(_, _) => Enabled(s, Push)
    ensures forall t :: 0 <= t < |s.accepted| ==>
              match s.accepted[t].poster
              case Waits => Enabled(s, WaitReady(t)) || Enabled(s, WaitExpires(t))
              case Expired => Enabled(s, SetWaited(t))
              case Ready => Enabled(s, SetWaited(t))
              case Collects => Enabled(s, Collect(t))
              case _ => true
  {
    hide Reaches, Awake, InOrder, IdsShared, SetsOnlySync, ExecutionOk, PosterOk, Enabled;
    InvInitial();
    InvRun(INITIAL, before, s);
    LockCanStep(s);
    forall t | 0 <= t < |s.accepted|
      ensures match s.accepted[t].poster
              case Waits => Enabled(s, WaitReady(t)) || Enabled(s, WaitExpires(t))
              case Expired => Enabled(s, SetWaited(t))
              case Ready => Enabled(s, SetWaited(t))
              case Collects => Enabled(s, Collect(t))
              case _ => true
    {
      assert ExecutionOk(s.accepted[t], StageOf(s, t)) && PosterOk(s.accepted[t]);
      OnePosterCanStep(s, t);
    }
  }

  lemma LockCanStep(s: State)
    requires Sane(s)
    ensures match s.lock
            case Unlocked => |s.queue| <= 1000 ==> Enabled(s, TakeId(true)) && Enabled(s, TakeId(false))
            case HasId(_, _) => Enabled(s, WriteToken) && Enabled(s, WriteFails)
            case HasWritten(_, _) => Enabled(s, Push)
  {
  }

  lemma OnePosterCanStep(s: State, t: nat)
    requires Sane(s) && t < |s.accepted| && PosterOk(s.accepted[t])
    ensures match s.accepted[t].poster
            case Waits => Enabled(s, WaitReady(t)) || Enabled(s, WaitExpires(t))
            case Expired => Enabled(s, SetWaited(t))
            case Ready => Enabled(s, SetWaited(t))
            case Collects => Enabled(s, Collect(t))
            case _ => true
  {
  }

  /** How a wait ends: a poster that finds its promise set returns the value in it, and one that does not gives up. */
  lemma WaitEnds(s: State, t: nat) returns (actions: seq<Action>, s': State)
    requires Sane(s) && t < |s.accepted| && s.accepted[t].poster == Waits
    ensures Reaches(s, actions, s') && t < |s'.accepted|
    ensures if s.accepted[t].promise.Some? then
              && actions == [WaitReady(t), SetWaited(t), Collect(t)]
              && s'.accepted[t].poster == Returned(s.accepted[t].promise.value)
            else
              actions == [WaitExpires(t), SetWaited(t)] && s'.accepted[t].poster == GaveUp
    ensures s'.accepted[t].waited && s'.queue == s.queue && s'.done == s.done && s'.worker == s.worker
  {
    hide Reaches, Sane, Pending, Current, WithCurrent;
    if s.accepted[t].promise.Some? {
      var s1 := Apply(s, WaitReady(t));
      var s2 := Apply(s1, SetWaited(t));
      s' := Apply(s2, Collect(t));
      NoSteps(s');
      actions := Then(s2, Collect(t), [], s');
      actions := Then(s1, SetWaited(t), actions, s');
      actions := Then(s, WaitReady(t), actions, s');
    } else {
      var s1 := Apply(s, WaitExpires(t));
      s' := Apply(s1, SetWaited(t));
      NoSteps(s');
      actions := Then(s1, SetWaited(t), [], s');
      actions := Then(s, WaitExpires(t), actions, s');
    }
  }

  /** Once the poster has stopped waiting, a task that has not been begun never is. */
  lemma {:induction false} BegunSettled(from: State, actions: seq<Action>, s: State, t: nat)
    requires Sane(from) && Reaches(from, actions, s)
    requires t < |from.accepted| && from.accepted[t].waited
    ensures t < |s.accepted| && s.accepted[t].waited && s.accepted[t].begun == from.accepted[t].begun
    decreases |actions|
  {
    hide Apply, Enabled;
    if actions != [] {
      BegunSettledStep(from, actions[0], t);
      BegunSettled(Apply(from, actions[0]), actions[1..], s, t);
    }
  }

  lemma BegunSettledStep(s: State, a: Action, t: nat)
    requires Sane(s) && Enabled(s, a) && t < |s.accepted| && s.accepted[t].waited
    ensures var s' := Apply(s, a);
            t < |s'.accepted| && s'.accepted[t].waited && s'.accepted[t].begun == s.accepted[t].begun
  {
  }

  /**
   * A poster that gives up can rely on the callback never running if and only if the worker has not begun its task by
   * then: a task that was begun has run once by the time it is done with.
   */
  lemma GivenUpRunsIffBegun(before: seq<Action>, middle: State, after: seq<Action>, s: State, t: nat)
    requires Reaches(INITIAL, before, middle) && Sane(middle) && Reaches(middle, after, s)
    requires t < |middle.accepted| && middle.accepted[t].poster == GaveUp
    ensures t < |s.accepted| && s.accepted[t].runs <= 1
    ensures !middle.accepted[t].begun ==> s.accepted[t].runs == 0 && s.accepted[t].result == None
    ensures t < |s.done| ==> (s.accepted[t].runs == 1 <==> middle.accepted[t].begun)
  {
    InvInitial();
    InvRun(INITIAL, before, middle);
    InvRun(middle, after, s);
    assert PosterOk(middle.accepted[t]);
    BegunSettled(middle, after, s, t);
    assert ExecutionOk(s.accepted[t], StageOf(s, t));
  }
}
