// The queue of tasks delegated to the service's worker thread: the parts that run under its mutex.
module DelegateTaskQueues {
  import opened Common
  import opened IdFactories

  datatype Task = Task(id: int, sync: bool)

  const MAX_TASKS_LIMIT: int := 1000
  const ONCE_PROCESS_TASK_LIMIT: int := 10

  function Ids(tasks: seq<Task>): seq<int>
  {
    seq(|tasks|, i requires 0 <= i < |tasks| => tasks[i].id)
  }

  lemma IdsTail(tasks: seq<Task>)
    requires tasks != []
    ensures Ids(tasks) != [] && Ids(tasks)[0] == tasks[0].id && Ids(tasks)[1..] == Ids(tasks[1..])
  {
  }

  lemma MoveFirst(front: seq<Task>, back: seq<Task>)
    requires back != []
    ensures (front + [back[0]]) + back[1..] == front + back
  {
  }

  /** What the mutex protects: ids, queue, and unread tokens in the pipe. */
  datatype Queue = Queue(ids: IdState, tasks: seq<Task>, tokens: nat)

  /** `PostTask`; a failed write to the pipe gives the id back. */
  ghost function AfterPost(q: Queue, sync: bool, pipeAccepts: bool): Queue
  {
    if |q.tasks| > MAX_TASKS_LIMIT then q
    else
      var id, ids := Generated(q.ids), AfterGenerate(q.ids);
      if pipeAccepts then Queue(ids, q.tasks + [Task(id, sync)], q.tokens + 1) else q.(ids := Recover(ids, id))
  }

  /** The loop of `PopPendingTaskList` over the ids: each popped task gives its id back. */
  function RecoverAll(s: IdState, ids: seq<int>): IdState
    decreases |ids|
  {
    if ids == [] then s else RecoverAll(Recover(s, ids[0]), ids[1..])
  }

  /** The `limit` oldest tasks, or all if there are fewer, leave the queue. */
  function AfterPopping(limit: nat, q: Queue): Queue
  {
    var k := Min(|q.tasks|, limit);
    q.(ids := RecoverAll(q.ids, Ids(q.tasks[..k])), tasks := q.tasks[k..])
  }

  lemma AfterPoppingStep(limit: nat, q: Queue)
    requires limit > 0 && q.tasks != []
    ensures AfterPopping(limit, q) == AfterPopping(limit - 1, q.(ids := Recover(q.ids, q.tasks[0].id), tasks := q.tasks[1..]))
  {
    var k := Min(|q.tasks|, limit);
    assert q.tasks[1..][..k - 1] == q.tasks[..k][1..];
    assert Ids(q.tasks[..k])[1..] == Ids(q.tasks[..k][1..]);
  }

  lemma AfterPoppingNone(limit: nat, q: Queue)
    requires limit == 0 || q.tasks == []
    ensures AfterPopping(limit, q) == q
  {
    assert q.tasks[..0] == [] && Ids([]) == [];
  }

  function AfterPop(q: Queue): Queue
  {
    AfterPopping(ONCE_PROCESS_TASK_LIMIT, q)
  }

  class DelegateTasks {
    const factory: IdFactory
    var tasks: seq<Task>
    /** Tokens in the pipe that the worker has not read. */
    var tokens: nat

    function View(): Queue
      reads this, factory
    {
      Queue(factory.State(), tasks, tokens)
    }

    ghost predicate Valid()
      reads this, factory
    {
      && Shared(factory.State(), {}, Ids(tasks))
      && factory.seed <= MAX_SEED && |tasks| <= MAX_TASKS_LIMIT + 1
    }

    constructor ()
      ensures Valid() && fresh(factory) && tasks == [] && tokens == 0
    {
      factory := new IdFactory();
      tasks, tokens := [], 0;
    }

    /** `PostTask`; `pipeAccepts` says whether the write to the pipe succeeds. */
    method PostTask(sync: bool, pipeAccepts: bool) returns (r: Option<Task>)
      requires Valid()
      modifies this, factory
      ensures Valid() && View() == AfterPost(old(View()), sync, pipeAccepts)
      ensures r.Some? <==> pipeAccepts && |old(tasks)| <= 1000
      ensures r.None? ==> tasks == old(tasks) && tokens == old(tokens)
      ensures r.Some? ==>
                && tasks == old(tasks) + [r.value] && tokens == old(tokens) + 1 && r.value.sync == sync
                && r.value.id != 0 && r.value.id !in Ids(old(tasks))
    {
      var tsize := |tasks|;
      if tsize > MAX_TASKS_LIMIT {
        return None;
      }
      GenerateShared(factory.State(), Ids(tasks));
      var id := factory.GenerateId();
      if !pipeAccepts {
        RecoverShared(factory.State(), id, Ids(tasks));
        factory.RecoveryId(id);
        return None;
      }
      tokens := tokens + 1;
      assert id in {id};
      PushShared(factory.State(), id, Ids(tasks));
      var task := Task(id, sync);
      assert Ids(tasks + [task]) == Ids(tasks) + [id];
      tasks := tasks + [task];
      return Some(task);
    }

    /** `PopPendingTaskList`: takes the ten oldest tasks, or all of them if there are fewer. */
    method PopPendingTaskList() returns (popped: seq<Task>)
      requires Valid()
      modifies this, factory
      ensures Valid() && View() == AfterPop(old(View()))
      ensures popped + tasks == old(tasks)
      ensures |popped| == if |old(tasks)| < 10 then |old(tasks)| else 10
    {
      hide Shared, AfterPopping, Recover, RecoverAll, Ids;
      popped := [];
      var i := 0;
      while i < ONCE_PROCESS_TASK_LIMIT
        invariant 0 <= i <= ONCE_PROCESS_TASK_LIMIT && Valid() && tokens == old(tokens)
        invariant popped + tasks == old(tasks) && |popped| == i
        invariant AfterPopping(ONCE_PROCESS_TASK_LIMIT - i, View()) == AfterPopping(ONCE_PROCESS_TASK_LIMIT, old(View()))
      {
        if tasks == [] {
          break;
        }
        AfterPoppingStep(ONCE_PROCESS_TASK_LIMIT - i, View());
        var taskDuty := tasks[0];
        IdsTail(tasks);
        MoveFirst(popped, tasks);
        PopShared(factory.State(), Ids(tasks));
        factory.RecoveryId(taskDuty.id);
        popped := popped + [taskDuty];
        tasks := tasks[1..];
        i := i + 1;
      }
      AfterPoppingNone(ONCE_PROCESS_TASK_LIMIT - i, View());
    }

    /**
     * `PostSyncTask` up to the wait. A call from the worker itself runs the callback on the spot, yielding `value`, and
     * leaves queue, ids and pipe alone.
     */
    method BeginSyncTask(onWorkerThread: bool, value: int, pipeAccepts: bool) returns (inline: Option<int>, task: Option<Task>)
      requires Valid()
      modifies this, factory
      ensures Valid()
      ensures onWorkerThread ==> inline == Some(value) && task == None
      ensures !onWorkerThread ==> inline == None && (task.Some? <==> pipeAccepts && |old(tasks)| <= 1000)
      ensures View() == if onWorkerThread then old(View()) else AfterPost(old(View()), true, pipeAccepts)
      ensures task.Some? ==> tasks == old(tasks) + [task.value] && tokens == old(tokens) + 1 && task.value.sync
    {
      inline, task := None, None;
      if onWorkerThread {
        return Some(value), None;
      }
      task := PostTask(true, pipeAccepts);
    }
  }
}
