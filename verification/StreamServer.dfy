// The server's sessions, the index from process to session, and the callbacks on a session's end.
module StreamServers {
  import opened Common

  const MAX_SESSION_ALARM: nat := 100
  const INVALID_FD: int := 6
  const INVALID_PID: int := 7

  datatype Session = Session(fd: int, pid: int)

  /** `fired` is the history of session-deleted callbacks called, by the number given to each at registration. */
  datatype Server = Server(
    sessions: map<int, Session>, idxPids: map<int, int>, callbacks: map<int, nat>, registered: nat, fired: seq<nat>)

  const EMPTY: Server := Server(map[], map[], map[], 0, [])

  function ClientPid(s: Server, fd: int): int
  {
    if fd in s.sessions then s.sessions[fd].pid else INVALID_PID
  }

  predicate Addable(s: Server, ses: Session)
  {
    ses.fd >= 0 && ses.pid >= 0 && |s.sessions| < MAX_SESSION_ALARM
  }

  function AfterAdd(s: Server, ses: Session): Server
  {
    if Addable(s, ses) then s.(idxPids := s.idxPids[ses.pid := ses.fd], sessions := s.sessions[ses.fd := ses]) else s
  }

  function AfterNotifyDeleted(s: Server, ses: Session): Server
  {
    if ses.pid in s.callbacks then s.(fired := s.fired + [s.callbacks[ses.pid]], callbacks := s.callbacks - {ses.pid}) else s
  }

  function AfterDel(s: Server, fd: int): Server
  {
    if fd < 0 then s
    else
      var pid := ClientPid(s, fd);
      var unindexed := if pid > 0 then s.(idxPids := s.idxPids - {pid}) else s;
      if fd in s.sessions then
        var notified := AfterNotifyDeleted(unindexed, s.sessions[fd]);
        notified.(sessions := notified.sessions - {fd})
      else unindexed
  }

  function AfterRegister(s: Server, pid: int): Server
  {
    if pid in s.callbacks then s
    else s.(callbacks := s.callbacks[pid := s.registered], registered := s.registered + 1)
  }

  function ClientFd(s: Server, pid: int): int
  {
    if pid in s.idxPids then s.idxPids[pid] else INVALID_FD
  }

  /** What `GetSessionByPid` finds; it takes descriptor 0 for not found, and the sentinel for a descriptor. */
  function LookupByPid(s: Server, pid: int): Option<Session>
  {
    var fd := ClientFd(s, pid);
    if fd > 0 && fd in s.sessions then Some(s.sessions[fd]) else None
  }

  class StreamServer {
    var sessions: map<int, Session>
    var idxPids: map<int, int>
    var callbacks: map<int, nat>
    var registered: nat
    ghost var fired: seq<nat>

    ghost function View(): Server
      reads this
    {
      Server(sessions, idxPids, callbacks, registered, fired)
    }

    constructor ()
      ensures View() == EMPTY
    {
      sessions, idxPids, callbacks, registered, fired := map[], map[], map[], 0, [];
    }

    method GetClientPid(fd: int) returns (pid: int)
      ensures pid == ClientPid(View(), fd) && pid == if fd in sessions then sessions[fd].pid else 7
    {
      if fd !in sessions {
        return INVALID_PID;
      }
      return sessions[fd].pid;
    }

    method GetClientFd(pid: int) returns (fd: int)
      ensures fd == ClientFd(View(), pid) && fd == if pid in idxPids then idxPids[pid] else 6
    {
      if pid !in idxPids {
        return INVALID_FD;
      }
      return idxPids[pid];
    }

    method GetSession(fd: int) returns (r: Option<Session>)
      ensures r.Some? <==> fd in sessions
      ensures r.Some? ==> r.value == sessions[fd]
    {
      if fd !in sessions {
        return None;
      }
      return Some(sessions[fd]);
    }

    /** While the index agrees with the table, an indexed process gets its own session, under the indexed descriptor. */
    method GetSessionByPid(pid: int) returns (r: Option<Session>)
      ensures r == LookupByPid(View(), pid)
      ensures Agrees(View()) && pid in idxPids ==> r == if idxPids[pid] > 0 then Some(Session(idxPids[pid], pid)) else None
    {
      var fd := GetClientFd(pid);
      if fd <= 0 {
        return None;
      }
      r := GetSession(fd);
    }

    method AddSession(ses: Session) returns (ok: bool)
      modifies this
      ensures View() == AfterAdd(old(View()), ses)
      ensures ok <==> ses.fd >= 0 && ses.pid >= 0 && |old(sessions)| < 100
      ensures sessions == if ok then old(sessions)[ses.fd := ses] else old(sessions)
      ensures idxPids == if ok then old(idxPids)[ses.pid := ses.fd] else old(idxPids)
      ensures callbacks == old(callbacks) && fired == old(fired)
    {
      if ses.fd < 0 {
        return false;
      }
      if ses.pid < 0 {
        return false;
      }
      if |sessions| >= MAX_SESSION_ALARM {
        return false;
      }
      idxPids := idxPids[ses.pid := ses.fd];
      sessions := sessions[ses.fd := ses];
      return true;
    }

    method NotifySessionDeleted(ses: Session)
      modifies this
      ensures View() == AfterNotifyDeleted(old(View()), ses)
      ensures sessions == old(sessions) && idxPids == old(idxPids) && callbacks == old(callbacks) - {ses.pid}
      ensures fired == old(fired) + if ses.pid in old(callbacks) then [old(callbacks)[ses.pid]] else []
    {
      if ses.pid in callbacks {
        fired := fired + [callbacks[ses.pid]];
        callbacks := callbacks - {ses.pid};
      }
    }

    method DelSession(fd: int)
      modifies this
      ensures View() == AfterDel(old(View()), fd)
      ensures sessions == old(sessions) - {fd} || fd < 0
      ensures fd < 0 ==> View() == old(View())
      ensures fd >= 0 && fd in old(sessions) ==>
                var pid := old(sessions)[fd].pid;
                && callbacks == old(callbacks) - {pid} && (pid > 0 ==> idxPids == old(idxPids) - {pid})
                && fired == old(fired) + if pid in old(callbacks) then [old(callbacks)[pid]] else []
    {
      if fd < 0 {
        return;
      }
      var pid := GetClientPid(fd);
      if pid > 0 {
        idxPids := idxPids - {pid};
      }
      if fd in sessions {
        NotifySessionDeleted(sessions[fd]);
        sessions := sessions - {fd};
      }
    }

    method AddSessionDeletedCallback(pid: int) returns (id: nat)
      modifies this
      ensures id == old(registered) && View() == AfterRegister(old(View()), pid)
      ensures callbacks == if pid in old(callbacks) then old(callbacks) else old(callbacks)[pid := id]
      ensures sessions == old(sessions) && idxPids == old(idxPids) && fired == old(fired)
    {
      id := registered;
      if pid in callbacks {
        return;
      }
      callbacks := callbacks[pid := registered];
      registered := registered + 1;
    }
  }

  // ----- The index agrees with the table -----

  /** Sessions sit under their own descriptor, and every indexed process has a live session of its own. */
  predicate Agrees(s: Server)
  {
    && (forall fd <- s.sessions :: s.sessions[fd].fd == fd)
    && (forall pid <- s.idxPids :: s.idxPids[pid] in s.sessions && s.sessions[s.idxPids[pid]].pid == pid)
  }

  /**
   * Adding keeps the agreement if and only if no other process is indexed to the new session's descriptor. A descriptor
   * that is not in the table is always safe.
   */
  lemma AddAgreesIff(s: Server, ses: Session)
    requires Agrees(s) && Addable(s, ses)
    ensures Agrees(AfterAdd(s, ses)) <==> forall pid <- s.idxPids :: s.idxPids[pid] == ses.fd ==> pid == ses.pid
    ensures ses.fd !in s.sessions ==> Agrees(AfterAdd(s, ses))
  {
    var s' := AfterAdd(s, ses);
    if Agrees(s') {
      forall pid <- s.idxPids | s.idxPids[pid] == ses.fd ensures pid == ses.pid {
        assert pid in s'.idxPids;
      }
    }
  }

  /**
   * Deleting keeps the agreement if and only if the session deleted is not indexed under a process number below 1: such
   * an entry is made by `AddSession` but never taken out.
   */
  lemma DelAgreesIff(s: Server, fd: int)
    requires Agrees(s)
    ensures Agrees(AfterDel(s, fd)) <==>
            (0 <= fd && fd in s.sessions ==>
              var pid := s.sessions[fd].pid; pid >= 1 || pid !in s.idxPids || s.idxPids[pid] != fd)
  {
    var s' := AfterDel(s, fd);
    if fd >= 0 && fd in s.sessions {
      var pid := s.sessions[fd].pid;
      if pid in s.idxPids && s.idxPids[pid] == fd && pid <= 0 {
        assert pid in s'.idxPids;
      }
      forall p <- s'.idxPids | s'.idxPids[p] == fd ensures p == pid {
        assert p in s.idxPids;
      }
    }
  }

  /** Both conditions bite: a session of process 0, once deleted, stays in the index, */
  lemma ProcessZeroStaysIndexed()
    ensures var s := AfterAdd(EMPTY, Session(3, 0)); Agrees(s) && !Agrees(AfterDel(s, 3))
  {
    assert 0 in AfterDel(AfterAdd(EMPTY, Session(3, 0)), 3).idxPids;
  }

  /** and so does the first process of a descriptor that is registered for a second one. */
  lemma DescriptorTakenTwice()
    ensures var s := AfterAdd(EMPTY, Session(3, 5)); Agrees(s) && !Agrees(AfterAdd(s, Session(3, 6)))
  {
    assert 5 in AfterAdd(AfterAdd(EMPTY, Session(3, 5)), Session(3, 6)).idxPids;
  }

  // ----- Runs -----

  datatype Action = Add(session: Session) | Del(fd: int) | Register(pid: int)

  function Apply(s: Server, a: Action): Server
  {
    match a
    case Add(ses) => AfterAdd(s, ses)
    case Del(fd) => AfterDel(s, fd)
    case Register(pid) => AfterRegister(s, pid)
  }

  /** Sessions are added for real processes under descriptors the table does not hold. */
  predicate Proper(s: Server, a: Action)
  {
    a.Add? ==> a.session.pid >= 1 && a.session.fd !in s.sessions
  }

  ghost predicate Reaches(from: Server, actions: seq<Action>, s: Server)
    decreases |actions|
  {
    if actions == [] then s == from else Proper(from, actions[0]) && Reaches(Apply(from, actions[0]), actions[1..], s)
  }

  function Count(ns: seq<nat>, n: nat): nat
  {
    if ns == [] then 0 else Count(ns[..|ns| - 1], n) + if ns[|ns| - 1] == n then 1 else 0
  }

  /** A callback that is still registered has not fired, no two processes share one, and none fires twice. */
  ghost predicate FiresOnce(s: Server)
  {
    && (forall pid <- s.callbacks :: s.callbacks[pid] < s.registered && Count(s.fired, s.callbacks[pid]) == 0)
    && (forall p <- s.callbacks, q <- s.callbacks :: p != q ==> s.callbacks[p] != s.callbacks[q])
    && (forall n: nat :: Count(s.fired, n) <= if n < s.registered then 1 else 0)
  }

  /** Callback `n` is registered for some process and waits for a session of it to be deleted. */
  predicate Waiting(s: Server, n: nat)
  {
    exists pid <- s.callbacks :: s.callbacks[pid] == n
  }

  /** A registered callback is still waiting, or it has fired. */
  ghost predicate FiresAtAll(s: Server)
  {
    forall n: nat :: n < s.registered ==> Waiting(s, n) || Count(s.fired, n) >= 1
  }

  ghost predicate Inv(s: Server)
  {
    Agrees(s) && FiresOnce(s) && FiresAtAll(s) && RealProcesses(s)
  }

  lemma NotifyFiresAtAll(s: Server, ses: Session)
    requires FiresAtAll(s)
    ensures FiresAtAll(AfterNotifyDeleted(s, ses))
  {
    hide Count;
    if ses.pid in s.callbacks {
      var s' := AfterNotifyDeleted(s, ses);
      forall n: nat | n < s.registered ensures Waiting(s', n) || Count(s'.fired, n) >= 1 {
        CountAppend(s.fired, s.callbacks[ses.pid], n);
        if Waiting(s, n) {
          var pid :| pid in s.callbacks && s.callbacks[pid] == n;
          assert pid != ses.pid ==> pid in s'.callbacks && s'.callbacks[pid] == n;
        }
      }
    }
  }

  lemma FiresAtAllStep(s: Server, a: Action)
    requires FiresAtAll(s)
    ensures FiresAtAll(Apply(s, a))
  {
    hide Count, AfterNotifyDeleted;
    match a
    case Add(_) =>
    case Del(fd) =>
      var pid := ClientPid(s, fd);
      var unindexed := if pid > 0 then s.(idxPids := s.idxPids - {pid}) else s;
      assert forall n: nat :: Waiting(unindexed, n) == Waiting(s, n);
      assert FiresAtAll(unindexed);
      if fd in s.sessions {
        NotifyFiresAtAll(unindexed, s.sessions[fd]);
      }
    case Register(pid) =>
      var s' := Apply(s, a);
      forall n: nat | n < s'.registered ensures Waiting(s', n) || Count(s'.fired, n) >= 1 {
        if n == s.registered && pid !in s.callbacks {
          assert s'.callbacks[pid] == n;
        } else if Waiting(s, n) {
          var p :| p in s.callbacks && s.callbacks[p] == n;
          assert s'.callbacks[p] == n;
        }
      }
  }

  lemma CountAppend(ns: seq<nat>, x: nat, n: nat)
    ensures Count(ns + [x], n) == Count(ns, n) + if x == n then 1 else 0
  {
    assert (ns + [x])[..|ns|] == ns;
  }

  lemma NotifyFiresOnce(s: Server, ses: Session)
    requires FiresOnce(s)
    ensures FiresOnce(AfterNotifyDeleted(s, ses))
  {
    hide Count;
    if ses.pid in s.callbacks {
      forall n: nat
        ensures Count(s.fired + [s.callbacks[ses.pid]], n) ==
                Count(s.fired, n) + if s.callbacks[ses.pid] == n then 1 else 0
      {
        CountAppend(s.fired, s.callbacks[ses.pid], n);
      }
    }
  }

  lemma FiresOnceStep(s: Server, a: Action)
    requires FiresOnce(s)
    ensures FiresOnce(Apply(s, a))
  {
    hide AfterNotifyDeleted;
    if a.Del? && a.fd in s.sessions {
      var pid := ClientPid(s, a.fd);
      NotifyFiresOnce(if pid > 0 then s.(idxPids := s.idxPids - {pid}) else s, s.sessions[a.fd]);
    }
    hide Count;
  }

  predicate RealProcesses(s: Server)
  {
    |s.sessions| <= MAX_SESSION_ALARM && forall fd <- s.sessions :: fd >= 0 && s.sessions[fd].pid >= 1
  }

  lemma RealProcessesStep(s: Server, a: Action)
    requires RealProcesses(s) && Proper(s, a)
    ensures RealProcesses(Apply(s, a))
  {
    if a.Del? {
      assert Apply(s, a).sessions.Keys <= s.sessions.Keys;
      SmallerTable(Apply(s, a).sessions, s.sessions);
    }
  }

  lemma SmallerTable(a: map<int, Session>, b: map<int, Session>)
    requires a.Keys <= b.Keys
    ensures |a| <= |b|
  {
    assert b.Keys == a.Keys + (b.Keys - a.Keys);
  }

  lemma AgreesStep(s: Server, a: Action)
    requires Agrees(s) && RealProcesses(s) && Proper(s, a)
    ensures Agrees(Apply(s, a))
  {
    if a.Add? && Addable(s, a.session) {
      AddAgreesIff(s, a.session);
    } else if a.Del? {
      DelAgreesIff(s, a.fd);
    }
  }

  lemma InvStep(s: Server, a: Action)
    requires Inv(s) && Proper(s, a)
    ensures Inv(Apply(s, a))
  {
    hide FiresOnce, FiresAtAll, Agrees, RealProcesses, Apply, Proper;
    FiresOnceStep(s, a);
    FiresAtAllStep(s, a);
    AgreesStep(s, a);
    RealProcessesStep(s, a);
  }

  lemma {:induction false} InvRun(from: Server, actions: seq<Action>, s: Server)
    requires Inv(from) && Reaches(from, actions, s)
    ensures Inv(s)
    decreases |actions|
  {
    if actions != [] {
      InvStep(from, actions[0]);
      hide Inv, Apply, Proper;
      InvRun(Apply(from, actions[0]), actions[1..], s);
    }
  }

  /**
   * In every run: an indexed process has a live session of its own, so two processes never share one; the table holds at
   * most 100 sessions; and a session-deleted callback that has been registered fires exactly once, unless it is still
   * waiting, and then it has not fired.
   */
  lemma IndexAgrees(actions: seq<Action>, s: Server)
    requires Reaches(EMPTY, actions, s)
    ensures forall pid <- s.idxPids ::
              s.idxPids[pid] in s.sessions && s.sessions[s.idxPids[pid]] == Session(s.idxPids[pid], pid)
    ensures forall p <- s.idxPids, q <- s.idxPids :: s.idxPids[p] == s.idxPids[q] ==> p == q
    ensures |s.sessions| <= 100
    ensures forall n: nat :: Count(s.fired, n) == if n < s.registered && !Waiting(s, n) then 1 else 0
  {
    hide Reaches;
    InvRun(EMPTY, actions, s);
    forall n: nat ensures Count(s.fired, n) == if n < s.registered && !Waiting(s, n) then 1 else 0 {
      if Waiting(s, n) {
        var pid :| pid in s.callbacks && s.callbacks[pid] == n;
      }
    }
  }

  /** Deleting a live session calls the callback that waits for its process, and no other. */
  lemma DeletionFires(s: Server, fd: int)
    requires 0 <= fd && fd in s.sessions && s.sessions[fd].pid in s.callbacks
    ensures var s' := AfterDel(s, fd);
            s'.fired == s.fired + [s.callbacks[s.sessions[fd].pid]] && s'.callbacks == s.callbacks - {s.sessions[fd].pid}
  {
  }

  /**
   * In every reachable state, looking up an indexed process gives its own session if and only if that session is not
   * under descriptor 0, which `AddSession` accepts and `GetSessionByPid` takes for a failure.
   */
  lemma LookupRightIff(actions: seq<Action>, s: Server, pid: int)
    requires Reaches(EMPTY, actions, s) && pid in s.idxPids
    ensures LookupByPid(s, pid) == Some(Session(s.idxPids[pid], pid)) <==> s.idxPids[pid] != 0
    ensures s.idxPids[pid] == 0 ==> LookupByPid(s, pid) == None && 0 in s.sessions && s.sessions[0] == Session(0, pid)
  {
    hide Reaches;
    InvRun(EMPTY, actions, s);
  }

  /**
   * For any process number, indexed or not: the lookup finds a session of that process if and only if it is indexed under
   * another descriptor than 0, or is not indexed and its session happens to sit under the sentinel descriptor. Otherwise
   * it finds nothing, or, for a number that is not indexed, the session of another process under that descriptor.
   */
  lemma LookupOwnIff(actions: seq<Action>, s: Server, pid: int)
    requires Reaches(EMPTY, actions, s)
    ensures var r := LookupByPid(s, pid);
            && (r.Some? && r.value.pid == pid <==>
                if pid in s.idxPids then s.idxPids[pid] != 0
                else INVALID_FD in s.sessions && s.sessions[INVALID_FD].pid == pid)
            && (r.Some? && r.value.pid != pid <==>
                pid !in s.idxPids && INVALID_FD in s.sessions && s.sessions[INVALID_FD].pid != pid)
  {
    hide Reaches;
    InvRun(EMPTY, actions, s);
  }

  /** A reachable live session that is never found. */
  lemma DescriptorZeroIsLost() returns (actions: seq<Action>, s: Server)
    ensures Reaches(EMPTY, actions, s) && 0 in s.sessions && s.sessions[0] == Session(0, 5)
    ensures 5 in s.idxPids && s.idxPids[5] == 0
    ensures LookupByPid(s, 5) == None
  {
    s := AfterAdd(EMPTY, Session(0, 5));
    actions := [Add(Session(0, 5))];
    assert Reaches(s, [], s);
  }

  // ----- Does the index know every session? -----

  predicate EveryoneIndexed(s: Server)
  {
    forall fd <- s.sessions :: s.sessions[fd].pid in s.idxPids
  }

  /**
   * The converse is kept by a step if and only if it does not delete a descriptor while another live session belongs to
   * the same process: `DelSession` takes the process out of the index. For a descriptor that is not in the table, that
   * process is the one whose number is the sentinel.
   */
  lemma EveryoneIndexedIff(s: Server, a: Action)
    requires Inv(s) && Proper(s, a) && EveryoneIndexed(s)
    ensures EveryoneIndexed(Apply(s, a)) <==>
            (a.Del? && a.fd >= 0 ==> forall fd <- s.sessions :: fd != a.fd ==> s.sessions[fd].pid != ClientPid(s, a.fd))
  {
    hide FiresOnce;
    if a.Del? && a.fd >= 0 {
      var s' := Apply(s, a);
      forall fd <- s.sessions | fd != a.fd ensures fd in s'.sessions && s'.sessions[fd] == s.sessions[fd] {
      }
    }
  }

  /** Two sessions of one process, of which the older one is deleted: the newer one is live and cannot be looked up. */
  lemma NewerSessionUnindexed() returns (actions: seq<Action>, s: Server)
    ensures Reaches(EMPTY, actions, s) && 4 in s.sessions && s.sessions[4].pid == 5 && 5 !in s.idxPids
  {
    var s1 := AfterAdd(EMPTY, Session(3, 5));
    var s2 := AfterAdd(s1, Session(4, 5));
    s := AfterDel(s2, 3);
    actions := [Add(Session(3, 5)), Add(Session(4, 5)), Del(3)];
    assert actions[1..][1..] == [Del(3)] && Reaches(s, [], s);
    assert Reaches(s2, [Del(3)], s) && Reaches(s1, actions[1..], s);
  }
}
