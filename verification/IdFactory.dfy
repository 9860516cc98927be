// Task ids: a counter plus the set of ids that have been given back.
module IdFactories {

  const MAX_LIMIT: int := 0x7fff_ffff

  datatype IdState = IdState(seed: int, free: set<int>)

  predicate IsLeast(m: int, s: set<int>)
  {
    m in s && forall x <- s :: m <= x
  }

  lemma Pick(s: set<int>) returns (a: int)
    requires s != {}
    ensures a in s
  {
    assert (forall x: int :: x !in s) ==> s == {};
    a :| a in s;
  }

  lemma {:induction false} LeastExists(s: set<int>)
    requires s != {}
    ensures exists m :: IsLeast(m, s)
    decreases |s|
  {
    var a := Pick(s);
    var rest := s - {a};
    if rest == {} {
      assert forall x <- s :: x == a || x in rest;
      assert IsLeast(a, s);
    } else {
      LeastExists(rest);
      var b :| IsLeast(b, rest);
      assert forall x <- s :: x == a || x in rest;
      assert IsLeast(if a < b then a else b, s);
    }
  }

  ghost function Least(s: set<int>): (m: int)
    requires s != {}
    ensures IsLeast(m, s)
  {
    LeastExists(s);
    var m :| IsLeast(m, s);
    m
  }

  ghost function Generated(s: IdState): int
  {
    if s.free != {} then Least(s.free) else if s.seed == MAX_LIMIT then 0 else s.seed
  }

  ghost function AfterGenerate(s: IdState): IdState
  {
    if s.free != {} then IdState(s.seed, s.free - {Least(s.free)})
    else if s.seed == MAX_LIMIT then s else IdState(s.seed + 1, s.free)
  }

  /** Giving an id back; ids above the counter are ignored. */
  function Recover(s: IdState, id: int): IdState
  {
    if id > s.seed then s else IdState(s.seed, s.free + {id})
  }

  class IdFactory {
    var seed: int
    var ids: set<int>

    constructor ()
      ensures State() == IdState(1, {})
    {
      seed, ids := 1, {};
    }

    function State(): IdState
      reads this
    {
      IdState(seed, ids)
    }

    method GenerateId() returns (id: int)
      modifies this
      ensures id == Generated(old(State())) && State() == AfterGenerate(old(State()))
      ensures old(ids) != {} ==> id in old(ids) && (forall x <- old(ids) :: id <= x) && ids == old(ids) - {id} && seed == old(seed)
      ensures old(ids) == {} && old(seed) != 0x7fff_ffff ==> id == old(seed) && seed == old(seed) + 1 && ids == {}
      ensures old(ids) == {} && old(seed) == 0x7fff_ffff ==> id == 0 && seed == old(seed) && ids == {}
    {
      if ids == {} {
        if seed == MAX_LIMIT {
          return 0;
        }
        id := seed;
        seed := seed + 1;
      } else {
        LeastExists(ids);
        var firstId :| firstId in ids && IsLeast(firstId, ids);  // *ids_.begin() of an ordered set
        ids := ids - {firstId};
        id := firstId;
      }
    }

    method RecoveryId(id: int)
      modifies this
      ensures State() == Recover(old(State()), id)
      ensures seed == old(seed) && ids == if id <= old(seed) then old(ids) + {id} else old(ids)
    {
      if id > seed {
        return;
      }
      ids := ids + {id};
    }
  }

  // ----- Who holds which id -----

  /**
   * The ids 1 .. seed-1 are shared out, each exactly once, between the free set, a thread in the middle of posting, and
   * the queue.
   */
  ghost predicate Shared(s: IdState, held: set<int>, queued: seq<int>)
  {
    && 1 <= s.seed
    && (forall i: int :: 1 <= i < s.seed <==> i in s.free || i in held || i in queued)
    && s.free !! held
    && (forall i <- queued :: i !in s.free && i !in held)
    && (forall i, j :: 0 <= i < j < |queued| ==> queued[i] != queued[j])
    && |s.free| + |held| + |queued| == s.seed - 1
  }

  /** The queue may hold 1001 tasks when a poster has found room for one more, so 1002 ids are never exceeded. */
  const MAX_SEED: int := 1002

  lemma GenerateShared(s: IdState, queued: seq<int>)
    requires Shared(s, {}, queued) && s.seed <= MAX_SEED && |queued| <= 1000
    ensures var id, t := Generated(s), AfterGenerate(s);
            Shared(t, {id}, queued) && t.seed <= MAX_SEED && id != 0
  {
    var id, t := Generated(s), AfterGenerate(s);
    if s.free != {} {
      assert s.free == t.free + {id};
    }
    assert id !in queued;
  }

  /**
   * The exact guard of `RecoveryId`: with the ids shared out, giving back any integer keeps them shared out if and only if
   * it lies above the counter, has been given back before, or is held by the caller. So the counter itself, the id of a
   * task still queued, 0 and every negative number break the sharing.
   */
  lemma RecoverSharedIff(s: IdState, id: int, held: set<int>, queued: seq<int>)
    requires Shared(s, held, queued)
    ensures Shared(Recover(s, id), held - {id}, queued) <==> id > s.seed || id in s.free || id in held
  {
    var t := Recover(s, id);
    if id > s.seed {
      assert held - {id} == held;
    } else if id in s.free {
      assert t.free == s.free && held - {id} == held;
    } else if id in held {
      assert held == (held - {id}) + {id};
      assert forall i: int :: i in t.free || i in held - {id} <==> i in s.free || i in held;
    } else {
      assert id in t.free && !(1 <= id < s.seed && id !in queued);
    }
  }

  /** Giving back the held id keeps the ids shared out. */
  lemma RecoverShared(s: IdState, id: int, queued: seq<int>)
    requires Shared(s, {id}, queued)
    ensures Shared(Recover(s, id), {}, queued) && Recover(s, id).seed == s.seed
  {
    RecoverSharedIff(s, id, {id}, queued);
    assert {id} - {id} == {};
    assert id in {id};
  }

  lemma PopShared(s: IdState, queued: seq<int>)
    requires queued != [] && Shared(s, {}, queued)
    ensures Shared(Recover(s, queued[0]), {}, queued[1..]) && Recover(s, queued[0]).seed == s.seed
  {
    var id, t, rest := queued[0], Recover(s, queued[0]), queued[1..];
    assert queued == [id] + rest;
    assert id in queued && id !in s.free;
    assert id !in rest;
    assert forall i <- rest :: i in queued;
    assert forall i: int :: i in queued <==> i == id || i in rest;
  }

  lemma PushShared(s: IdState, id: int, queued: seq<int>)
    requires Shared(s, {id}, queued)
    ensures Shared(s, {}, queued + [id])
  {
    assert id in {id};
  }

  /** What broken sharing means: recovering the counter, which has never been handed out, makes two later ids equal. */
  lemma RecoveringTheCounterDuplicates(seed: int)
    requires 1 <= seed < MAX_LIMIT
    ensures var s := Recover(IdState(seed, {}), seed);
            Generated(s) == Generated(AfterGenerate(s)) == seed
  {
    var s := Recover(IdState(seed, {}), seed);
    assert Least(s.free) in s.free;
  }
}
