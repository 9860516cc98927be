// The send loops of the two ends of a connection, under an arbitrary kernel.
module SendSchedules {
  import opened Common
  import opened Bytes

  const SEND_RETRY_LIMIT: nat := 32

  /** What the kernel does with one `send`: takes up to `n` bytes, asks to try again, or fails for good. */
  datatype SendResult = Takes(n: nat) | TryAgain | HardError

  type Kernel = nat -> SendResult

  /** Bytes of a `size`-byte message accepted by the first `t` calls. */
  function Accepted(kernel: Kernel, size: nat, t: nat): (n: nat)
    ensures n <= size
  {
    if t == 0 then 0
    else
      var before := Accepted(kernel, size, t - 1);
      match kernel(t - 1)
      case Takes(n) => before + Min(n, size - before)
      case TryAgain => before
      case HardError => before
  }

  predicate NoHardError(kernel: Kernel, t: nat)
  {
    forall i :: 0 <= i < t ==> kernel(i) != HardError
  }

  /** The whole message went out within `t` calls, none of which failed for good. */
  predicate DoneWithin(kernel: Kernel, size: nat, t: nat)
  {
    exists d :: 0 <= d <= t && NoHardError(kernel, d) && Accepted(kernel, size, d) == size
  }

  /** How long the loops sleep: after a partial send always; after EAGAIN only in the session's loop. */
  function Sleeps(kernel: Kernel, size: nat, t: nat, onTryAgain: bool): nat
  {
    if t == 0 then 0
    else
      Sleeps(kernel, size, t - 1, onTryAgain) +
      match kernel(t - 1)
      case Takes(_) => if Accepted(kernel, size, t) < size then 1 else 0
      case TryAgain => if onTryAgain then 1 else 0
      case HardError => 0
  }

  lemma PrefixGrows(buf: seq<Byte>, idx: nat, count: nat)
    requires idx + count <= |buf|
    ensures buf[..idx] + buf[idx..idx + count] == buf[..idx + count]
  {
  }

  /**
   * What a run of either loop reports: the wire carries exactly a prefix of the message, at most 32 calls were made and
   * none after the last needed one, and true means done within 31 calls. A message whose last byte is taken by the 32nd
   * call is complete on the wire and yet reported as a failure; that is the only such case.
   */
  ghost predicate Outcome(kernel: Kernel, buf: seq<Byte>, ok: bool, wire: seq<Byte>, tries: nat)
  {
    && tries <= SEND_RETRY_LIMIT
    && wire == buf[..Accepted(kernel, |buf|, tries)]
    && (ok <==> DoneWithin(kernel, |buf|, SEND_RETRY_LIMIT - 1))
    && (ok ==> wire == buf)
    && (!ok && wire == buf <==> DoneWithin(kernel, |buf|, SEND_RETRY_LIMIT) && !DoneWithin(kernel, |buf|, SEND_RETRY_LIMIT - 1))
    && (forall s :: 0 <= s < tries ==> Accepted(kernel, |buf|, s) < |buf|)
    && (forall s :: 0 <= s < tries - 1 ==> kernel(s) != HardError)
    && (Accepted(kernel, |buf|, tries) == |buf| || tries == SEND_RETRY_LIMIT || (0 < tries && kernel(tries - 1) == HardError))
  }

  /** The schedule and the message determine the outcome, so the two loops agree whenever they face the same kernel. */
  lemma OutcomeUnique(kernel: Kernel, buf: seq<Byte>, ok: bool, wire: seq<Byte>, tries: nat, ok': bool, wire': seq<Byte>, tries': nat)
    requires Outcome(kernel, buf, ok, wire, tries) && Outcome(kernel, buf, ok', wire', tries')
    ensures ok == ok' && wire == wire' && tries == tries'
  {
  }

  /** Closing argument shared by the loops: it ran for `tries` calls without a hard error and stopped. */
  lemma LoopEnds(kernel: Kernel, buf: seq<Byte>, tries: nat)
    requires tries <= SEND_RETRY_LIMIT && NoHardError(kernel, tries)
    requires forall s :: 0 <= s < tries ==> Accepted(kernel, |buf|, s) < |buf|
    requires Accepted(kernel, |buf|, tries) == |buf| || tries == SEND_RETRY_LIMIT
    ensures var idx := Accepted(kernel, |buf|, tries);
            Outcome(kernel, buf, tries < SEND_RETRY_LIMIT && idx == |buf|, buf[..idx], tries)
  {
    var idx := Accepted(kernel, |buf|, tries);
    if idx == |buf| {
      assert DoneWithin(kernel, |buf|, SEND_RETRY_LIMIT);
    }
    if DoneWithin(kernel, |buf|, SEND_RETRY_LIMIT - 1) {
      var d :| 0 <= d <= SEND_RETRY_LIMIT - 1 && NoHardError(kernel, d) && Accepted(kernel, |buf|, d) == |buf|;
      assert d >= tries;
    }
    if DoneWithin(kernel, |buf|, SEND_RETRY_LIMIT) {
      var d :| 0 <= d <= SEND_RETRY_LIMIT && NoHardError(kernel, d) && Accepted(kernel, |buf|, d) == |buf|;
      assert d >= tries;
    }
  }

  lemma HardErrorEnds(kernel: Kernel, buf: seq<Byte>, tries: nat)
    requires 0 < tries <= SEND_RETRY_LIMIT && NoHardError(kernel, tries - 1) && kernel(tries - 1) == HardError
    requires forall s :: 0 <= s < tries ==> Accepted(kernel, |buf|, s) < |buf|
    ensures Outcome(kernel, buf, false, buf[..Accepted(kernel, |buf|, tries)], tries)
  {
    forall d: nat | NoHardError(kernel, d) ensures Accepted(kernel, |buf|, d) < |buf| {
      assert d < tries;
    }
  }

  // ----- What the kernel offers to take -----

  /** How many bytes the first `t` calls would take of a message without end. */
  function Offered(kernel: Kernel, t: nat): nat
  {
    if t == 0 then 0 else Offered(kernel, t - 1) + if kernel(t - 1).Takes? then kernel(t - 1).n else 0
  }

  /** The loops waste none of it: whatever the calls would take is taken, up to the end of the message. */
  lemma {:induction false} AcceptedIsOffered(kernel: Kernel, size: nat, t: nat)
    ensures Accepted(kernel, size, t) == Min(Offered(kernel, t), size)
    decreases t
  {
    if t > 0 {
      AcceptedIsOffered(kernel, size, t - 1);
    }
  }

  /** A message is done within `t` calls exactly when some calls without a hard error among them would take all of it. */
  lemma DoneIffOffered(kernel: Kernel, size: nat, t: nat)
    ensures DoneWithin(kernel, size, t) <==>
            exists d :: 0 <= d <= t && Offered(kernel, d) >= size && forall i :: 0 <= i < d ==> !kernel(i).HardError?
  {
    hide Accepted;
    forall d: nat ensures Accepted(kernel, size, d) == Min(Offered(kernel, d), size) {
      AcceptedIsOffered(kernel, size, d);
    }
    if DoneWithin(kernel, size, t) {
      var d :| 0 <= d <= t && NoHardError(kernel, d) && Accepted(kernel, size, d) == size;
      assert Offered(kernel, d) >= size;
    }
    if exists d :: 0 <= d <= t && Offered(kernel, d) >= size && forall i :: 0 <= i < d ==> !kernel(i).HardError? {
      var d :| 0 <= d <= t && Offered(kernel, d) >= size && forall i :: 0 <= i < d ==> !kernel(i).HardError?;
      assert NoHardError(kernel, d) && Accepted(kernel, size, d) == size;
    }
  }

  /** A kernel that takes the whole message at once gets it in one call. */
  lemma SentAtOnce(kernel: Kernel, buf: seq<Byte>, ok: bool, wire: seq<Byte>, tries: nat)
    requires buf != [] && kernel(0).Takes? && kernel(0).n >= |buf| && Outcome(kernel, buf, ok, wire, tries)
    ensures ok && wire == buf && tries == 1
  {
    AcceptedIsOffered(kernel, |buf|, 1);
    assert Offered(kernel, 0) == 0 && Offered(kernel, 1) == kernel(0).n;
    assert NoHardError(kernel, 1);
    assert DoneWithin(kernel, |buf|, SEND_RETRY_LIMIT - 1);
  }

  /**
   * How often the loops sleep, while no call fails for good: the session's after every call but the one that finishes
   * the message, the client's only after those of them that took something.
   */
  lemma {:induction false} SleepsCounted(kernel: Kernel, size: nat, t: nat)
    requires 0 < size && NoHardError(kernel, t) && forall s :: 0 <= s < t ==> Accepted(kernel, size, s) < size
    ensures Sleeps(kernel, size, t, true) == if Accepted(kernel, size, t) == size then t - 1 else t
    ensures Sleeps(kernel, size, t, true) == Sleeps(kernel, size, t, false) + TryAgains(kernel, t)
    decreases t
  {
    if t > 0 {
      SleepsCounted(kernel, size, t - 1);
    }
  }

  function TryAgains(kernel: Kernel, t: nat): nat
  {
    if t == 0 then 0 else TryAgains(kernel, t - 1) + if kernel(t - 1) == TryAgain then 1 else 0
  }

  lemma {:induction false} OneByteEach(kernel: Kernel, size: nat, t: nat)
    requires forall i :: kernel(i) == Takes(1)
    ensures Accepted(kernel, size, t) == Min(t, size)
    decreases t
  {
    if t > 0 {
      OneByteEach(kernel, size, t - 1);
    }
  }

  /** The false failure at work: 32 bytes, of which every call takes one, all arrive and yet are reported as not sent. */
  lemma FalseFailure(buf: seq<Byte>) returns (kernel: Kernel)
    requires |buf| == 32
    ensures DoneWithin(kernel, |buf|, 32) && !DoneWithin(kernel, |buf|, 31)
    ensures Outcome(kernel, buf, false, buf, 32)
  {
    kernel := _ => Takes(1);
    forall t: nat ensures Accepted(kernel, |buf|, t) == Min(t, |buf|) {
      OneByteEach(kernel, |buf|, t);
    }
    hide Accepted;
    LoopEnds(kernel, buf, SEND_RETRY_LIMIT);
    assert buf[..SEND_RETRY_LIMIT] == buf;
  }
}

module StreamSessions {
  import opened Common
  import opened Bytes
  import opened StreamBuffers
  import opened NetPackets
  import opened SendSchedules

  /** `StreamSession::SendMsg`: `wire` is what the peer will read, `naps` how often the loop slept. */
  method SendMsg(fd: int, buf: seq<Byte>, kernel: Kernel) returns (ok: bool, ghost wire: seq<Byte>, tries: nat, naps: nat)
    ensures if fd < 0 || |buf| == 0 || |buf| > MAX_STREAM_BUF_SIZE then !ok && wire == [] && tries == 0
            else Outcome(kernel, buf, ok, wire, tries)
    ensures naps == Sleeps(kernel, |buf|, tries, true)
  {
    hide Outcome, DoneWithin;
    tries, naps, wire := 0, 0, [];
    var size := |buf|;
    if size == 0 || size > MAX_STREAM_BUF_SIZE || fd < 0 {
      return false, wire, tries, naps;
    }
    var idx, remSize := 0, size;
    while remSize > 0 && tries < SEND_RETRY_LIMIT
      invariant 0 <= tries <= SEND_RETRY_LIMIT && remSize == size - idx
      invariant idx == Accepted(kernel, size, tries) && wire == buf[..idx]
      invariant NoHardError(kernel, tries)
      invariant forall s :: 0 <= s < tries ==> Accepted(kernel, size, s) < size
      invariant naps == Sleeps(kernel, size, tries, true)
    {
      tries := tries + 1;
      match kernel(tries - 1)
      case TryAgain =>
        naps := naps + 1;
      case HardError =>
        HardErrorEnds(kernel, buf, tries);
        return false, wire, tries, naps;
      case Takes(n) =>
        var count := Min(n, remSize);
        PrefixGrows(buf, idx, count);
        wire := wire + buf[idx..idx + count];
        idx, remSize := idx + count, remSize - count;
        if remSize > 0 {
          naps := naps + 1;
        }
    }
    LoopEnds(kernel, buf, tries);
    ok := !(tries >= SEND_RETRY_LIMIT || remSize != 0);
  }

  /** The kernel took the whole frame of a packet small enough for `MakeData`, and the loop reported success. */
  ghost predicate Sent(p: Packet, kernel: Kernel, wire: seq<Byte>)
  {
    |p.payload| <= MAX_PAYLOAD && exists tries: nat :: Outcome(kernel, Frame(p), true, wire, tries)
  }

  /** `SendMsg(NetPacket &)`: prints the packet into a fresh buffer and sends that; a packet in error is not sent. */
  method SendPacket(fd: int, pkt: NetPacket, kernel: Kernel) returns (ok: bool, ghost wire: seq<Byte>)
    requires pkt.Valid()
    ensures pkt.Valid() && pkt.Value() == old(pkt.Value())
    ensures wire <= Frame(pkt.Value())
    ensures ok <==> && fd >= 0 && pkt.data.rwErrorStatus == StatusOk && |pkt.Value().payload| <= MAX_PAYLOAD
                    && DoneWithin(kernel, |Frame(pkt.Value())|, SEND_RETRY_LIMIT - 1)
    ensures ok ==> wire == Frame(pkt.Value()) && Sent(pkt.Value(), kernel, wire)
  {
    wire := [];
    if pkt.data.rwErrorStatus != StatusOk {
      return false, wire;
    }
    var made, buf := Print(pkt);
    if !made {
      return false, wire;
    }
    var tries, naps;
    ok, wire, tries, naps := SendMsg(fd, buf.szBuff[..buf.wPos], kernel);
  }
}

module StreamClients {
  import opened Common
  import opened Bytes
  import opened StreamBuffers
  import opened SendSchedules

  /** `StreamClient::SendMsg`: the same loop, except that it does not sleep when the kernel says to try again. */
  method SendMsg(fd: int, buf: seq<Byte>, kernel: Kernel) returns (ok: bool, ghost wire: seq<Byte>, tries: nat, naps: nat)
    ensures if fd < 0 || |buf| == 0 || |buf| > MAX_STREAM_BUF_SIZE then !ok && wire == [] && tries == 0
            else Outcome(kernel, buf, ok, wire, tries)
    ensures naps == Sleeps(kernel, |buf|, tries, false)
  {
    hide Outcome, DoneWithin;
    tries, naps, wire := 0, 0, [];
    var size := |buf|;
    if size == 0 || size > MAX_STREAM_BUF_SIZE || fd < 0 {
      return false, wire, tries, naps;
    }
    var idx, remSize := 0, size;
    while remSize > 0 && tries < SEND_RETRY_LIMIT
      invariant 0 <= tries <= SEND_RETRY_LIMIT && remSize == size - idx
      invariant idx == Accepted(kernel, size, tries) && wire == buf[..idx]
      invariant NoHardError(kernel, tries)
      invariant forall s :: 0 <= s < tries ==> Accepted(kernel, size, s) < size
      invariant naps == Sleeps(kernel, size, tries, false)
    {
      tries := tries + 1;
      match kernel(tries - 1)
      case TryAgain =>
      case HardError =>
        HardErrorEnds(kernel, buf, tries);
        return false, wire, tries, naps;
      case Takes(number) =>
        var count := Min(number, remSize);
        PrefixGrows(buf, idx, count);
        wire := wire + buf[idx..idx + count];
        idx, remSize := idx + count, remSize - count;
        if remSize > 0 {
          naps := naps + 1;
        }
    }
    LoopEnds(kernel, buf, tries);
    ok := !(tries >= SEND_RETRY_LIMIT || remSize != 0);
  }
}

// From one end's `SendMsg` calls to the other end's callback.
module EndToEnd {
  import opened Bytes
  import opened StreamBuffers
  import opened NetPackets
  import opened StreamSockets
  import opened SendSchedules
  import opened StreamSessions

  /** Each packet was sent by a call of `SendPacket` that reported success, and put its wire on the connection. */
  ghost predicate AllSent(ps: seq<Packet>, kernels: seq<Kernel>, wires: seq<seq<Byte>>)
  {
    |ps| == |kernels| == |wires| && forall i :: 0 <= i < |ps| ==> Sent(ps[i], kernels[i], wires[i])
  }

  lemma {:induction false} AllSentStream(ps: seq<Packet>, kernels: seq<Kernel>, wires: seq<seq<Byte>>)
    requires AllSent(ps, kernels, wires)
    ensures Sendable(ps) && Concat(wires) == Stream(ps)
  {
    forall p <- ps ensures |p.payload| <= MAX_PAYLOAD {
      var i :| 0 <= i < |ps| && ps[i] == p;
      assert Sent(ps[i], kernels[i], wires[i]);
    }
    if ps != [] {
      assert Sent(ps[0], kernels[0], wires[0]);
      assert wires[0] == Frame(ps[0]);
      hide Frame, Sent;
      AllSentStream(ps[1..], kernels[1..], wires[1..]);
    }
  }

  /**
   * End to end: if every `SendPacket` reported success, whatever partial sends and retries it met, and the receiver's chunks
   * are any cut of what went over the wire in which each chunk fits on arrival, the receiver sees exactly the packets
   * sent, in order.
   */
  lemma SentPacketsArrive(
      ps: seq<Packet>, kernels: seq<Kernel>, wires: seq<seq<Byte>>, chunks: seq<seq<Byte>>, future: seq<Byte>)
    requires AllSent(ps, kernels, wires)
    requires Concat(chunks) + future == Concat(wires) && AllFit(FRESH, chunks)
    ensures var c := ReceiveAll(FRESH, chunks);
            c.status == StatusOk && c.delivered + Decode(c.unread + future) == ps
  {
    AllSentStream(ps, kernels, wires);
    FramingSurvives(ps, chunks, future);
  }
}
