// The incremental frame parser and the receive loop that feeds it.
module StreamSockets {
  import opened Common
  import opened Bytes
  import opened StreamBuffers
  import CircleStreamBuffers
  import opened NetPackets

  const MAX_PACKET_BUF_SIZE: int := MAX_STREAM_BUF_SIZE
  const ONCE_PROCESS_NETPACKET_LIMIT: nat := 100

  // ----- What the parser recognises -----

  datatype Parsed = NeedMore | Corrupt | Got(packet: Packet, rest: seq<Byte>)

  /** The first frame of `bytes`, if it is complete and its header is acceptable. */
  function ParseOne(bytes: seq<Byte>): Parsed
  {
    if |bytes| < HEAD_SIZE then NeedMore
    else
      var size := DecodeInt32(bytes[4..HEAD_SIZE]);
      if size < 0 || size > MAX_PACKET_BUF_SIZE then Corrupt
      else if size > |bytes| - HEAD_SIZE then NeedMore
      else Got(Packet(DecodeInt32(bytes[..4]), bytes[HEAD_SIZE..HEAD_SIZE + size]), bytes[HEAD_SIZE + size..])
  }

  /** What one call takes off the front of the unread bytes, and whether the call ended in a reset. */
  datatype Batch = Batch(packets: seq<Packet>, rest: seq<Byte>, reset: bool, corrupt: bool)

  function ParseUpTo(limit: nat, bytes: seq<Byte>): (b: Batch)
    ensures |b.packets| <= limit && |b.rest| <= |bytes|
    ensures forall p <- b.packets :: |p.payload| <= MAX_PACKET_BUF_SIZE
    decreases |bytes|
  {
    if limit == 0 then Batch([], bytes, false, false)
    else
      match ParseOne(bytes)
      case NeedMore => Batch([], bytes, false, false)
      case Corrupt => Batch([], [], true, true)
      case Got(p, rest) =>
        if rest == [] then Batch([p], [], true, false)
        else
          var b := ParseUpTo(limit - 1, rest);
          b.(packets := [p] + b.packets)
  }

  /** All packets that can be read off `bytes`, without any limit per call. */
  function Decode(bytes: seq<Byte>): seq<Packet>
  {
    ParseUpTo(|bytes|, bytes).packets
  }

  /** The concatenated frames of a list of packets. */
  function Stream(ps: seq<Packet>): seq<Byte>
    requires forall p <- ps :: |p.payload| <= MAX_PACKET_BUF_SIZE
  {
    if ps == [] then [] else Frame(ps[0]) + Stream(ps[1..])
  }

  // ----- The code -----

  /** `NetPacket pkt(idMsg)` filled from the buffer: a packet buffer has room for every size that passed the checks. */
  method FillPacket(idMsg: Int32, payload: seq<Byte>) returns (pkt: NetPacket)
    requires |payload| <= MAX_PACKET_BUF_SIZE
    ensures fresh(pkt.data) && fresh(pkt.data.szBuff) && pkt.Valid() && pkt.Value() == Packet(idMsg, payload)
  {
    pkt := new NetPacket(idMsg);
    if |payload| > 0 {
      var written := pkt.data.Write(payload);
      assert written;  // the branch that would retry later is never taken
    }
  }

  lemma SliceTail(s: seq<Byte>, lo: nat, hi: nat, k: nat)
    requires lo + k <= hi <= |s|
    ensures s[lo + k..hi] == s[lo..hi][k..]
  {
  }

  /** One iteration of the loop in `OnReadPackets`, up to the callback; not `taken` means that the loop breaks here. */
  method ReadPacket(circBuf: StreamBuffer) returns (taken: bool, packet: Packet)
    requires circBuf.Valid()
    modifies circBuf
    ensures circBuf.Valid()
    ensures match ParseOne(old(circBuf.Unread()))
            case NeedMore => !taken && circBuf.Unread() == old(circBuf.Unread())
            case Corrupt => !taken && circBuf.Unread() == []
            case Got(p, rest) => taken && packet == p && circBuf.Unread() == rest
    ensures circBuf.rwErrorStatus == if ParseOne(old(circBuf.Unread())).Corrupt? then StatusOk else old(circBuf.rwErrorStatus)
  {
    hide DecodeInt32;
    packet := Packet(0, []);
    var residualSize := circBuf.ResidualSize();
    var buf := circBuf.szBuff[circBuf.rPos..circBuf.wPos];
    if residualSize < HEAD_SIZE {
      return false, packet;
    }
    var dataSize := residualSize - HEAD_SIZE;
    var idMsg, size := DecodeInt32(buf[..4]), DecodeInt32(buf[4..HEAD_SIZE]);
    if size < 0 || size > MAX_PACKET_BUF_SIZE {
      circBuf.Reset();
      return false, packet;
    }
    if size > dataSize {
      return false, packet;
    }
    var payload := buf[HEAD_SIZE..HEAD_SIZE + size];
    assert ParseOne(buf) == Got(Packet(idMsg, payload), buf[HEAD_SIZE + size..]);
    hide ParseOne;
    var pkt := FillPacket(idMsg, payload);
    var length := pkt.GetPacketLength();
    SliceTail(circBuf.szBuff[..], circBuf.rPos, circBuf.wPos, length);
    var sought := circBuf.SeekReadPos(length);
    assert sought;  // the whole frame is unread: the branch that would reset the buffer is never taken
    return true, Packet(pkt.msgId, pkt.data.szBuff[..pkt.data.wPos]);
  }

  /** The outcome of a call that has already delivered some packets and has `limit` iterations left. */
  ghost function Resume(delivered: seq<Packet>, limit: nat, bytes: seq<Byte>): Batch
  {
    var b := ParseUpTo(limit, bytes);
    b.(packets := delivered + b.packets)
  }

  lemma ResumeStep(delivered: seq<Packet>, limit: nat, bytes: seq<Byte>)
    requires limit > 0
    ensures Resume(delivered, limit, bytes) ==
            match ParseOne(bytes)
            case NeedMore => Batch(delivered, bytes, false, false)
            case Corrupt => Batch(delivered, [], true, true)
            case Got(p, rest) =>
              if rest == [] then Batch(delivered + [p], [], true, false) else Resume(delivered + [p], limit - 1, rest)
  {
    match ParseOne(bytes)
    case NeedMore =>
    case Corrupt =>
    case Got(p, rest) =>
      if rest != [] {
        var b := ParseUpTo(limit - 1, rest);
        assert delivered + ([p] + b.packets) == delivered + [p] + b.packets;
      }
  }

  /** `OnReadPackets`: hands at most 100 complete packets to the callback, in order. */
  method OnReadPackets(circBuf: StreamBuffer) returns (delivered: seq<Packet>)
    requires circBuf.Valid()
    modifies circBuf
    ensures circBuf.Valid()
    ensures var b := ParseUpTo(ONCE_PROCESS_NETPACKET_LIMIT, old(circBuf.Unread()));
            && delivered == b.packets && circBuf.Unread() == b.rest
            && circBuf.rwErrorStatus == if b.reset then StatusOk else old(circBuf.rwErrorStatus)
  {
    delivered := [];
    ghost var all := ParseUpTo(ONCE_PROCESS_NETPACKET_LIMIT, circBuf.Unread());
    var i := 0;
    while i < ONCE_PROCESS_NETPACKET_LIMIT
      invariant 0 <= i <= ONCE_PROCESS_NETPACKET_LIMIT && circBuf.Valid()
      invariant circBuf.rwErrorStatus == old(circBuf.rwErrorStatus)
      invariant all == Resume(delivered, ONCE_PROCESS_NETPACKET_LIMIT - i, circBuf.Unread())
    {
      ResumeStep(delivered, ONCE_PROCESS_NETPACKET_LIMIT - i, circBuf.Unread());
      var taken, packet := ReadPacket(circBuf);
      if !taken {
        break;
      }
      delivered := delivered + [packet];
      if circBuf.rPos == circBuf.wPos {
        circBuf.Reset();
        break;
      }
      i := i + 1;
    }
  }

  // ----- One connection: chunks in, packets out -----

  /** The abstract state of a connection: its circular buffer and all packets handed out so far. */
  datatype Conn = Conn(unread: seq<Byte>, status: ErrorStatus, delivered: seq<Packet>)

  const FRESH: Conn := Conn([], StatusOk, [])

  predicate Fits(c: Conn, chunk: seq<Byte>)
  {
    c.status == StatusOk && |c.unread| + |chunk| <= MAX_STREAM_BUF_SIZE
  }

  /** One received chunk: buffered if it fits and dropped whole if not; then the parser runs in either case. */
  function Receive(c: Conn, chunk: seq<Byte>): Conn
  {
    var b := ParseUpTo(ONCE_PROCESS_NETPACKET_LIMIT, if Fits(c, chunk) then c.unread + chunk else c.unread);
    Conn(b.rest, if b.reset then StatusOk else c.status, c.delivered + b.packets)
  }

  function ReceiveAll(c: Conn, chunks: seq<seq<Byte>>): Conn
    decreases |chunks|
  {
    if chunks == [] then c else ReceiveAll(Receive(c, chunks[0]), chunks[1..])
  }

  predicate AllFit(c: Conn, chunks: seq<seq<Byte>>)
    decreases |chunks|
  {
    if chunks == [] then true else Fits(c, chunks[0]) && AllFit(Receive(c, chunks[0]), chunks[1..])
  }

  function Concat(chunks: seq<seq<Byte>>): seq<Byte>
  {
    if chunks == [] then [] else chunks[0] + Concat(chunks[1..])
  }

  /** What one `recv` call can return. */
  datatype RecvResult = Data(bytes: seq<Byte>) | Again | Failed | Closed

  const MAX_RECV_LIMIT: nat := 13

  predicate LegalRecv(r: RecvResult)
  {
    r.Data? ==> 0 < |r.bytes| <= MAX_PACKET_BUF_SIZE
  }

  /** The chunks one readiness event takes from the socket: up to 13 tries, ending early on a short read. */
  function Drained(recv: seq<RecvResult>, i: nat): seq<seq<Byte>>
    requires i <= MAX_RECV_LIMIT == |recv|
    decreases MAX_RECV_LIMIT - i
  {
    if i == MAX_RECV_LIMIT then []
    else
      match recv[i]
      case Data(bytes) => [bytes] + if |bytes| < MAX_PACKET_BUF_SIZE then [] else Drained(recv, i + 1)
      case Again => Drained(recv, i + 1)
      case Failed => []
      case Closed => []
  }

  /** A failure, the end of the stream, and a short read end the event. */
  predicate EndsEvent(r: RecvResult)
  {
    r.Failed? || r.Closed? || (r.Data? && |r.bytes| < MAX_PACKET_BUF_SIZE)
  }

  function ReceiveResult(c: Conn, r: RecvResult): Conn
  {
    if r.Data? then Receive(c, r.bytes) else c
  }

  /** One more `recv` call. */
  lemma DrainedUnfold(c: Conn, recv: seq<RecvResult>, i: nat)
    requires i < MAX_RECV_LIMIT == |recv|
    ensures ReceiveAll(c, Drained(recv, i)) ==
            if EndsEvent(recv[i]) then ReceiveResult(c, recv[i])
            else ReceiveAll(ReceiveResult(c, recv[i]), Drained(recv, i + 1))
  {
    hide Receive;
    if recv[i].Data? {
      var bytes := recv[i].bytes;
      assert ([bytes] + Drained(recv, i + 1))[1..] == Drained(recv, i + 1);
      if |bytes| < MAX_PACKET_BUF_SIZE {
        assert Drained(recv, i) == [bytes] && [bytes][1..] == [];
      }
    }
  }

  lemma DrainedAll(c: Conn, recv: seq<RecvResult>)
    requires MAX_RECV_LIMIT == |recv|
    ensures ReceiveAll(c, Drained(recv, MAX_RECV_LIMIT)) == c
  {
  }

  /** One iteration of the loop in `OnEpollRecv`; the result of writing to the buffer is ignored. */
  method ReceiveOnce(buf: StreamBuffer, r: RecvResult, before: seq<Packet>) returns (delivered: seq<Packet>, stop: bool)
    requires buf.Valid() && LegalRecv(r)
    modifies buf, buf.szBuff
    ensures buf.Valid() && stop == EndsEvent(r)
    ensures Conn(buf.Unread(), buf.rwErrorStatus, delivered) ==
            ReceiveResult(Conn(old(buf.Unread()), old(buf.rwErrorStatus), before), r)
  {
    hide ParseUpTo;
    delivered, stop := before, false;
    match r
    case Data(bytes) =>
      var _ := CircleStreamBuffers.Write(buf, bytes);
      var packets := OnReadPackets(buf);
      delivered := before + packets;
      stop := |bytes| < MAX_PACKET_BUF_SIZE;
    case Again =>
    case Failed =>
      stop := true;
    case Closed =>
      stop := true;
  }

  /** `OnEpollRecv`, with `recv[i]` the outcome of its i-th call to the kernel. */
  method OnEpollRecv(buf: StreamBuffer, recv: seq<RecvResult>) returns (delivered: seq<Packet>)
    requires buf.Valid()
    requires |recv| == MAX_RECV_LIMIT && forall i :: 0 <= i < |recv| ==> LegalRecv(recv[i])
    modifies buf, buf.szBuff
    ensures buf.Valid()
    ensures Conn(buf.Unread(), buf.rwErrorStatus, delivered) ==
            ReceiveAll(Conn(old(buf.Unread()), old(buf.rwErrorStatus), []), Drained(recv, 0))
  {
    hide ReceiveResult, ReceiveAll, Drained, EndsEvent, LegalRecv, StreamBuffer.Unread;
    delivered := [];
    ghost var all := ReceiveAll(Conn(buf.Unread(), buf.rwErrorStatus, []), Drained(recv, 0));
    var i := 0;
    while i < MAX_RECV_LIMIT
      invariant 0 <= i <= MAX_RECV_LIMIT && buf.Valid()
      invariant all == ReceiveAll(Conn(buf.Unread(), buf.rwErrorStatus, delivered), Drained(recv, i))
    {
      DrainedUnfold(Conn(buf.Unread(), buf.rwErrorStatus, delivered), recv, i);
      var stop;
      delivered, stop := ReceiveOnce(buf, recv[i], delivered);
      if stop {
        return;
      }
      i := i + 1;
    }
    DrainedAll(Conn(buf.Unread(), buf.rwErrorStatus, delivered), recv);
  }

  // ----- The parser against the printer -----

  predicate Sendable(ps: seq<Packet>)
  {
    forall p <- ps :: |p.payload| <= MAX_PAYLOAD
  }

  lemma ParseFrame(p: Packet, rest: seq<Byte>)
    requires |p.payload| <= MAX_PACKET_BUF_SIZE
    ensures ParseOne(Frame(p) + rest) == Got(p, rest)
  {
    var bytes := Frame(p) + rest;
    assert bytes == Header(p.id, |p.payload|) + (p.payload + rest);
    HeaderFields(p.id, |p.payload|, p.payload + rest);
    assert bytes[HEAD_SIZE..HEAD_SIZE + |p.payload|] == p.payload;
    assert bytes[HEAD_SIZE + |p.payload|..] == rest;
  }

  /** A proper prefix of a frame is never mistaken for a packet nor for garbage. */
  lemma ParsePartialFrame(p: Packet, bytes: seq<Byte>)
    requires |p.payload| <= MAX_PACKET_BUF_SIZE
    requires |bytes| < |Frame(p)| && bytes == Frame(p)[..|bytes|]
    ensures ParseOne(bytes) == NeedMore
  {
    if |bytes| >= HEAD_SIZE {
      HeaderFields(p.id, |p.payload|, p.payload);
      assert bytes[4..HEAD_SIZE] == Frame(p)[4..HEAD_SIZE];
    }
  }

  lemma SplitPrefix<T>(a: seq<T>, b: seq<T>, c: seq<T>, d: seq<T>)
    requires a + b == c + d
    ensures |a| < |c| ==> a == c[..|a|]
    ensures |a| >= |c| ==> a == c + a[|c|..] && a[|c|..] + b == d
  {
    if |a| < |c| {
      assert a == (a + b)[..|a|] == (c + d)[..|a|];
    } else {
      assert a[..|c|] == (a + b)[..|c|] == c;
      assert a[|c|..] + b == (a + b)[|c|..] == d;
    }
  }

  /** The first step against a prefix of a stream: the first packet comes off, or nothing does. */
  lemma ParseOneOfStream(bytes: seq<Byte>, future: seq<Byte>, p: Packet, tail: seq<Byte>) returns (complete: bool, rest: seq<Byte>)
    requires |p.payload| <= MAX_PACKET_BUF_SIZE
    requires bytes + future == Frame(p) + tail
    ensures complete ==> ParseOne(bytes) == Got(p, rest) && rest + future == tail
    ensures !complete ==> ParseOne(bytes) == NeedMore && future != []
  {
    SplitPrefix(bytes, future, Frame(p), tail);
    complete := |bytes| >= |Frame(p)|;
    if complete {
      rest := bytes[|Frame(p)|..];
      ParseFrame(p, rest);
    } else {
      rest := [];
      ParsePartialFrame(p, bytes);
    }
  }

  lemma TakeOne(limit: nat, bytes: seq<Byte>, p: Packet, rest: seq<Byte>)
    requires limit > 0 && ParseOne(bytes) == Got(p, rest)
    ensures var b, tail := ParseUpTo(limit, bytes), ParseUpTo(limit - 1, rest);
            b.packets == [p] + tail.packets && b.rest == tail.rest && b.corrupt == tail.corrupt
  {
    assert ParseOne([]) == NeedMore;
    hide ParseOne;
  }

  lemma TakeNone(limit: nat, bytes: seq<Byte>)
    requires limit == 0 || ParseOne(bytes) == NeedMore
    ensures ParseUpTo(limit, bytes) == Batch([], bytes, false, false)
  {
    hide ParseOne;
  }

  lemma ParseNothing()
    ensures ParseOne([]) == NeedMore
  {
  }

  lemma SplitCons<T>(s: seq<T>, j: nat)
    requires j < |s|
    ensures s[..j + 1] == [s[0]] + s[1..][..j] && s[j + 1..] == s[1..][j..]
  {
  }

  /** Against any prefix of a stream of frames, a call delivers the next packets in order and leaves the rest aligned. */
  lemma {:induction false} ParseStreamPrefix(limit: nat, bytes: seq<Byte>, future: seq<Byte>, ps: seq<Packet>) returns (k: nat)
    requires forall p <- ps :: |p.payload| <= MAX_PACKET_BUF_SIZE
    requires bytes + future == Stream(ps)
    ensures k <= |ps| && ParseUpTo(limit, bytes).packets == ps[..k] && !ParseUpTo(limit, bytes).corrupt
    ensures ParseUpTo(limit, bytes).rest + future == Stream(ps[k..])
    ensures future == [] ==> k == if |ps| <= limit then |ps| else limit
    decreases limit
  {
    hide ParseOne, Frame, ParseUpTo;
    k := 0;
    assert ps[0..] == ps;
    if limit == 0 {
      TakeNone(limit, bytes);
    } else if ps == [] {
      ParseNothing();
      TakeNone(limit, bytes);
    } else {
      var complete, rest := ParseOneOfStream(bytes, future, ps[0], Stream(ps[1..]));
      if complete {
        TakeOne(limit, bytes, ps[0], rest);
        hide Stream;
        var j := ParseStreamPrefix(limit - 1, rest, future, ps[1..]);
        k := j + 1;
        SplitCons(ps, j);
      } else {
        TakeNone(limit, bytes);
      }
    }
  }

  /** Reading back a printed stream gives the packets that were printed. */
  lemma DecodeStream(ps: seq<Packet>)
    requires forall p <- ps :: |p.payload| <= MAX_PACKET_BUF_SIZE
    ensures Decode(Stream(ps)) == ps
  {
    StreamLength(ps);
    assert Stream(ps) + [] == Stream(ps);
    var k := ParseStreamPrefix(|Stream(ps)|, Stream(ps), [], ps);
    assert ps[..|ps|] == ps;
  }

  lemma {:induction false} StreamLength(ps: seq<Packet>)
    requires forall p <- ps :: |p.payload| <= MAX_PACKET_BUF_SIZE
    ensures |Stream(ps)| >= HEAD_SIZE * |ps|
  {
    if ps != [] {
      StreamLength(ps[1..]);
    }
  }

  lemma {:induction false} StreamAppend(ps: seq<Packet>, qs: seq<Packet>)
    requires forall p <- ps + qs :: |p.payload| <= MAX_PACKET_BUF_SIZE
    requires forall p <- ps :: |p.payload| <= MAX_PACKET_BUF_SIZE
    requires forall p <- qs :: |p.payload| <= MAX_PACKET_BUF_SIZE
    ensures Stream(ps + qs) == Stream(ps) + Stream(qs)
  {
    hide Frame;
    if ps == [] {
      assert ps + qs == qs;
    } else {
      assert (ps + qs)[1..] == ps[1..] + qs;
      StreamAppend(ps[1..], qs);
    }
  }

  /** What the parser recognises is what the printer would have written. */
  lemma PrintParsed(bytes: seq<Byte>)
    requires ParseOne(bytes).Got?
    ensures var r := ParseOne(bytes);
            |r.packet.payload| <= MAX_PACKET_BUF_SIZE && Frame(r.packet) + r.rest == bytes
  {
    hide DecodeInt32, EncodeInt32;
    var id, size := bytes[..4], bytes[4..HEAD_SIZE];
    var n := DecodeInt32(size);
    var payload, rest := bytes[HEAD_SIZE..HEAD_SIZE + n], bytes[HEAD_SIZE + n..];
    assert ParseOne(bytes) == Got(Packet(DecodeInt32(id), payload), rest);
    hide ParseOne;
    EncodeDecodeInt32(id);
    EncodeDecodeInt32(size);
    assert id + size + payload + rest == bytes;
  }

  lemma StreamCons(p: Packet, ps: seq<Packet>)
    requires |p.payload| <= MAX_PACKET_BUF_SIZE && forall q <- ps :: |q.payload| <= MAX_PACKET_BUF_SIZE
    ensures Stream([p] + ps) == Frame(p) + Stream(ps)
  {
    assert ([p] + ps)[1..] == ps;
  }

  /** Any call that meets no corrupt header conserves bytes: printing what it delivered gives what it consumed. */
  lemma {:induction false} ParseConserves(limit: nat, bytes: seq<Byte>)
    ensures var b := ParseUpTo(limit, bytes);
            if b.corrupt then |Stream(b.packets)| + |b.rest| <= |bytes| else Stream(b.packets) + b.rest == bytes
    decreases limit
  {
    hide ParseOne, Frame, Stream;
    if limit > 0 && ParseOne(bytes).Got? {
      hide ParseUpTo;
      PrintParsed(bytes);
      var r := ParseOne(bytes);
      TakeOne(limit, bytes, r.packet, r.rest);
      ParseConserves(limit - 1, r.rest);
      var tail := ParseUpTo(limit - 1, r.rest);
      StreamCons(r.packet, tail.packets);
      Regroup(Frame(r.packet), Stream(tail.packets), tail.rest);
    } else if limit > 0 && ParseOne(bytes).Corrupt? {
      assert ParseUpTo(limit, bytes) == Batch([], [], true, true);
      StreamOfNone(bytes);
    } else {
      TakeNone(limit, bytes);
      StreamOfNone(bytes);
    }
  }

  lemma StreamOfNone(bytes: seq<Byte>)
    ensures Stream([]) == [] && Stream([]) + bytes == bytes
  {
  }

  // ----- Framing survives fragmentation -----

  /** The connection has handed out the first `k` packets and holds the stream from packet `k` on, up to `future`. */
  ghost predicate Aligned(c: Conn, future: seq<Byte>, ps: seq<Packet>)
    requires Sendable(ps)
  {
    && c.status == StatusOk
    && |c.delivered| <= |ps| && c.delivered == ps[..|c.delivered|]
    && c.unread + future == Stream(ps[|c.delivered|..])
  }

  lemma ReceiveAligned(c: Conn, chunk: seq<Byte>, future: seq<Byte>, ps: seq<Packet>)
    requires Sendable(ps) && Aligned(c, chunk + future, ps) && Fits(c, chunk)
    ensures Aligned(Receive(c, chunk), future, ps)
  {
    hide Stream, ParseUpTo;
    var n := |c.delivered|;
    assert (c.unread + chunk) + future == c.unread + (chunk + future);
    var k := ParseStreamPrefix(ONCE_PROCESS_NETPACKET_LIMIT, c.unread + chunk, future, ps[n..]);
    assert ps[n..][k..] == ps[n + k..];
    assert ps[..n] + ps[n..][..k] == ps[..n + k];
  }

  lemma {:induction false} ReceiveAllAligned(c: Conn, chunks: seq<seq<Byte>>, future: seq<Byte>, ps: seq<Packet>)
    requires Sendable(ps) && Aligned(c, Concat(chunks) + future, ps) && AllFit(c, chunks)
    ensures Aligned(ReceiveAll(c, chunks), future, ps)
    decreases |chunks|
  {
    hide Aligned, Receive, Fits;
    if chunks == [] {
      assert Concat(chunks) + future == future;
    } else {
      assert Concat(chunks) + future == chunks[0] + (Concat(chunks[1..]) + future);
      ReceiveAligned(c, chunks[0], Concat(chunks[1..]) + future, ps);
      ReceiveAllAligned(Receive(c, chunks[0]), chunks[1..], future, ps);
    }
  }

  lemma TransferAligned(ps: seq<Packet>, chunks: seq<seq<Byte>>, future: seq<Byte>)
    requires Sendable(ps) && Concat(chunks) + future == Stream(ps)
    requires AllFit(FRESH, chunks)
    ensures Aligned(ReceiveAll(FRESH, chunks), future, ps)
  {
    hide Stream, ReceiveAll, AllFit, Concat;
    assert ps[0..] == ps && ps[..0] == [] && FRESH.unread + (Concat(chunks) + future) == Concat(chunks) + future;
    ReceiveAllAligned(FRESH, chunks, future, ps);
  }

  /**
   * Framing survives any fragmentation. However the stream of a list of sendable packets is cut into chunks, as long as
   * every chunk fits when it arrives: the packets handed out so far, followed by those still to be read from the buffer
   * and from the bytes to come, are exactly the packets sent. It holds after every chunk, since the chunks still to come
   * are arbitrary.
   */
  lemma FramingSurvives(ps: seq<Packet>, chunks: seq<seq<Byte>>, future: seq<Byte>)
    requires Sendable(ps) && Concat(chunks) + future == Stream(ps)
    requires AllFit(FRESH, chunks)
    ensures var c := ReceiveAll(FRESH, chunks);
            c.status == StatusOk && c.delivered + Decode(c.unread + future) == ps
  {
    hide Stream, Decode, ReceiveAll, AllFit;
    TransferAligned(ps, chunks, future);
    var c := ReceiveAll(FRESH, chunks);
    DecodeStream(ps[|c.delivered|..]);
  }

  /** Every byte of a connection that is neither in a delivered packet nor in the buffer has been lost. */
  function Kept(c: Conn): nat
    requires forall p <- c.delivered :: |p.payload| <= MAX_PACKET_BUF_SIZE
  {
    |Stream(c.delivered)| + |c.unread|
  }

  lemma ReceiveKeeps(c: Conn, chunk: seq<Byte>)
    requires forall p <- c.delivered :: |p.payload| <= MAX_PACKET_BUF_SIZE
    ensures var d := Receive(c, chunk);
            && (forall p <- d.delivered :: |p.payload| <= MAX_PACKET_BUF_SIZE)
            && Kept(d) <= Kept(c) + if Fits(c, chunk) then |chunk| else 0
  {
    var bytes := if Fits(c, chunk) then c.unread + chunk else c.unread;
    ParseConserves(ONCE_PROCESS_NETPACKET_LIMIT, bytes);
    var b := ParseUpTo(ONCE_PROCESS_NETPACKET_LIMIT, bytes);
    hide ParseUpTo, Stream;
    StreamAppend(c.delivered, b.packets);
  }

  lemma {:induction false} ReceiveAllKeeps(c: Conn, chunks: seq<seq<Byte>>)
    requires forall p <- c.delivered :: |p.payload| <= MAX_PACKET_BUF_SIZE
    requires forall chunk <- chunks :: 0 < |chunk|
    ensures var d := ReceiveAll(c, chunks);
            && (forall p <- d.delivered :: |p.payload| <= MAX_PACKET_BUF_SIZE)
            && Kept(d) <= Kept(c) + |Concat(chunks)|
            && (!AllFit(c, chunks) ==> Kept(d) < Kept(c) + |Concat(chunks)|)
    decreases |chunks|
  {
    hide Kept, Receive, Fits;
    if chunks != [] {
      ReceiveKeeps(c, chunks[0]);
      ReceiveAllKeeps(Receive(c, chunks[0]), chunks[1..]);
    }
  }

  lemma AlignedLossless(c: Conn, future: seq<Byte>, ps: seq<Packet>)
    requires Sendable(ps) && Aligned(c, future, ps)
    ensures Stream(c.delivered) + c.unread + future == Stream(ps)
  {
    hide Stream;
    var n := |c.delivered|;
    assert ps[..n] + ps[n..] == ps;
    StreamAppend(ps[..n], ps[n..]);
    assert Stream(c.delivered) + c.unread + future == Stream(c.delivered) + (c.unread + future);
  }

  /** The condition is exact: a transfer loses nothing if and only if every chunk fits when it arrives. */
  lemma LosslessIffAllFit(ps: seq<Packet>, chunks: seq<seq<Byte>>, future: seq<Byte>)
    requires Sendable(ps) && Concat(chunks) + future == Stream(ps)
    requires forall chunk <- chunks :: 0 < |chunk|
    ensures var c := ReceiveAll(FRESH, chunks);
            && (forall p <- c.delivered :: |p.payload| <= MAX_PACKET_BUF_SIZE)
            && (AllFit(FRESH, chunks) <==> Stream(c.delivered) + c.unread + future == Stream(ps))
  {
    hide ReceiveAll, AllFit, Frame;
    var c := ReceiveAll(FRESH, chunks);
    ReceiveAllKeeps(FRESH, chunks);
    if AllFit(FRESH, chunks) {
      TransferAligned(ps, chunks, future);
      AlignedLossless(c, future, ps);
    } else {
      assert |Stream(ps)| == |Concat(chunks)| + |future|;
    }
  }

  lemma DecodeKeeps(bytes: seq<Byte>)
    ensures forall p <- Decode(bytes) :: |p.payload| <= MAX_PACKET_BUF_SIZE
    ensures |Stream(Decode(bytes))| <= |bytes|
  {
    hide ParseUpTo, Stream;
    ParseConserves(|bytes|, bytes);
  }

  /** The same in terms of packets: the receiver gets those sent if and only if every chunk fits when it arrives. */
  lemma PacketsArriveIffAllFit(ps: seq<Packet>, chunks: seq<seq<Byte>>, future: seq<Byte>)
    requires Sendable(ps) && Concat(chunks) + future == Stream(ps)
    requires forall chunk <- chunks :: 0 < |chunk|
    ensures var c := ReceiveAll(FRESH, chunks);
            AllFit(FRESH, chunks) <==> c.delivered + Decode(c.unread + future) == ps
  {
    hide ReceiveAll, AllFit, Stream, Decode, Concat;
    var c := ReceiveAll(FRESH, chunks);
    var others := Decode(c.unread + future);
    if AllFit(FRESH, chunks) {
      FramingSurvives(ps, chunks, future);
    } else {
      ReceiveAllKeeps(FRESH, chunks);
      StreamOfNone([]);
      DecodeKeeps(c.unread + future);
      assert |Stream(ps)| == |Concat(chunks)| + |future|;
      if c.delivered + others == ps {
        StreamAppend(c.delivered, others);
      }
    }
  }

  /**
   * Not every way in which `recv` may cut a stream meets the condition: two packets of the greatest size, received as one
   * byte, then a full 2048-byte chunk, then the rest. The second chunk finds a byte in the buffer and is dropped whole.
   */
  lemma SomeFragmentationLoses() returns (ps: seq<Packet>, chunks: seq<seq<Byte>>)
    ensures Sendable(ps) && Concat(chunks) == Stream(ps)
    ensures forall chunk <- chunks :: 0 < |chunk| <= MAX_PACKET_BUF_SIZE
    ensures !AllFit(FRESH, chunks)
  {
    hide Frame, Stream;
    var p := Packet(0, seq(MAX_PAYLOAD, _ => 0));
    ps := [p, p];
    var s := Stream(ps);
    TwoFrames(p);
    chunks := [s[..1], s[1..MAX_STREAM_BUF_SIZE + 1], s[MAX_STREAM_BUF_SIZE + 1..]];
    ConcatOfThree(chunks);
    assert Concat(chunks) == s;
    hide Concat;
    TakeNone(ONCE_PROCESS_NETPACKET_LIMIT, FRESH.unread + chunks[0]);
    hide ParseUpTo, ParseOne;
    assert Receive(FRESH, chunks[0]).unread == chunks[0];
  }

  lemma TwoFrames(p: Packet)
    requires |p.payload| == MAX_PAYLOAD
    ensures |Stream([p, p])| == 2 * MAX_STREAM_BUF_SIZE
  {
    hide Frame;
    assert [p, p] == [p] + [p] && [p] == [p] + [];
    StreamCons(p, [p]);
    StreamCons(p, []);
  }

  lemma ConcatOfThree(chunks: seq<seq<Byte>>)
    requires |chunks| == 3
    ensures Concat(chunks) == chunks[0] + chunks[1] + chunks[2]
  {
    var two, one := chunks[1..], chunks[2..];
    assert two[1..] == one && one[1..] == [];
    assert Concat(one) == chunks[2] + [] == chunks[2];
    assert Concat(two) == chunks[1] + chunks[2];
    assert chunks[0] + (chunks[1] + chunks[2]) == chunks[0] + chunks[1] + chunks[2];
  }

  // ----- Limits of the parser -----

  /** A call that delivers fewer than `limit` packets leaves no complete frame behind. */
  lemma {:induction false} UnderTheCap(limit: nat, bytes: seq<Byte>)
    ensures var b := ParseUpTo(limit, bytes); |b.packets| < limit ==> ParseOne(b.rest) == NeedMore
    decreases limit
  {
    ParseNothing();
    hide ParseOne;
    if limit > 0 && ParseOne(bytes).Got? {
      UnderTheCap(limit - 1, ParseOne(bytes).rest);
    }
  }

  /**
   * What the cap of 100 holds back. Once every byte of the stream has arrived, the last call hands out the next 100
   * packets, or all that are left; so it hands out everything if and only if at most 100 were left. The others stay in
   * the buffer, whole and in order, until the peer sends something else.
   */
  lemma AllArrivedIffAtMost100(ps: seq<Packet>, chunks: seq<seq<Byte>>, last: seq<Byte>)
    requires Sendable(ps) && Concat(chunks) + last == Stream(ps)
    requires AllFit(FRESH, chunks) && Fits(ReceiveAll(FRESH, chunks), last)
    ensures var before := ReceiveAll(FRESH, chunks);
            var after := Receive(before, last);
            && |before.delivered| <= |after.delivered| <= |ps| && after.delivered == ps[..|after.delivered|]
            && after.unread == Stream(ps[|after.delivered|..])
            && |after.delivered| == Min(|ps|, |before.delivered| + ONCE_PROCESS_NETPACKET_LIMIT)
            && (after.delivered == ps <==> |ps| - |before.delivered| <= ONCE_PROCESS_NETPACKET_LIMIT)
  {
    hide ReceiveAll, AllFit, Stream, ParseUpTo;
    var before := ReceiveAll(FRESH, chunks);
    TransferAligned(ps, chunks, last);
    assert last + [] == last;
    ReceiveAligned(before, last, [], ps);
    var after := Receive(before, last);
    assert after.unread + [] == after.unread;
    assert (before.unread + last) + [] == Stream(ps[|before.delivered|..]);
    var k := ParseStreamPrefix(ONCE_PROCESS_NETPACKET_LIMIT, before.unread + last, [], ps[|before.delivered|..]);
    assert ps[..|ps|] == ps;
  }

  /** `n` packets without payload. */
  function Empties(n: nat): seq<Packet>
  {
    seq(n, _ => Packet(0, []))
  }

  lemma {:induction false} EmptyStream(ps: seq<Packet>)
    requires forall p <- ps :: p.payload == []
    ensures |Stream(ps)| == HEAD_SIZE * |ps|
  {
    hide Header;
    if ps != [] {
      EmptyStream(ps[1..]);
    }
  }

  /** All bytes of `n` empty packets, in one chunk on a new connection. */
  lemma EmptiesArrive(n: nat) returns (chunk: seq<Byte>, c: Conn)
    requires HEAD_SIZE * n <= MAX_STREAM_BUF_SIZE
    ensures Sendable(Empties(n)) && chunk == Stream(Empties(n)) && |chunk| == HEAD_SIZE * n
    ensures c == Receive(FRESH, chunk) && c.status == StatusOk
    ensures |c.delivered| == Min(n, ONCE_PROCESS_NETPACKET_LIMIT) && |c.unread| == HEAD_SIZE * (n - |c.delivered|)
  {
    hide Stream, Receive;
    var ps := Empties(n);
    chunk := Stream(ps);
    EmptyStream(ps);
    c := Receive(FRESH, chunk);
    NoChunks(chunk);
    AllArrivedIffAtMost100(ps, [], chunk);
    ReceiveStatus(FRESH, chunk);
    EmptyStream(ps[|c.delivered|..]);
  }

  lemma NoChunks(bytes: seq<Byte>)
    ensures Concat([]) + bytes == bytes && AllFit(FRESH, []) && ReceiveAll(FRESH, []) == FRESH
  {
  }

  lemma ReceiveStatus(c: Conn, chunk: seq<Byte>)
    requires c.status == StatusOk
    ensures Receive(c, chunk).status == StatusOk
  {
    hide ParseUpTo;
  }

  /** 101 packets in 808 bytes: the last one is not handed out, although nothing is missing. */
  lemma CapHoldsBack() returns (chunk: seq<Byte>)
    ensures Sendable(Empties(101)) && chunk == Stream(Empties(101)) && |chunk| <= MAX_PACKET_BUF_SIZE
    ensures var c := Receive(FRESH, chunk);
            |c.delivered| == 100 && c.delivered != Empties(101) && |c.unread| == 8
  {
    var c;
    chunk, c := EmptiesArrive(101);
  }

  /**
   * The cap can also lose packets: 255 of them in one chunk leave so much unread that the same chunk, which would fit an
   * empty buffer, is dropped whole when it comes again.
   */
  lemma CapLoses() returns (chunk: seq<Byte>)
    ensures Sendable(Empties(255)) && chunk == Stream(Empties(255)) && |chunk| <= MAX_PACKET_BUF_SIZE
    ensures Fits(FRESH, chunk) && !AllFit(FRESH, [chunk, chunk])
    ensures var c := Receive(FRESH, chunk);
            !Fits(c, chunk) && Kept(c) + |chunk| > Kept(Receive(c, chunk))
  {
    var c;
    chunk, c := EmptiesArrive(255);
    hide Receive, Stream, Kept;
    ReceiveKeeps(FRESH, chunk);
    ReceiveKeeps(c, chunk);
    assert [chunk, chunk][1..] == [chunk];
  }

  // ----- A static condition -----

  /** Less than a frame is unread: everything that has arrived whole has been handed out. */
  ghost predicate CaughtUp(c: Conn, ps: seq<Packet>)
    requires Sendable(ps)
  {
    && |c.delivered| <= |ps|
    && if |c.delivered| == |ps| then c.unread == [] else |c.unread| < |Frame(ps[|c.delivered|])|
  }

  lemma WholeFrameTaken(bytes: seq<Byte>, future: seq<Byte>, p: Packet, tail: seq<Byte>)
    requires |p.payload| <= MAX_PACKET_BUF_SIZE
    requires bytes + future == Frame(p) + tail && ParseOne(bytes) == NeedMore
    ensures |bytes| < |Frame(p)|
  {
    hide Frame, ParseOne;
    if |bytes| >= |Frame(p)| {
      SplitPrefix(bytes, future, Frame(p), tail);
      ParseFrame(p, bytes[|Frame(p)|..]);
    }
  }

  /** What one call leaves when it cannot have reached its cap. */
  lemma ShortBatch(bytes: seq<Byte>, future: seq<Byte>, ps: seq<Packet>) returns (k: nat)
    requires Sendable(ps) && bytes + future == Stream(ps) && |bytes| < HEAD_SIZE * (ONCE_PROCESS_NETPACKET_LIMIT + 1)
    ensures var b := ParseUpTo(ONCE_PROCESS_NETPACKET_LIMIT, bytes);
            && k <= |ps| && b.packets == ps[..k] && b.rest + future == Stream(ps[k..])
            && if k == |ps| then b.rest == [] else |b.rest| < |Frame(ps[k])|
  {
    hide ParseUpTo, Frame;
    k := ParseStreamPrefix(ONCE_PROCESS_NETPACKET_LIMIT, bytes, future, ps);
    var b := ParseUpTo(ONCE_PROCESS_NETPACKET_LIMIT, bytes);
    ParseConserves(ONCE_PROCESS_NETPACKET_LIMIT, bytes);
    StreamLength(b.packets);
    assert |Stream(b.packets)| + |b.rest| == |bytes|;
    if k == |ps| {
      assert ps[k..] == [];
    } else if |b.packets| == ONCE_PROCESS_NETPACKET_LIMIT {
      assert |b.rest| < HEAD_SIZE <= |Frame(ps[k])|;
    } else {
      UnderTheCap(ONCE_PROCESS_NETPACKET_LIMIT, bytes);
      WholeFrameTaken(b.rest, future, ps[k], Stream(ps[k..][1..]));
    }
  }

  lemma ReceiveCaughtUp(c: Conn, chunk: seq<Byte>, future: seq<Byte>, ps: seq<Packet>)
    requires Sendable(ps) && Aligned(c, chunk + future, ps) && Fits(c, chunk)
    requires |c.unread| + |chunk| < HEAD_SIZE * (ONCE_PROCESS_NETPACKET_LIMIT + 1)
    ensures Aligned(Receive(c, chunk), future, ps) && CaughtUp(Receive(c, chunk), ps)
  {
    hide Stream, ParseUpTo, Frame;
    ReceiveAligned(c, chunk, future, ps);
    var n := |c.delivered|;
    assert (c.unread + chunk) + future == c.unread + (chunk + future);
    var k := ShortBatch(c.unread + chunk, future, ps[n..]);
  }

  lemma {:induction false} ReceiveAllCaughtUp(
      c: Conn, chunks: seq<seq<Byte>>, future: seq<Byte>, ps: seq<Packet>, longestFrame: nat, longestChunk: nat)
    requires Sendable(ps) && Aligned(c, Concat(chunks) + future, ps) && CaughtUp(c, ps)
    requires HEAD_SIZE <= longestFrame && longestFrame - 1 + longestChunk < HEAD_SIZE * (ONCE_PROCESS_NETPACKET_LIMIT + 1)
    requires (forall p <- ps :: |Frame(p)| <= longestFrame) && forall chunk <- chunks :: |chunk| <= longestChunk
    ensures AllFit(c, chunks) && CaughtUp(ReceiveAll(c, chunks), ps)
    decreases |chunks|
  {
    hide Aligned, Receive, Frame;
    if chunks != [] {
      assert |c.unread| < longestFrame;
      assert c.status == StatusOk by {
        AlignedStatus(c, Concat(chunks) + future, ps);
      }
      assert Concat(chunks) + future == chunks[0] + (Concat(chunks[1..]) + future);
      ReceiveCaughtUp(c, chunks[0], Concat(chunks[1..]) + future, ps);
      ReceiveAllCaughtUp(Receive(c, chunks[0]), chunks[1..], future, ps, longestFrame, longestChunk);
    }
  }

  lemma AlignedStatus(c: Conn, future: seq<Byte>, ps: seq<Packet>)
    requires Sendable(ps) && Aligned(c, future, ps)
    ensures c.status == StatusOk
  {
  }

  /**
   * A condition that can be checked beforehand. If the longest frame and the longest chunk together have at most 808
   * bytes, every chunk fits and the cap is never felt: after every chunk all packets that have arrived whole have been
   * handed out, and in the end all have.
   */
  lemma SmallChunksArrive(
      ps: seq<Packet>, chunks: seq<seq<Byte>>, future: seq<Byte>, longestFrame: nat, longestChunk: nat)
    requires Sendable(ps) && Concat(chunks) + future == Stream(ps)
    requires HEAD_SIZE <= longestFrame && longestFrame + longestChunk <= HEAD_SIZE * (ONCE_PROCESS_NETPACKET_LIMIT + 1)
    requires (forall p <- ps :: |Frame(p)| <= longestFrame) && forall chunk <- chunks :: |chunk| <= longestChunk
    ensures AllFit(FRESH, chunks) && CaughtUp(ReceiveAll(FRESH, chunks), ps)
    ensures future == [] ==> ReceiveAll(FRESH, chunks).delivered == ps
  {
    hide AllFit, ReceiveAll, Frame, Concat;
    assert ps[0..] == ps && [] + (Concat(chunks) + future) == Concat(chunks) + future;
    ReceiveAllCaughtUp(FRESH, chunks, future, ps, longestFrame, longestChunk);
    ReceiveAllAligned(FRESH, chunks, future, ps);
    var c := ReceiveAll(FRESH, chunks);
    assert future == [] ==> c.unread + future == c.unread;
    assert ps[..|ps|] == ps;
  }

  /** The size field of a buffered header. */
  function HeadSize(bytes: seq<Byte>): Int32
    requires |bytes| >= HEAD_SIZE
  {
    DecodeInt32(bytes[4..HEAD_SIZE])
  }

  lemma {:induction false} OversizedHeaderWedges(c: Conn, chunks: seq<seq<Byte>>)
    requires HEAD_SIZE <= |c.unread| <= MAX_STREAM_BUF_SIZE
    requires MAX_PAYLOAD < HeadSize(c.unread) <= MAX_PACKET_BUF_SIZE
    ensures ReceiveAll(c, chunks).delivered == c.delivered
    decreases |chunks|
  {
    hide DecodeInt32;
    if chunks != [] {
      var bytes := if Fits(c, chunks[0]) then c.unread + chunks[0] else c.unread;
      assert bytes[4..HEAD_SIZE] == c.unread[4..HEAD_SIZE];
      assert Receive(c, chunks[0]) == c.(unread := bytes);
      OversizedHeaderWedges(Receive(c, chunks[0]), chunks[1..]);
    }
  }

  lemma LegalHeaderCompletes(c: Conn) returns (chunk: seq<Byte>)
    requires c.status == StatusOk && HEAD_SIZE <= |c.unread|
    requires 0 <= HeadSize(c.unread) <= MAX_PAYLOAD && ParseOne(c.unread) == NeedMore
    ensures Fits(c, chunk) && 0 < |chunk| && |Receive(c, chunk).delivered| == |c.delivered| + 1
  {
    hide DecodeInt32;
    var size := HeadSize(c.unread);
    chunk := seq(HEAD_SIZE + size - |c.unread|, _ => 0);
    var bytes := c.unread + chunk;
    assert bytes[4..HEAD_SIZE] == c.unread[4..HEAD_SIZE];
    assert ParseOne(bytes).Got? && ParseOne(bytes).rest == [];
  }

  /**
   * The parser accepts a header with any size up to 2048, but the whole frame has to fit a 2048-byte buffer. A connection
   * waiting for the rest of a frame can ever deliver again if and only if the announced payload is at most 2040 bytes.
   */
  lemma DeliversAgainIff(c: Conn)
    requires c.status == StatusOk && HEAD_SIZE <= |c.unread| <= MAX_STREAM_BUF_SIZE && ParseOne(c.unread) == NeedMore
    ensures (exists chunks :: ReceiveAll(c, chunks).delivered != c.delivered) <==> HeadSize(c.unread) <= MAX_PAYLOAD
  {
    hide Receive;
    if HeadSize(c.unread) <= MAX_PAYLOAD {
      var chunk := LegalHeaderCompletes(c);
      var chunks := [chunk];
      assert chunks[1..] == [];
      assert ReceiveAll(c, chunks).delivered != c.delivered;
    } else {
      forall chunks ensures ReceiveAll(c, chunks).delivered == c.delivered {
        OversizedHeaderWedges(c, chunks);
      }
    }
  }

  /** Eight bytes do it: a header that announces 2041 bytes or more is accepted on a new connection, and wedges it. */
  lemma HeaderWedges(id: Int32, size: Int32)
    requires 2041 <= size <= 2048
    ensures Fits(FRESH, Header(id, size)) && Receive(FRESH, Header(id, size)) == FRESH.(unread := Header(id, size))
    ensures forall chunks :: ReceiveAll(FRESH.(unread := Header(id, size)), chunks).delivered == []
  {
    hide DecodeInt32, Header, ReceiveAll;
    var bytes := Header(id, size);
    HeaderFields(id, size, []);
    assert bytes + [] == bytes && [] + bytes == bytes;
    forall chunks ensures ReceiveAll(FRESH.(unread := bytes), chunks).delivered == [] {
      OversizedHeaderWedges(FRESH.(unread := bytes), chunks);
    }
  }

  // ----- Recovery from a corrupt header -----

  lemma CorruptBySize(bytes: seq<Byte>)
    requires HEAD_SIZE <= |bytes|
    ensures ParseOne(bytes).Corrupt? <==> !(0 <= HeadSize(bytes) <= MAX_PACKET_BUF_SIZE)
    ensures ParseOne(bytes).NeedMore? <==> 0 <= HeadSize(bytes) <= MAX_PACKET_BUF_SIZE && |bytes| < HEAD_SIZE + HeadSize(bytes)
  {
    hide DecodeInt32;
  }

  /** A header counts as corrupt exactly when no bytes behind it could ever make it a packet; waiting would be forever. */
  lemma CorruptIffHopeless(bytes: seq<Byte>)
    requires HEAD_SIZE <= |bytes|
    ensures ParseOne(bytes).Corrupt? <==> forall more :: !ParseOne(bytes + more).Got?
  {
    hide ParseOne, DecodeInt32;
    CorruptBySize(bytes);
    forall more ensures HeadSize(bytes + more) == HeadSize(bytes) {
      assert (bytes + more)[4..HEAD_SIZE] == bytes[4..HEAD_SIZE];
    }
    hide HeadSize;
    forall more ensures ParseOne(bytes + more).Corrupt? == ParseOne(bytes).Corrupt? {
      CorruptBySize(bytes + more);
    }
    if !ParseOne(bytes).Corrupt? {
      var more := seq(HeadSize(bytes), _ => 0 as Byte);
      CorruptBySize(bytes + more);
      assert ParseOne(bytes + more).Got?;
    }
  }

  /** Whole frames and then garbage: the packets come out, the garbage is thrown away with all that follows it. */
  lemma {:induction false} ParseUntilCorrupt(limit: nat, ps: seq<Packet>, garbage: seq<Byte>)
    requires (forall p <- ps :: |p.payload| <= MAX_PACKET_BUF_SIZE) && |ps| < limit && ParseOne(garbage).Corrupt?
    ensures ParseUpTo(limit, Stream(ps) + garbage) == Batch(ps, [], true, true)
    decreases |ps|
  {
    hide Frame, ParseOne, ParseUpTo;
    if ps == [] {
      assert Stream(ps) + garbage == garbage;
      TakeCorrupt(limit, garbage);
    } else {
      var rest := Stream(ps[1..]) + garbage;
      Regroup(Frame(ps[0]), Stream(ps[1..]), garbage);
      ParseFrame(ps[0], rest);
      TakeOne(limit, Stream(ps) + garbage, ps[0], rest);
      ParseUntilCorrupt(limit - 1, ps[1..], garbage);
      CorruptReset(limit, Stream(ps) + garbage);
      assert [ps[0]] + ps[1..] == ps;
    }
  }

  lemma TakeCorrupt(limit: nat, bytes: seq<Byte>)
    requires limit > 0 && ParseOne(bytes).Corrupt?
    ensures ParseUpTo(limit, bytes) == Batch([], [], true, true)
  {
    hide ParseOne;
  }

  lemma {:induction false} CorruptReset(limit: nat, bytes: seq<Byte>)
    ensures var b := ParseUpTo(limit, bytes); b.corrupt ==> b.reset && b.rest == []
    decreases limit
  {
    hide ParseOne;
    if limit > 0 && ParseOne(bytes).Got? {
      CorruptReset(limit - 1, ParseOne(bytes).rest);
    }
  }

  /** What has been delivered plays no part in what is delivered next. */
  lemma {:induction false} DeliveredBefore(c: Conn, chunks: seq<seq<Byte>>)
    ensures var blank := Conn(c.unread, c.status, []);
            && AllFit(c, chunks) == AllFit(blank, chunks)
            && ReceiveAll(c, chunks).unread == ReceiveAll(blank, chunks).unread
            && ReceiveAll(c, chunks).status == ReceiveAll(blank, chunks).status
            && ReceiveAll(c, chunks).delivered == c.delivered + ReceiveAll(blank, chunks).delivered
    decreases |chunks|
  {
    hide ParseUpTo;
    var blank := Conn(c.unread, c.status, []);
    if chunks == [] {
      assert c.delivered + [] == c.delivered;
    } else {
      var next, blankNext := Receive(c, chunks[0]), Receive(blank, chunks[0]);
      DeliveredBefore(next, chunks[1..]);
      DeliveredBefore(blankNext, chunks[1..]);
      assert blankNext.delivered == [] + blankNext.delivered && next.delivered == c.delivered + blankNext.delivered;
      hide ReceiveAll, AllFit, Receive;
      var rest := ReceiveAll(Conn(next.unread, next.status, []), chunks[1..]).delivered;
      Regroup(c.delivered, blankNext.delivered, rest);
    }
  }

  /**
   * A corrupt header costs a connection what has arrived behind it, and nothing else: the packets before it are handed
   * out, and from then on the connection behaves as a new one.
   */
  lemma CorruptHeaderRecovers(c: Conn, chunk: seq<Byte>, ps: seq<Packet>, garbage: seq<Byte>, later: seq<seq<Byte>>)
    requires Fits(c, chunk) && (forall p <- ps :: |p.payload| <= MAX_PACKET_BUF_SIZE) && |ps| < ONCE_PROCESS_NETPACKET_LIMIT
    requires c.unread + chunk == Stream(ps) + garbage && ParseOne(garbage).Corrupt?
    ensures var d := Receive(c, chunk);
            && d == Conn([], StatusOk, c.delivered + ps)
            && AllFit(d, later) == AllFit(FRESH, later)
            && ReceiveAll(d, later).delivered == c.delivered + ps + ReceiveAll(FRESH, later).delivered
  {
    hide ParseOne, Stream, ReceiveAll, AllFit;
    ParseUntilCorrupt(ONCE_PROCESS_NETPACKET_LIMIT, ps, garbage);
    hide ParseUpTo;
    DeliveredBefore(Receive(c, chunk), later);
  }

  /** For example: a header announcing 3000 bytes is forgotten at once, and the next packets arrive. */
  lemma OversizedHeaderForgotten(id: Int32, ps: seq<Packet>, chunks: seq<seq<Byte>>)
    requires Sendable(ps) && Concat(chunks) == Stream(ps) && AllFit(FRESH, chunks)
    ensures var d := Receive(FRESH, Header(id, 3000));
            var c := ReceiveAll(d, chunks);
            d == FRESH && c.delivered + Decode(c.unread) == ps
  {
    hide DecodeInt32, Header, ReceiveAll, AllFit, Decode, Stream, Concat;
    var bytes := Header(id, 3000);
    HeaderFields(id, 3000, []);
    assert bytes + [] == bytes && [] + bytes == bytes;
    CorruptBySize(bytes);
    StreamOfNone(bytes);
    CorruptHeaderRecovers(FRESH, bytes, [], bytes, chunks);
    assert Concat(chunks) + [] == Concat(chunks);
    FramingSurvives(ps, chunks, []);
    var c := ReceiveAll(FRESH, chunks);
    assert c.unread + [] == c.unread;
  }

  // ----- The parser runs whether or not the chunk was kept -----

  /** A chunk that is dropped still makes the parser hand out the next packets that are waiting in the buffer. */
  lemma DroppedChunkStillDelivers(c: Conn, chunk: seq<Byte>, ps: seq<Packet>)
    requires !Fits(c, chunk) && (forall p <- ps :: |p.payload| <= MAX_PACKET_BUF_SIZE) && c.unread == Stream(ps)
    ensures var k := Min(|ps|, ONCE_PROCESS_NETPACKET_LIMIT);
            var d := Receive(c, chunk);
            d.delivered == c.delivered + ps[..k] && d.unread == Stream(ps[k..])
  {
    hide ParseUpTo, Stream;
    assert c.unread + [] == c.unread;
    var k := ParseStreamPrefix(ONCE_PROCESS_NETPACKET_LIMIT, c.unread, [], ps);
    var b := ParseUpTo(ONCE_PROCESS_NETPACKET_LIMIT, c.unread);
    assert b.rest + [] == b.rest;
  }

  /** A call that hands out everything, and a call that meets garbage, leave a buffer that is empty and free of error. */
  lemma EmptiedIsClean(c: Conn, chunk: seq<Byte>)
    ensures var d := Receive(c, chunk); d.unread == [] && d.delivered != c.delivered ==> d.status == StatusOk
  {
    var bytes := if Fits(c, chunk) then c.unread + chunk else c.unread;
    ParsedOutIsReset(ONCE_PROCESS_NETPACKET_LIMIT, bytes);
    hide ParseUpTo;
  }

  lemma {:induction false} ParsedOutIsReset(limit: nat, bytes: seq<Byte>)
    ensures var b := ParseUpTo(limit, bytes); b.rest == [] && b.packets != [] ==> b.reset
    decreases limit
  {
    hide ParseOne;
    ParseNothing();
    if limit > 0 && ParseOne(bytes).Got? {
      ParsedOutIsReset(limit - 1, ParseOne(bytes).rest);
    }
  }

  // ----- What one readiness event takes from the socket -----

  /** The data among some results of `recv`, in order. */
  function DataOf(results: seq<RecvResult>): seq<seq<Byte>>
  {
    if results == [] then []
    else (if results[0].Data? then [results[0].bytes] else []) + DataOf(results[1..])
  }

  /**
   * An event takes the data of the first `k` calls to `recv`, where the k-th is the first that fails, finds the stream
   * closed, or reads less than it could; if there is none, it takes the data of all 13.
   */
  lemma {:induction false} DrainedIsData(recv: seq<RecvResult>, i: nat) returns (k: nat)
    requires i <= |recv| == 13
    ensures i <= k <= 13 && Drained(recv, i) == DataOf(recv[i..k])
    ensures forall j :: i <= j < k - 1 ==> recv[j] == Again || (recv[j].Data? && |recv[j].bytes| >= 2048)
    ensures k < 13 ==> i < k && recv[k - 1] != Again && (recv[k - 1].Data? ==> |recv[k - 1].bytes| < 2048)
    decreases 13 - i
  {
    if i == 13 {
      k := 13;
    } else if EndsEvent(recv[i]) {
      k := i + 1;
      assert recv[i..k] == [recv[i]] && recv[i..k][1..] == [];
    } else {
      k := DrainedIsData(recv, i + 1);
      assert recv[i..k][1..] == recv[i + 1..k];
    }
  }
}
