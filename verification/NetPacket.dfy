// One message: an id and a payload, and its frame on the wire (PackHead, then the payload).
module NetPackets {
  import opened Common
  import opened Bytes
  import opened StreamBuffers

  /** sizeof(PackHead): two packed int32 fields, idMsg then size. */
  const HEAD_SIZE: int := 8
  /** The longest payload whose frame fits one stream buffer. */
  const MAX_PAYLOAD: int := MAX_STREAM_BUF_SIZE - HEAD_SIZE

  datatype Packet = Packet(id: Int32, payload: seq<Byte>)

  function Header(id: Int32, size: Int32): (bs: seq<Byte>)
    ensures |bs| == HEAD_SIZE
  {
    EncodeInt32(id) + EncodeInt32(size)
  }

  /** The bytes of one packet on the wire. */
  function Frame(p: Packet): (bs: seq<Byte>)
    requires |p.payload| <= MAX_STREAM_BUF_SIZE
    ensures |bs| == HEAD_SIZE + |p.payload|
  {
    Header(p.id, |p.payload|) + p.payload
  }

  lemma HeaderFields(id: Int32, size: Int32, rest: seq<Byte>)
    ensures var bs := Header(id, size) + rest;
            && DecodeInt32(bs[..4]) == id && DecodeInt32(bs[4..HEAD_SIZE]) == size && bs[HEAD_SIZE..] == rest
  {
    var bs := Header(id, size) + rest;
    assert bs[..4] == EncodeInt32(id) && bs[4..HEAD_SIZE] == EncodeInt32(size);
    DecodeEncodeInt32(id);
    DecodeEncodeInt32(size);
  }

  class NetPacket {
    const msgId: Int32
    const data: StreamBuffer

    ghost predicate Valid()
      reads this, data
    {
      data.Valid()
    }

    ghost function Value(): Packet
      requires Valid()
      reads this, data, data.szBuff
    {
      Packet(msgId, data.Written())
    }

    constructor (msgId: Int32)
      ensures Valid() && fresh(data) && fresh(data.szBuff)
      ensures Value() == Packet(msgId, []) && data.rwErrorStatus == StatusOk && this.msgId == msgId
    {
      this.msgId := msgId;
      data := new StreamBuffer();
    }

    method GetPacketLength() returns (n: int)
      requires Valid()
      ensures n == HEAD_SIZE + |Value().payload|
    {
      return HEAD_SIZE + data.wPos;
    }

    /**
     * Appends the packet's frame to `buf`. The result of writing the header is ignored, so there are four outcomes;
     * the frame is appended whole in the first one only.
     */
    method MakeData(buf: StreamBuffer) returns (ok: bool)
      requires Valid() && buf.Valid() && buf != data && buf.szBuff != data.szBuff
      modifies buf, buf.szBuff
      ensures Valid() && buf.Valid() && Value() == old(Value())
      ensures var room := if old(buf.rwErrorStatus) == StatusOk then old(MAX_STREAM_BUF_SIZE - buf.wPos) else 0;
              var p := Value();
              if |Frame(p)| <= room then
                ok && buf.Written() == old(buf.Written()) + Frame(p) && buf.rwErrorStatus == StatusOk
              else if HEAD_SIZE <= room then
                !ok && buf.Written() == old(buf.Written()) + Header(p.id, |p.payload|) && buf.rwErrorStatus == StatusWrite
              else
                && ok == (p.payload == []) && buf.Written() == old(buf.Written()) && buf.rwErrorStatus != StatusOk
      ensures buf.rPos == old(buf.rPos)
    {
      hide Header;
      ghost var before, header, payload := buf.Written(), Header(msgId, data.wPos), data.Written();
      var _ := buf.Write(Header(msgId, data.wPos));
      assert data.Written() == payload;
      if data.wPos > 0 {
        var written := buf.Write(data.szBuff[..data.wPos]);
        if !written {
          return false;
        }
        Regroup(before, header, payload);
      }
      assert payload == [] ==> header + payload == header;
      return true;
    }
  }

  /** On a fresh buffer, `MakeData` succeeds exactly when the payload has at most 2040 bytes, and then it prints the frame. */
  method Print(pkt: NetPacket) returns (ok: bool, buf: StreamBuffer)
    requires pkt.Valid()
    ensures pkt.Valid() && pkt.Value() == old(pkt.Value()) && buf.Valid() && fresh(buf) && fresh(buf.szBuff)
    ensures ok == (|pkt.Value().payload| <= 2040)
    ensures ok ==> buf.Written() == Frame(pkt.Value())
  {
    buf := new StreamBuffer();
    ok := pkt.MakeData(buf);
  }

  /** The false success of `MakeData`: behind 2041 bytes, an empty packet is reported as written, and nothing was. */
  method EmptyPacketVanishes(id: Int32) returns (ok: bool, buf: StreamBuffer, before: seq<Byte>)
    ensures buf.Valid() && fresh(buf) && fresh(buf.szBuff)
    ensures ok && |before| == 2041 && buf.Written() == before
  {
    buf := new StreamBuffer();
    before := seq(MAX_PAYLOAD + 1, _ => 0);
    var written := buf.Write(before);
    assert buf.Written() == before;
    var pkt := new NetPacket(id);
    ok := pkt.MakeData(buf);
  }
}
