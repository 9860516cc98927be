// The bounded byte buffer behind every packet and every connection, and its compacting variant.
module StreamBuffers {
  import opened Bytes

  const MAX_STREAM_BUF_SIZE: int := 2048

  datatype ErrorStatus = StatusOk | StatusRead | StatusWrite

  class StreamBuffer {
    var rwErrorStatus: ErrorStatus
    var rPos: int
    var wPos: int
    const szBuff: array<Byte>

    ghost predicate Valid()
      reads this
    {
      && szBuff.Length == MAX_STREAM_BUF_SIZE + 1
      && 0 <= rPos <= wPos <= MAX_STREAM_BUF_SIZE
    }

    /** Everything written since the last reset or compaction. */
    ghost function Written(): seq<Byte>
      requires Valid()
      reads this, szBuff
    {
      szBuff[..wPos]
    }

    /** The bytes a reader has not consumed yet: the abstract value of the buffer. */
    ghost function Unread(): seq<Byte>
      requires Valid()
      reads this, szBuff
    {
      szBuff[rPos..wPos]
    }

    constructor ()
      ensures Valid() && fresh(szBuff)
      ensures rPos == 0 && Written() == [] && Unread() == [] && rwErrorStatus == StatusOk
    {
      rwErrorStatus, rPos, wPos := StatusOk, 0, 0;
      szBuff := new Byte[MAX_STREAM_BUF_SIZE + 1](_ => 0);
    }

    method Reset()
      requires Valid()
      modifies this
      ensures Valid() && rPos == 0 && Written() == [] && Unread() == [] && rwErrorStatus == StatusOk
    {
      wPos, rPos, rwErrorStatus := 0, 0, StatusOk;
    }

    /** Moves the read position by `n`, which may be negative: a seek can also rewind. */
    method SeekReadPos(n: int) returns (ok: bool)
      requires Valid()
      modifies this`rPos
      ensures Valid()
      ensures ok == (0 <= old(rPos) + n <= wPos)
      ensures rPos == if ok then old(rPos) + n else old(rPos)
    {
      var pos := rPos + n;
      if pos < 0 || pos > wPos {
        return false;
      }
      rPos := pos;
      return true;
    }

    function GetAvailableBufSize(): (n: int)
      requires Valid()
      reads this
      ensures 0 <= n == MAX_STREAM_BUF_SIZE - wPos
    {
      if wPos >= MAX_STREAM_BUF_SIZE then 0 else MAX_STREAM_BUF_SIZE - wPos
    }

    function ResidualSize(): (n: int)
      requires Valid()
      reads this
      ensures n == wPos - rPos
    {
      if wPos <= rPos then 0 else wPos - rPos
    }

    /** `Read(char *, size_t)`: consumes exactly `size` bytes, or fails and makes the failure sticky. */
    method Read(size: nat) returns (ok: bool, data: seq<Byte>)
      requires Valid()
      modifies this`rPos, this`rwErrorStatus
      ensures Valid()
      ensures ok == (old(rwErrorStatus) == StatusOk && 0 < size <= |old(Unread())|)
      ensures ok ==> |data| == size && data + Unread() == old(Unread()) && rwErrorStatus == StatusOk
      ensures !ok ==> data == [] && Unread() == old(Unread())
      ensures !ok ==> rwErrorStatus == if old(rwErrorStatus) == StatusOk then StatusRead else old(rwErrorStatus)
      ensures Written() == old(Written())
    {
      data := [];
      if rwErrorStatus != StatusOk {
        return false, data;
      }
      if size == 0 || rPos + ToInt32(size) > wPos || size > MAX_STREAM_BUF_SIZE {
        // the last disjunct is memcpy_sp refusing a size whose int32 cast wrapped around
        if size > 0 && size <= 0x7fff_ffff {
          assert rPos + size > wPos;
        }
        rwErrorStatus := StatusRead;
        return false, data;
      }
      data := szBuff[rPos..rPos + size];
      rPos := rPos + size;
      return true, data;
    }

    /** `Write(const char *, size_t)`: appends the whole chunk or nothing; a refusal is sticky. */
    method Write(data: seq<Byte>) returns (ok: bool)
      requires Valid()
      modifies this`wPos, this`rwErrorStatus, szBuff
      ensures Valid()
      ensures ok == (old(rwErrorStatus) == StatusOk && 0 < |data| <= old(MAX_STREAM_BUF_SIZE - wPos))
      ensures Written() == if ok then old(Written()) + data else old(Written())
      ensures Unread() == if ok then old(Unread()) + data else old(Unread())
      ensures rPos == old(rPos)
      ensures rwErrorStatus == if ok || old(rwErrorStatus) != StatusOk then old(rwErrorStatus) else StatusWrite
    {
      if rwErrorStatus != StatusOk {
        return false;
      }
      if |data| == 0 {
        rwErrorStatus := StatusWrite;
        return false;
      }
      if wPos + ToInt32(|data|) > MAX_STREAM_BUF_SIZE {
        rwErrorStatus := StatusWrite;
        return false;
      }
      if |data| > GetAvailableBufSize() {
        // memcpy_sp reports ERANGE: the int32 cast of a huge size went negative above
        rwErrorStatus := StatusWrite;
        return false;
      }
      forall i | 0 <= i < |data| {
        szBuff[wPos + i] := data[i];
      }
      wPos := wPos + |data|;
      return true;
    }
  }
}

// `CircleStreamBuffer` adds no field to `StreamBuffer`; it overrides `Write` so that the unread bytes
// are first moved to the front when the tail is too short.
module CircleStreamBuffers {
  import opened Bytes
  import opened StreamBuffers

  /** Slides the unread bytes to index 0; the source's loop also copies the byte at `wPos`. */
  method CopyDataToBegin(b: StreamBuffer)
    requires b.Valid()
    modifies b`rPos, b`wPos, b.szBuff
    ensures b.Valid()
    ensures b.Unread() == old(b.Unread()) && b.rPos == 0
  {
    var residualSize := b.ResidualSize();
    if residualSize > 0 && b.rPos > 0 {
      var pos, i := 0, b.rPos;
      while i <= b.wPos
        invariant i == b.rPos + pos && 0 <= pos <= b.wPos + 1 - b.rPos
        invariant b.rPos == old(b.rPos) && b.wPos == old(b.wPos)
        invariant forall k :: 0 <= k < pos ==> b.szBuff[k] == old(b.szBuff[b.rPos + k])
        invariant forall k :: pos <= k < b.szBuff.Length ==> b.szBuff[k] == old(b.szBuff[k])
      {
        b.szBuff[pos] := b.szBuff[i];
        pos, i := pos + 1, i + 1;
      }
    }
    b.rPos := 0;
    b.wPos := residualSize;
  }

  method CheckWrite(b: StreamBuffer, size: nat) returns (ok: bool)
    requires b.Valid()
    modifies b`rPos, b`wPos, b.szBuff
    ensures b.Valid() && b.Unread() == old(b.Unread())
    ensures ok == (|b.Unread()| + ToInt32(size) <= MAX_STREAM_BUF_SIZE)
    ensures ok ==> b.wPos + ToInt32(size) <= MAX_STREAM_BUF_SIZE
  {
    var bufferSize := ToInt32(size);
    var availableSize := b.GetAvailableBufSize();
    if bufferSize > availableSize && b.rPos > 0 {
      CopyDataToBegin(b);
      availableSize := b.GetAvailableBufSize();
    }
    return availableSize >= bufferSize;
  }

  /**
   * The override: a bounded byte queue. A chunk of a legal size is appended exactly when it fits, and a refused
   * one leaves no trace, not even in the error status. Only an empty chunk, or one whose size turns non-positive
   * in the int32 cast, reaches the base class and makes the error sticky.
   */
  method Write(b: StreamBuffer, data: seq<Byte>) returns (ok: bool)
    requires b.Valid()
    modifies b, b.szBuff
    ensures b.Valid()
    ensures ok == (old(b.rwErrorStatus) == StatusOk && 0 < |data| && |old(b.Unread())| + |data| <= MAX_STREAM_BUF_SIZE)
    ensures b.Unread() == if ok then old(b.Unread()) + data else old(b.Unread())
    ensures 0 < |data| < 0x8000_0000 ==> b.rwErrorStatus == old(b.rwErrorStatus)
    ensures b.rwErrorStatus ==
            if !ok && old(b.rwErrorStatus) == StatusOk && |old(b.Unread())| + ToInt32(|data|) <= MAX_STREAM_BUF_SIZE
            then StatusWrite else old(b.rwErrorStatus)
  {
    var fits := CheckWrite(b, |data|);
    if !fits {
      return false;
    }
    ok := b.Write(data);
  }
}
