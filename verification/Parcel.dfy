// A parcel: a bounded list of typed values, written at the end and read from the front.
module Parcels {
  import opened Common
  import opened Bytes

  /** One value in a parcel. A read of another kind than was written fails and consumes nothing. */
  datatype Token = TBool(b: bool) | TInt32(i: Int32) | TInt64(n: int) | TString(s: string) | TBytes(bytes: seq<Byte>)

  function Padded(n: nat): nat
  {
    (n + 3) / 4 * 4
  }

  /** Bytes a value takes up: everything is padded to four, and strings and vectors carry their length. */
  function Size(t: Token): (n: nat)
    ensures 4 <= n
  {
    match t
    case TBool(_) => 4
    case TInt32(_) => 4
    case TInt64(_) => 8
    case TString(s) => 4 + Padded(|s| + 1)
    case TBytes(bytes) => 4 + Padded(|bytes|)
  }

  function SizeOf(ts: seq<Token>): nat
  {
    if ts == [] then 0 else Size(ts[0]) + SizeOf(ts[1..])
  }

  lemma {:induction false} SizeOfAppend(a: seq<Token>, b: seq<Token>)
    ensures SizeOf(a + b) == SizeOf(a) + SizeOf(b)
  {
    if a == [] {
      assert a + b == b;
    } else {
      assert (a + b)[1..] == a[1..] + b;
      SizeOfAppend(a[1..], b);
    }
  }

  lemma {:induction false} SizeOfCount(ts: seq<Token>)
    ensures 4 * |ts| <= SizeOf(ts)
  {
    if ts != [] {
      SizeOfCount(ts[1..]);
    }
  }

  /** A parcel of bounded capacity: a write that does not fit fails and leaves the parcel as it was. */
  class Parcel {
    var tokens: seq<Token>
    var readPos: nat
    const capacity: nat

    ghost predicate Valid()
      reads this
    {
      readPos <= |tokens|
    }

    ghost function Remaining(): seq<Token>
      requires Valid()
      reads this
    {
      tokens[readPos..]
    }

    constructor (capacity: nat)
      ensures Valid() && tokens == [] && Remaining() == [] && this.capacity == capacity
    {
      tokens, readPos := [], 0;
      this.capacity := capacity;
    }

    predicate Fits(ts: seq<Token>)
      reads this
    {
      SizeOf(tokens) + SizeOf(ts) <= capacity
    }

    method Write(t: Token) returns (ok: bool)
      requires Valid()
      modifies this`tokens
      ensures Valid() && ok == old(Fits([t])) && tokens == if ok then old(tokens) + [t] else old(tokens)
    {
      ok := SizeOf(tokens) + Size(t) <= capacity;
      assert SizeOf([t]) == Size(t);
      if ok {
        tokens := tokens + [t];
      }
    }

    method GetReadableBytes() returns (n: nat)
      requires Valid()
      ensures n == SizeOf(Remaining())
    {
      n := SizeOf(tokens[readPos..]);
    }

    method Next() returns (t: Option<Token>)
      requires Valid()
      ensures t == if Remaining() == [] then None else Some(Remaining()[0])
    {
      t := if readPos < |tokens| then Some(tokens[readPos]) else None;
    }

    method Skip()
      requires Valid() && Remaining() != []
      modifies this`readPos
      ensures Valid() && Remaining() == old(Remaining())[1..]
    {
      readPos := readPos + 1;
    }

    method ReadBool() returns (r: Option<bool>)
      requires Valid()
      modifies this`readPos
      ensures Valid()
      ensures var ts := old(Remaining());
              if ts != [] && ts[0].TBool? then r == Some(ts[0].b) && Remaining() == ts[1..] else r == None && Remaining() == ts
    {
      var t := Next();
      if t == None || !t.value.TBool? { return None; }
      Skip();
      return Some(t.value.b);
    }

    method ReadInt32() returns (r: Option<Int32>)
      requires Valid()
      modifies this`readPos
      ensures Valid()
      ensures var ts := old(Remaining());
              if ts != [] && ts[0].TInt32? then r == Some(ts[0].i) && Remaining() == ts[1..] else r == None && Remaining() == ts
    {
      var t := Next();
      if t == None || !t.value.TInt32? { return None; }
      Skip();
      return Some(t.value.i);
    }

    method ReadInt64() returns (r: Option<int>)
      requires Valid()
      modifies this`readPos
      ensures Valid()
      ensures var ts := old(Remaining());
              if ts != [] && ts[0].TInt64? then r == Some(ts[0].n) && Remaining() == ts[1..] else r == None && Remaining() == ts
    {
      var t := Next();
      if t == None || !t.value.TInt64? { return None; }
      Skip();
      return Some(t.value.n);
    }

    method ReadString() returns (r: Option<string>)
      requires Valid()
      modifies this`readPos
      ensures Valid()
      ensures var ts := old(Remaining());
              if ts != [] && ts[0].TString? then r == Some(ts[0].s) && Remaining() == ts[1..] else r == None && Remaining() == ts
    {
      var t := Next();
      if t == None || !t.value.TString? { return None; }
      Skip();
      return Some(t.value.s);
    }

    method ReadUInt8Vector() returns (r: Option<seq<Byte>>)
      requires Valid()
      modifies this`readPos
      ensures Valid()
      ensures var ts := old(Remaining());
              if ts != [] && ts[0].TBytes? then r == Some(ts[0].bytes) && Remaining() == ts[1..] else r == None && Remaining() == ts
    {
      var t := Next();
      if t == None || !t.value.TBytes? { return None; }
      Skip();
      return Some(t.value.bytes);
    }
  }

  /** Writes values one by one, giving up at the first that does not fit: a run of the WRITE macros. */
  method WriteAll(p: Parcel, ts: seq<Token>) returns (ok: bool)
    requires p.Valid()
    modifies p`tokens
    ensures p.Valid() && ok == old(p.Fits(ts))
    ensures ok ==> p.tokens == old(p.tokens) + ts
  {
    var i := 0;
    assert ts[..|ts|] == ts;
    while i < |ts|
      invariant 0 <= i <= |ts| && p.Valid() && p.tokens == old(p.tokens) + ts[..i]
      invariant SizeOf(p.tokens) + SizeOf(ts[i..]) == SizeOf(old(p.tokens)) + SizeOf(ts)
      invariant SizeOf(p.tokens) <= p.capacity || i == 0
    {
      SizeOfAppend(p.tokens, [ts[i]]);
      assert SizeOf([ts[i]]) == Size(ts[i]);
      assert ts[i..] == [ts[i]] + ts[i + 1..];
      SizeOfAppend([ts[i]], ts[i + 1..]);
      var written := p.Write(ts[i]);
      if !written {
        return false;
      }
      i := i + 1;
      assert ts[..i] == ts[..i - 1] + [ts[i - 1]];
    }
    return SizeOf(p.tokens) <= p.capacity;
  }
}
