// Bytes and fixed-width integers as the C++ code lays them out in memory.
module Bytes {

  newtype Byte = b: int | 0 <= b < 256

  type Int32 = v: int | -0x8000_0000 <= v < 0x8000_0000

  /** The value of `static_cast<int32_t>(n)`: reduction modulo 2^32 into the signed range. */
  function ToInt32(n: int): (v: Int32)
    ensures 0 <= n < 0x8000_0000 ==> v == n
  {
    var m := n % 0x1_0000_0000;
    if m < 0x8000_0000 then m else m - 0x1_0000_0000
  }

  /** The `n` low-order bytes of `u`, least significant first. */
  function Digits(u: nat, n: nat): (bs: seq<Byte>)
    ensures |bs| == n
    decreases u + n
  {
    if n == 0 then [] else [(u % 0x100) as Byte] + Digits(u / 0x100, n - 1)
  }

  /** The number a string of bytes stands for, least significant byte first. */
  function Number(bs: seq<Byte>): nat
  {
    if bs == [] then 0 else bs[0] as int + 0x100 * Number(bs[1..])
  }

  /** The numbers below this have a notation of `n` bytes. */
  function PowerOf256(n: nat): nat
  {
    if n == 0 then 1 else 0x100 * PowerOf256(n - 1)
  }

  lemma {:induction false} NumberOfDigits(u: nat, n: nat)
    requires u < PowerOf256(n)
    ensures Number(Digits(u, n)) == u
    decreases n
  {
    if n > 0 {
      var bs := Digits(u, n);
      assert bs[1..] == Digits(u / 0x100, n - 1);
      NumberOfDigits(u / 0x100, n - 1);
    }
  }

  lemma {:induction false} DigitsOfNumber(bs: seq<Byte>)
    ensures Number(bs) < PowerOf256(|bs|) && Digits(Number(bs), |bs|) == bs
  {
    if bs != [] {
      var low, high := bs[0] as int, Number(bs[1..]);
      assert (low + 0x100 * high) % 0x100 == low && (low + 0x100 * high) / 0x100 == high;
      DigitsOfNumber(bs[1..]);
      assert bs == [bs[0]] + bs[1..];
    }
  }

  /** The four bytes of an int32 on a little-endian machine (two's complement). */
  function EncodeInt32(v: Int32): (bs: seq<Byte>)
    ensures |bs| == 4
  {
    Digits(if v < 0 then v + 0x1_0000_0000 else v, 4)
  }

  function DecodeInt32(bs: seq<Byte>): Int32
    requires |bs| == 4
  {
    DigitsOfNumber(bs);
    var u := Number(bs);
    if u < 0x8000_0000 then u else u - 0x1_0000_0000
  }

  lemma DecodeEncodeInt32(v: Int32)
    ensures DecodeInt32(EncodeInt32(v)) == v
  {
    hide Digits, Number;
    NumberOfDigits(if v < 0 then v + 0x1_0000_0000 else v, 4);
  }

  lemma EncodeDecodeInt32(bs: seq<Byte>)
    requires |bs| == 4
    ensures EncodeInt32(DecodeInt32(bs)) == bs
  {
    hide Digits, Number;
    DigitsOfNumber(bs);
  }

  /** The least significant byte comes first, and the sign is that of two's complement. */
  lemma LittleEndian(bs: seq<Byte>)
    requires |bs| == 4
    ensures var u := bs[0] as int + 0x100 * bs[1] as int + 0x1_0000 * bs[2] as int + 0x100_0000 * bs[3] as int;
            DecodeInt32(bs) == if u < 0x8000_0000 then u else u - 0x1_0000_0000
  {
    assert bs[1..][1..] == bs[2..] && bs[2..][1..] == bs[3..] && bs[3..][1..] == [];
    assert Number(bs[3..]) == bs[3] as int;
    assert Number(bs[2..]) == bs[2] as int + 0x100 * Number(bs[3..]);
    assert Number(bs[1..]) == bs[1] as int + 0x100 * Number(bs[2..]);
  }
}
