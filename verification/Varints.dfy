// Numbers in groups of seven bits, low group first, the top bit of a byte marking more.

module Varints {
  import opened Common

  function Varint(s: seq<byte>, shift: nat): (r: Option<(nat, nat)>)
    ensures r.Some? ==> 1 <= r.value.1 <= |s|
    decreases |s|
  {
    if s == [] then None
    else if s[0] < 128 then Some((s[0] * Pow2(shift), 1))
    else if shift + 7 > 28 then None
    else
      match Varint(s[1..], shift + 7)
      case None => None
      case Some((v, n)) => Some((s[0] % 128 * Pow2(shift) + v, n + 1))
  }

  function VarintBytes(v: nat): (s: seq<byte>)
    ensures s != []
  {
    if v >= 128 then [v % 128 + 128] + VarintBytes(v / 128) else [v]
  }

  lemma VarintStep(s: seq<byte>, shift: nat)
    ensures s == [] ==> Varint(s, shift) == None
    ensures s != [] && s[0] < 128 ==> Varint(s, shift) == Some((s[0] % 128 * Pow2(shift), 1))
    ensures s != [] && s[0] >= 128 && shift + 7 > 28 ==> Varint(s, shift) == None
    ensures s != [] && s[0] >= 128 && shift + 7 <= 28 ==>
      Varint(s, shift) == match Varint(s[1..], shift + 7)
                          case None => None
                          case Some((v, n)) => Some((s[0] % 128 * Pow2(shift) + v, n + 1))
  {
  }

  lemma {:induction false} VarintDecodes(v: nat, shift: nat, rest: seq<byte>)
    requires shift <= 28 && shift % 7 == 0 && v * Pow2(shift) < Pow2(32)
    ensures Varint(VarintBytes(v) + rest, shift) == Some((v * Pow2(shift), |VarintBytes(v)|))
    decreases v
  {
    hide Pow2, Varint, VarintBytes;
    var s := VarintBytes(v) + rest;
    VarintBytesIs(v);
    VarintStep(s, shift);
    if v >= 128 {
      VarintRoom(v, shift);
      VarintFront(v, rest);
      VarintDecodes(v / 128, shift + 7, rest);
    } else {
      assert s[0] == v;
    }
  }

  // A value of more than seven bits leaves room for another group.
  lemma VarintRoom(v: nat, shift: nat)
    requires v >= 128 && shift <= 28 && shift % 7 == 0 && v * Pow2(shift) < Pow2(32)
    ensures shift + 7 <= 28
    ensures v * Pow2(shift) == v % 128 * Pow2(shift) + v / 128 * Pow2(shift + 7)
    ensures v / 128 * Pow2(shift + 7) < Pow2(32)
  {
    hide Pow2;
    Pow2Add(shift, 7);
    SevenBits();
    VarintSplit(v, Pow2(shift));
    if shift > 21 {
      Pow2Add(28, 4);
      MulMonotone(16, v, Pow2(28));
    }
  }

  lemma VarintSplit(v: nat, p: nat)
    ensures v * p == v % 128 * p + v / 128 * (p * 128)
    ensures v / 128 * (p * 128) <= v * p
  {
    assert v == v / 128 * 128 + v % 128;
    assert v % 128 * p >= 0;
  }

  // ---------------------------------------------------------------- 64-bit numbers

  const WORD64: nat := 0x1_0000_0000_0000_0000

  // At most ten bytes. The tenth has room for one bit only, and what it says beyond that
  // is shifted out.
  function LongVarint(s: seq<byte>, shift: nat): (r: Option<(nat, nat)>)
    ensures r.Some? ==> 1 <= r.value.1 <= |s|
    decreases |s|
  {
    if s == [] then None
    else if s[0] < 128 then Some((s[0] * Pow2(shift) % WORD64, 1))
    else if shift + 7 > 63 then None
    else
      match LongVarint(s[1..], shift + 7)
      case None => None
      case Some((v, n)) => Some((s[0] % 128 * Pow2(shift) + v, n + 1))
  }

  lemma LongVarintStep(s: seq<byte>, shift: nat)
    ensures s == [] ==> LongVarint(s, shift) == None
    ensures s != [] && s[0] < 128 ==> LongVarint(s, shift) == Some((s[0] * Pow2(shift) % WORD64, 1))
    ensures s != [] && s[0] >= 128 && shift + 7 > 63 ==> LongVarint(s, shift) == None
    ensures s != [] && s[0] >= 128 && shift + 7 <= 63 ==>
      LongVarint(s, shift) == match LongVarint(s[1..], shift + 7)
                              case None => None
                              case Some((v, n)) => Some((s[0] % 128 * Pow2(shift) + v, n + 1))
  {
  }

  lemma WordIs64()
    ensures Pow2(64) == WORD64
  {
    Pow2Words();
    Pow2Add(32, 32);
  }

  lemma {:induction false} LongVarintDecodes(v: nat, shift: nat, rest: seq<byte>)
    requires shift <= 63 && shift % 7 == 0 && v * Pow2(shift) < WORD64
    ensures LongVarint(VarintBytes(v) + rest, shift) == Some((v * Pow2(shift), |VarintBytes(v)|))
    decreases v
  {
    hide Pow2, LongVarint, VarintBytes;
    if v >= 128 {
      LongVarintRoom(v, shift);
      LongVarintDecodes(v / 128, shift + 7, rest);
      LongVarintMore(v, shift, rest, v / 128 * Pow2(shift + 7));
    } else {
      LongVarintLast(v, shift, rest);
    }
  }

  lemma LongVarintLast(v: nat, shift: nat, rest: seq<byte>)
    requires v < 128 && v * Pow2(shift) < WORD64
    ensures LongVarint(VarintBytes(v) + rest, shift) == Some((v * Pow2(shift), |VarintBytes(v)|))
  {
    hide Pow2, LongVarint;
    LongVarintStep([v] + rest, shift);
    DivModIs(v * Pow2(shift), WORD64, 0, v * Pow2(shift));
  }

  lemma LongVarintMore(v: nat, shift: nat, rest: seq<byte>, high: nat)
    requires v >= 128 && shift + 7 <= 63
    requires LongVarint(VarintBytes(v / 128) + rest, shift + 7) == Some((high, |VarintBytes(v / 128)|))
    ensures LongVarint(VarintBytes(v) + rest, shift) == Some((v % 128 * Pow2(shift) + high, |VarintBytes(v)|))
  {
    hide Pow2, LongVarint, VarintBytes;
    VarintBytesIs(v);
    VarintFront(v, rest);
    LongVarintStep(VarintBytes(v) + rest, shift);
  }

  lemma VarintFront(v: nat, rest: seq<byte>)
    requires v >= 128
    ensures var s := VarintBytes(v) + rest; s[0] == v % 128 + 128 && s[1..] == VarintBytes(v / 128) + rest
  {
    hide VarintBytes;
    VarintBytesIs(v);
    Assoc([v % 128 + 128], VarintBytes(v / 128), rest);
  }

  lemma VarintBytesIs(v: nat)
    ensures VarintBytes(v) == if v >= 128 then [v % 128 + 128] + VarintBytes(v / 128) else [v]
  {
  }

  lemma LongVarintRoom(v: nat, shift: nat)
    requires v >= 128 && shift <= 63 && shift % 7 == 0 && v * Pow2(shift) < WORD64
    ensures shift + 7 <= 63
    ensures v * Pow2(shift) == v % 128 * Pow2(shift) + v / 128 * Pow2(shift + 7)
    ensures v / 128 * Pow2(shift + 7) < WORD64
  {
    hide Pow2;
    Pow2Add(shift, 7);
    SevenBits();
    VarintSplit(v, Pow2(shift));
    if shift > 56 {
      WordIs64();
      Pow2Add(63, 1);
      SevenBits();
      MulMonotone(2, v, Pow2(63));
    }
  }

  lemma SevenBits()
    ensures Pow2(7) == 128 && Pow2(1) == 2 && Pow2(4) == 16
  {
  }

  // What any 64-bit number is written as reads back, whatever follows.
  lemma LongVarintReads(v: nat, rest: seq<byte>)
    requires v < WORD64
    ensures LongVarint(VarintBytes(v) + rest, 0) == Some((v, |VarintBytes(v)|))
  {
    hide LongVarint;
    LongVarintDecodes(v, 0, rest);
  }
}
