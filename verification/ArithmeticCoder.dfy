// src/cm.rs: the carry-free binary arithmetic coder, driven by any deterministic
// predictor whose probabilities are 12 bits wide.

module ArithmeticCoder {
  import opened Common

  const WORD := 0x1_0000_0000
  const TOP := 0x100_0000

  // ---------------------------------------------------------------- the range

  datatype Range = Range(x1: nat, x2: nat)

  // What holds before every bit: a proper interval of words whose top bytes differ.
  ghost predicate Open(r: Range) {
    r.x1 < r.x2 < WORD && r.x1 / TOP != r.x2 / TOP
  }

  const FULL := Range(0, WORD - 1)

  function Mid(r: Range, p: nat): nat
    requires r.x1 <= r.x2
  {
    r.x1 + (r.x2 - r.x1) / 4096 * p
  }

  // The part of the range a bit's probability gives it.
  function Narrow(r: Range, p: nat, bit: nat): Range
    requires r.x1 <= r.x2
  {
    if bit != 0 then Range(r.x1, Mid(r, p)) else Range(Mid(r, p) + 1, r.x2)
  }

  // One byte shifted out, the words wrapping at 32 bits.
  function Shift(r: Range): Range {
    Range(r.x1 * 256 % WORD, (r.x2 * 256 + 255) % WORD)
  }

  lemma MidInside(r: Range, p: nat)
    requires r.x1 < r.x2 && p <= 4095
    ensures r.x1 <= Mid(r, p) < r.x2
  {
    var q := (r.x2 - r.x1) / 4096;
    assert q * p <= q * 4095 by { ScaleMonotone(q, p, 4095); }
    assert 0 <= q * p by { ScaleMonotone(q, 0, p); }
  }

  // The parts the two bits get: a 1 the lower end, a 0 all the rest. A 1's part is p of
  // 4096 equal shares, as large as fit whole (q each); so it is p/4096 of the range but
  // for less than a 4096th share of p.
  lemma SplitShares(r: Range, p: nat, q: nat)
    requires r.x1 < r.x2 && p <= 4095 && 4096 * q <= r.x2 - r.x1 < 4096 * (q + 1)
    ensures Narrow(r, p, 1) == Range(r.x1, r.x1 + p * q) && Narrow(r, p, 0) == Range(r.x1 + p * q + 1, r.x2)
    ensures Mid(r, p) == Narrow(r, p, 1).x2
    ensures 4096 * (Mid(r, p) - r.x1) <= p * (r.x2 - r.x1) <= 4096 * (Mid(r, p) - r.x1) + 4095 * p
  {
    var d := r.x2 - r.x1;
    DivModIs(d, 4096, q, d - 4096 * q);
    assert q * p == p * q;
    ScaleMonotone(p, 4096 * q, d);
    ScaleMonotone(p, d, 4096 * q + 4095);
    assert p * (4096 * q) == 4096 * (p * q) && p * (4096 * q + 4095) == 4096 * (p * q) + 4095 * p;
  }

  lemma ScaleMonotone(q: int, a: int, b: int)
    requires q >= 0 && a <= b
    ensures q * a <= q * b
  {
  }

  // Shifting keeps the order and drops the byte both ends share.
  lemma ShiftFacts(r: Range)
    requires r.x1 <= r.x2 < WORD && r.x1 / TOP == r.x2 / TOP
    ensures Shift(r).x1 == r.x1 * 256 - r.x1 / TOP * WORD
    ensures Shift(r).x2 == r.x2 * 256 + 255 - r.x1 / TOP * WORD
    ensures 0 <= Shift(r).x1 < Shift(r).x2 < WORD
    ensures Shift(r).x2 - Shift(r).x1 == 256 * (r.x2 - r.x1) + 255
  {
    var t, a, b := r.x1 / TOP, r.x1 % TOP, r.x2 % TOP;
    assert r.x1 == t * TOP + a && r.x2 == t * TOP + b;
    assert r.x1 * 256 == t * WORD + a * 256 && r.x2 * 256 + 255 == t * WORD + b * 256 + 255;
    WrapAway(t, a * 256);
    WrapAway(t, b * 256 + 255);
  }

  // A value inside the range stays inside it with whatever byte comes next.
  lemma ShiftValue(r: Range, x: nat, b: byte)
    requires r.x1 <= x <= r.x2 < WORD && r.x1 / TOP == r.x2 / TOP
    ensures Shift(r).x1 <= x * 256 % WORD + b <= Shift(r).x2
  {
    ShiftFacts(r);
    var t, a := r.x1 / TOP, x % TOP;
    assert x / TOP == t && x == t * TOP + a;
    WrapAway(t, a * 256);
  }

  lemma WrapAway(t: nat, a: nat)
    requires a < WORD
    ensures (t * WORD + a) % WORD == a
  {
  }

  // The settled leading bytes, and the range once none is left.
  function Settle(r: Range): (Range, seq<byte>)
    requires r.x1 <= r.x2 < WORD
    decreases WORD - (r.x2 - r.x1)
  {
    if r.x1 / TOP != r.x2 / TOP then (r, [])
    else
      ShiftFacts(r);
      var (r', bytes) := Settle(Shift(r));
      (r', [r.x2 / TOP] + bytes)
  }

  // Shifting ends within four bytes, in an open range.
  lemma {:induction false} SettleOpens(r: Range)
    requires r.x1 <= r.x2 < WORD
    ensures Open(Settle(r).0) && |Settle(r).1| <= 4
    ensures r.x2 - r.x1 >= 255 ==> |Settle(r).1| <= 3
    ensures r.x2 - r.x1 >= 0xFFFF ==> |Settle(r).1| <= 2
    ensures r.x2 - r.x1 >= 0xFF_FFFF ==> |Settle(r).1| <= 1
    decreases WORD - (r.x2 - r.x1)
  {
    if r.x1 / TOP == r.x2 / TOP {
      ShiftFacts(r);
      SettleOpens(Shift(r));
    }
  }

  // One bit coded: the range it leaves and the bytes it settles.
  function Step(r: Range, p: nat, bit: nat): (res: (Range, seq<byte>))
    requires Open(r) && p <= 4095
    ensures Open(res.0) && |res.1| <= 4
  {
    MidInside(r, p);
    SettleOpens(Narrow(r, p, bit));
    Settle(Narrow(r, p, bit))
  }

  lemma StepIs(r: Range, p: nat, bit: nat)
    requires Open(r) && p <= 4095
    ensures Narrow(r, p, bit).x1 <= Narrow(r, p, bit).x2 < WORD
    ensures Step(r, p, bit) == Settle(Narrow(r, p, bit))
  {
    MidInside(r, p);
  }

  lemma SettleIs(r: Range)
    requires r.x1 <= r.x2 < WORD
    ensures r.x1 / TOP != r.x2 / TOP ==> Settle(r) == (r, [])
    ensures r.x1 / TOP == r.x2 / TOP ==>
      && Shift(r).x1 <= Shift(r).x2 < WORD
      && Settle(r) == (Settle(Shift(r)).0, [r.x2 / TOP] + Settle(Shift(r)).1)
  {
    if r.x1 / TOP == r.x2 / TOP { ShiftFacts(r); }
  }

  // ---------------------------------------------------------------- words of a stream

  // A stream's byte, zero past its end.
  function ByteAt(src: seq<byte>, i: nat): byte {
    if i < |src| then src[i] else 0
  }

  function WordAt(src: seq<byte>, i: nat): (w: nat)
    ensures w < WORD
  {
    ByteAt(src, i) * TOP + ByteAt(src, i + 1) * 0x1_0000 + ByteAt(src, i + 2) * 256 + ByteAt(src, i + 3)
  }

  lemma WordAtNext(src: seq<byte>, i: nat)
    ensures WordAt(src, i) / TOP == ByteAt(src, i)
    ensures WordAt(src, i) * 256 % WORD + ByteAt(src, i + 4) == WordAt(src, i + 1)
    ensures WordAt(src, i) * 256 + ByteAt(src, i + 4) == ByteAt(src, i) * WORD + WordAt(src, i + 1)
  {
  }

  function WordBytes(w: nat): (s: seq<byte>)
    requires w < WORD
    ensures |s| == 4
  {
    [w / TOP, w / 0x1_0000 % 256, w / 256 % 256, w % 256]
  }

  lemma WordRoundTrip(w: nat, rest: seq<byte>)
    requires w < WORD
    ensures WordAt(WordBytes(w) + rest, 0) == w
  {
    var s := WordBytes(w) + rest;
    assert s[0] == w / TOP && s[1] == w / 0x1_0000 % 256 && s[2] == w / 256 % 256 && s[3] == w % 256;
    var a := w / 256;
    var b := a / 256;
    assert w / 0x1_0000 == b && w / TOP == b / 256;
  }

  lemma WordAtSuffix(src: seq<byte>, k: nat, i: nat)
    requires k <= |src|
    ensures WordAt(src[k..], i) == WordAt(src, k + i)
  {
  }

  // ---------------------------------------------------------------- the code of a bit string

  // A deterministic predictor: its state, the probability of a 1 in that state, and
  // the state after a bit.
  datatype Predictor<!S> = Predictor(p: S -> int, update: (S, nat) -> S)

  ghost predicate TwelveBits<S(!new)>(pr: Predictor<S>) {
    forall s: S :: 0 <= pr.p(s) <= 4095
  }

  ghost predicate AreBits(bits: seq<nat>) {
    forall i :: 0 <= i < |bits| ==> bits[i] <= 1
  }

  // The bytes written from a state on: those the bits settle, then the final word.
  function Code<S(!new)>(pr: Predictor<S>, s: S, r: Range, bits: seq<nat>): seq<byte>
    requires TwelveBits(pr) && Open(r)
    decreases |bits|
  {
    if bits == [] then WordBytes(r.x1)
    else
      var (r', bytes) := Step(r, pr.p(s), bits[0]);
      bytes + Code(pr, pr.update(s, bits[0]), r', bits[1..])
  }

  // Reading a stream bit by bit, its first word being the code value.
  function Bits<S(!new)>(pr: Predictor<S>, s: S, r: Range, src: seq<byte>, pos: nat, n: nat): (bits: seq<nat>)
    requires TwelveBits(pr) && Open(r)
    ensures |bits| == n && AreBits(bits)
    decreases n
  {
    if n == 0 then []
    else
      var bit := if WordAt(src, pos) <= Mid(r, pr.p(s)) then 1 else 0;
      var (r', bytes) := Step(r, pr.p(s), bit);
      [bit] + Bits(pr, pr.update(s, bit), r', src, pos + |bytes|, n - 1)
  }

  // A code value inside a settled range, with the bytes settled before it, is inside
  // the range they were settled from.
  lemma {:induction false} SettleInside(r: Range, src: seq<byte>, pos: nat)
    requires r.x1 <= r.x2 < WORD
    requires var (r', bytes) := Settle(r);
      && pos + |bytes| <= |src| && src[pos..pos + |bytes|] == bytes
      && r'.x1 <= WordAt(src, pos + |bytes|) <= r'.x2
    ensures r.x1 <= WordAt(src, pos) <= r.x2
    decreases WORD - (r.x2 - r.x1)
  {
    if r.x1 / TOP == r.x2 / TOP {
      ShiftFacts(r);
      var (r', bytes) := Settle(r);
      assert src[pos] == src[pos..pos + |bytes|][0] == r.x2 / TOP;
      assert src[pos + 1..pos + |bytes|] == src[pos..pos + |bytes|][1..];
      SettleInside(Shift(r), src, pos + 1);
      WordAtNext(src, pos);
    }
  }

  // Everything a state goes on to write keeps the code value inside that state's range.
  lemma {:induction false} CodeInside<S(!new)>(pr: Predictor<S>, s: S, r: Range, bits: seq<nat>, src: seq<byte>, pos: nat)
    requires TwelveBits(pr) && Open(r) && AreBits(bits)
    requires pos <= |src| && src[pos..] == Code(pr, s, r, bits)
    ensures r.x1 <= WordAt(src, pos) <= r.x2
    ensures bits != [] ==>
      (bits[0] == 1 <==> WordAt(src, pos) <= Mid(r, pr.p(s)))
    decreases |bits|
  {
    hide Step, WordAt, Mid;
    if bits == [] {
      WordRoundTrip(r.x1, []);
      assert WordBytes(r.x1) + [] == src[pos..];
      WordAtSuffix(src, pos, 0);
    } else {
      var (r', bytes) := Step(r, pr.p(s), bits[0]);
      var rest := Code(pr, pr.update(s, bits[0]), r', bits[1..]);
      assert src[pos..] == bytes + rest;
      assert src[pos..pos + |bytes|] == src[pos..][..|bytes|];
      assert src[pos + |bytes|..] == src[pos..][|bytes|..];
      CodeInside(pr, pr.update(s, bits[0]), r', bits[1..], src, pos + |bytes|);
      StepInside(r, pr.p(s), bits[0], src, pos);
    }
  }

  // Which side of the split the code value lies on tells the bit.
  lemma StepInside(r: Range, p: nat, bit: nat, src: seq<byte>, pos: nat)
    requires Open(r) && p <= 4095 && bit <= 1
    requires var (r', bytes) := Step(r, p, bit);
      && pos + |bytes| <= |src| && src[pos..pos + |bytes|] == bytes
      && r'.x1 <= WordAt(src, pos + |bytes|) <= r'.x2
    ensures r.x1 <= WordAt(src, pos) <= r.x2
    ensures bit == 1 <==> WordAt(src, pos) <= Mid(r, p)
  {
    MidInside(r, p);
    SettleInside(Narrow(r, p, bit), src, pos);
  }

  // Decoding what was coded gives the bits back.
  lemma {:induction false} BitsOfCode<S(!new)>(pr: Predictor<S>, s: S, r: Range, bits: seq<nat>, src: seq<byte>, pos: nat)
    requires TwelveBits(pr) && Open(r) && AreBits(bits)
    requires pos <= |src| && src[pos..] == Code(pr, s, r, bits)
    ensures Bits(pr, s, r, src, pos, |bits|) == bits
    decreases |bits|
  {
    hide Step, WordAt, Mid;
    if bits != [] {
      CodeInside(pr, s, r, bits, src, pos);
      var (r', bytes) := Step(r, pr.p(s), bits[0]);
      assert src[pos + |bytes|..] == src[pos..][|bytes|..];
      BitsOfCode(pr, pr.update(s, bits[0]), r', bits[1..], src, pos + |bytes|);
    }
  }

  // ---------------------------------------------------------------- bytes and their bits

  // A byte's bits, the highest first.
  function ByteBits(c: byte): (bits: seq<nat>)
    ensures |bits| == 8 && AreBits(bits)
  {
    [c / 128 % 2, c / 64 % 2, c / 32 % 2, c / 16 % 2, c / 8 % 2, c / 4 % 2, c / 2 % 2, c % 2]
  }

  function AllBits(input: seq<byte>): (bits: seq<nat>)
    ensures |bits| == 8 * |input| && AreBits(bits)
  {
    if input == [] then [] else ByteBits(input[0]) + AllBits(input[1..])
  }

  lemma ByteBitsInjective(a: byte, b: byte)
    requires ByteBits(a) == ByteBits(b)
    ensures a == b
  {
    assert forall i :: 0 <= i < 8 ==> ByteBits(a)[i] == ByteBits(b)[i];
    BitsSpell(a);
    BitsSpell(b);
  }

  lemma BitsSpell(c: byte)
    ensures c == 128 * ByteBits(c)[0] + 64 * ByteBits(c)[1] + 32 * ByteBits(c)[2] + 16 * ByteBits(c)[3]
               + 8 * ByteBits(c)[4] + 4 * ByteBits(c)[5] + 2 * ByteBits(c)[6] + ByteBits(c)[7]
  {
    Halve(c, 1);
    Halve(c, 2);
    Halve(c, 4);
    Halve(c, 8);
    Halve(c, 16);
    Halve(c, 32);
    Halve(c, 64);
    assert c / 128 % 2 == c / 128;
  }

  lemma Halve(c: nat, p: nat)
    requires p > 0
    ensures c / p == 2 * (c / (2 * p)) + c / p % 2
  {
    DivDiv(c, p, 2);
    assert p * 2 == 2 * p;
  }

  // A string of bytes is determined by its bits.
  lemma {:induction false} AllBitsInjective(a: seq<byte>, b: seq<byte>)
    requires AllBits(a) == AllBits(b)
    ensures a == b
  {
    if a != [] {
      assert |b| == |a|;
      assert ByteBits(a[0]) == AllBits(a)[..8] == ByteBits(b[0]);
      ByteBitsInjective(a[0], b[0]);
      assert AllBits(a[1..]) == AllBits(a)[8..] == AllBits(b[1..]);
      AllBitsInjective(a[1..], b[1..]);
    }
  }

  lemma {:induction false} AllBitsSnoc(input: seq<byte>, c: byte)
    ensures AllBits(input + [c]) == AllBits(input) + ByteBits(c)
  {
    if input == [] {
      assert input + [c] == [c] && AllBits([c]) == ByteBits(c) + AllBits([]);
    } else {
      assert (input + [c])[1..] == input[1..] + [c];
      AllBitsSnoc(input[1..], c);
    }
  }

  // ---------------------------------------------------------------- the coder

  class Encoder {
    var x1: nat
    var x2: nat
    var out: seq<byte>

    constructor ()
      ensures Now() == FULL && out == []
    {
      x1, x2, out := 0, WORD - 1, [];
    }

    ghost function Now(): Range
      reads this
    {
      Range(x1, x2)
    }

    method Encode(bit: nat, p: nat)
      requires Open(Now()) && p <= 4095
      modifies this
      ensures Open(Now())
      ensures (Now(), out) == (Step(old(Now()), p, bit).0, old(out) + Step(old(Now()), p, bit).1)
    {
      hide Settle, Step;
      ghost var r := Now();
      MidInside(r, p);
      var xmid := x1 + (x2 - x1) / 4096 * p;
      if bit != 0 {
        x2 := xmid;
      } else {
        x1 := xmid + 1;
      }
      assert Now() == Narrow(r, p, bit);
      StepIs(r, p, bit);
      Settled();
    }

    // Writes the settled bytes.
    method Settled()
      requires x1 <= x2 < WORD
      modifies this
      ensures Open(Now())
      ensures (Now(), out) == (Settle(old(Now())).0, old(out) + Settle(old(Now())).1)
    {
      hide Settle;
      SettleOpens(Now());
      while x1 / TOP == x2 / TOP
        invariant x1 <= x2 < WORD
        invariant out + Settle(Now()).1 == old(out + Settle(Now()).1) && Settle(Now()).0 == old(Settle(Now()).0)
        decreases WORD - (x2 - x1)
      {
        ShiftFacts(Now());
        SettleIs(Now());
        out := out + [x2 / TOP];
        x1, x2 := x1 * 256 % WORD, (x2 * 256 + 255) % WORD;
      }
      SettleIs(Now());
      assert out + [] == out;
    }

    method Flush()
      requires x1 < WORD
      modifies `out
      ensures out == old(out) + WordBytes(x1)
    {
      out := out + [x1 / TOP];
      out := out + [x1 / 0x1_0000 % 256];
      out := out + [x1 / 256 % 256];
      out := out + [x1 % 256];
    }
  }

  class Decoder {
    var x1: nat
    var x2: nat
    var x: nat
    const src: seq<byte>
    var pos: nat

    // The code value is the word before the reading position, and stays in the range,
    // whatever the stream.
    ghost predicate Valid()
      reads this
    {
      Open(Now()) && pos >= 4 && x == WordAt(src, pos - 4) && x1 <= x <= x2
    }

    ghost function Now(): Range
      reads this
    {
      Range(x1, x2)
    }

    constructor (src: seq<byte>)
      ensures Valid() && Now() == FULL && pos == 4 && this.src == src
    {
      this.src := src;
      x1, x2, x, pos := 0, WORD - 1, 0, 0;
      new;
      for i := 0 to 4
        modifies this
        invariant pos == i && x1 == 0 && x2 == WORD - 1
        invariant x == Leading(src, i)
      {
        LeadingWord(src);
        assert x < TOP;
        var b := Next();
        x := x * 256 % WORD + b;
      }
      LeadingWord(src);
    }

    // The next byte, zero past the end of the stream.
    method Next() returns (b: byte)
      modifies `pos
      ensures b == ByteAt(src, old(pos)) && pos == old(pos) + 1
    {
      b := if pos < |src| then src[pos] else 0;
      pos := pos + 1;
    }

    method Decode(p: nat) returns (bit: nat)
      requires Valid() && p <= 4095
      modifies this
      ensures Valid() && bit == (if old(x) <= Mid(old(Now()), p) then 1 else 0)
      ensures (Now(), pos) == (Step(old(Now()), p, bit).0, old(pos) + |Step(old(Now()), p, bit).1|)
    {
      hide Settle, Step, WordAt;
      ghost var r := Now();
      MidInside(r, p);
      var xmid := x1 + (x2 - x1) / 4096 * p;
      if x <= xmid {
        x2 := xmid;
        bit := 1;
      } else {
        x1 := xmid + 1;
        bit := 0;
      }
      assert Now() == Narrow(r, p, bit);
      StepIs(r, p, bit);
      Settled();
    }

    // Drops the settled bytes, reading as many.
    method Settled()
      requires x1 <= x <= x2 < WORD && pos >= 4 && x == WordAt(src, pos - 4)
      modifies this
      ensures Valid()
      ensures (Now(), pos) == (Settle(old(Now())).0, old(pos) + |Settle(old(Now())).1|)
    {
      hide Settle, WordAt, ByteAt, Shift;
      ghost var r0 := Now();
      SettleOpens(r0);
      while x1 / TOP == x2 / TOP
        modifies this
        invariant pos >= 4 && x == WordAt(src, pos - 4) && x1 <= x <= x2 < WORD
        invariant pos + |Settle(Now()).1| == old(pos) + |Settle(r0).1| && Settle(Now()).0 == Settle(r0).0
        decreases WORD - (x2 - x1)
      {
        SettledOn(Now(), src, pos - 4, x);
        x1, x2 := x1 * 256 % WORD, (x2 * 256 + 255) % WORD;
        var b := Next();
        x := x * 256 % WORD + b;
      }
      SettleIs(Now());
    }
  }

  // One settled byte dropped and the next one read.
  lemma SettledOn(r: Range, src: seq<byte>, at: nat, x: nat)
    requires r.x1 <= x <= r.x2 < WORD && r.x1 / TOP == r.x2 / TOP && x == WordAt(src, at)
    ensures Shift(r) == Range(r.x1 * 256 % WORD, (r.x2 * 256 + 255) % WORD)
    ensures Shift(r).x1 <= x * 256 % WORD + ByteAt(src, at + 4) <= Shift(r).x2 < WORD
    ensures x * 256 % WORD + ByteAt(src, at + 4) == WordAt(src, at + 1)
    ensures Settle(r).0 == Settle(Shift(r)).0 && |Settle(r).1| == 1 + |Settle(Shift(r)).1|
    ensures Shift(r).x2 - Shift(r).x1 > r.x2 - r.x1
  {
    hide Settle, WordAt, ByteAt;
    ShiftFacts(r);
    SettleIs(r);
    WordAtNext(src, at);
    ShiftValue(r, x, ByteAt(src, at + 4));
  }

  // The first i bytes of a stream as a number.
  ghost function Leading(src: seq<byte>, i: nat): nat {
    if i == 0 then 0 else Leading(src, i - 1) * 256 + ByteAt(src, i - 1)
  }

  lemma LeadingWord(src: seq<byte>)
    ensures Leading(src, 3) < TOP && Leading(src, 2) < TOP && Leading(src, 1) < TOP && Leading(src, 0) < TOP
    ensures Leading(src, 4) == WordAt(src, 0)
  {
    assert Leading(src, 1) == ByteAt(src, 0);
    assert Leading(src, 2) == Leading(src, 1) * 256 + ByteAt(src, 1);
    assert Leading(src, 3) == Leading(src, 2) * 256 + ByteAt(src, 2);
  }

  // ---------------------------------------------------------------- whole inputs

  lemma ByteBit(c: byte, i: nat)
    requires i < 8
    ensures ByteBits(c)[7 - i] == c / Pow2(i) % 2
  {
    assert Pow2(1) == 2;
    assert Pow2(2) == 4;
    assert Pow2(3) == 8;
    assert Pow2(4) == 16;
    assert Pow2(5) == 32;
    assert Pow2(6) == 64;
    assert Pow2(7) == 128;
  }

  method Encode<S(!new)>(pr: Predictor<S>, init: S, input: seq<byte>) returns (out: seq<byte>)
    requires TwelveBits(pr)
    ensures out == Code(pr, init, FULL, AllBits(input))
  {
    hide Code, ByteBits, Open, TwelveBits;
    FullOpen();
    var enc := new Encoder();
    var s := init;
    assert input[0..] == input;
    for k := 0 to |input|
      invariant Open(enc.Now())
      invariant enc.out + Code(pr, s, enc.Now(), AllBits(input[k..])) == Code(pr, init, FULL, AllBits(input))
    {
      var c := input[k];
      var i := 8;
      assert AllBits(input[k..]) == ByteBits(c) + AllBits(input[k + 1..]) by { assert input[k..][1..] == input[k + 1..]; }
      assert ByteBits(c)[8 - i..] == ByteBits(c);
      while i > 0
        modifies enc
        invariant i <= 8 && Open(enc.Now())
        invariant enc.out + Code(pr, s, enc.Now(), ByteBits(c)[8 - i..] + AllBits(input[k + 1..]))
               == Code(pr, init, FULL, AllBits(input))
      {
        ghost var bits := ByteBits(c)[8 - i..] + AllBits(input[k + 1..]);
        i := i - 1;
        var bit := c / Pow2(i) % 2;
        ByteBit(c, i);
        assert bits[0] == bit && bits[1..] == ByteBits(c)[8 - i..] + AllBits(input[k + 1..]);
        CodeStep(pr, s, enc.Now(), bits);
        InRange(pr, s);
        enc.Encode(bit, pr.p(s));
        s := pr.update(s, bit);
      }
      assert ByteBits(c)[8..] + AllBits(input[k + 1..]) == AllBits(input[k + 1..]);
    }
    assert input[|input|..] == [];
    CodeEnd(pr, s, enc.Now());
    enc.Flush();
    out := enc.out;
  }

  lemma FullOpen()
    ensures Open(FULL)
  {
  }

  lemma InRange<S(!new)>(pr: Predictor<S>, s: S)
    requires TwelveBits(pr)
    ensures 0 <= pr.p(s) <= 4095
  {
  }

  lemma CodeEnd<S(!new)>(pr: Predictor<S>, s: S, r: Range)
    requires TwelveBits(pr) && Open(r)
    ensures r.x1 < WORD && Code(pr, s, r, AllBits([])) == WordBytes(r.x1)
  {
  }

  lemma CodeStep<S(!new)>(pr: Predictor<S>, s: S, r: Range, bits: seq<nat>)
    requires TwelveBits(pr) && Open(r) && bits != []
    ensures 0 <= pr.p(s) <= 4095
    ensures var (r', bytes) := Step(r, pr.p(s), bits[0]);
      Code(pr, s, r, bits) == bytes + Code(pr, pr.update(s, bits[0]), r', bits[1..])
  {
  }

  ghost function Spell(bits: seq<nat>): nat {
    if bits == [] then 0 else 2 * Spell(bits[..|bits| - 1]) + bits[|bits| - 1]
  }

  lemma SpellBits(b: seq<nat>)
    requires |b| == 8 && AreBits(b)
    ensures Spell(b) < 256 && ByteBits(Spell(b)) == b
  {
    hide Spell, ByteBits, Pow2;
    SpellFits(b);
    Pow2Words();
    var c := Spell(b);
    forall k | 0 <= k < 8 ensures ByteBits(c)[k] == b[k] {
      SpellBit(b, 7 - k);
      ByteBit(c, 7 - k);
    }
  }

  lemma SpellLast(b: seq<nat>)
    requires b != [] && AreBits(b)
    ensures var m := b[..|b| - 1];
      AreBits(m) && Spell(b) == 2 * Spell(m) + b[|b| - 1] && Spell(b) / 2 == Spell(m) && Spell(b) % 2 == b[|b| - 1] <= 1
  {
  }

  lemma {:induction false} SpellFits(b: seq<nat>)
    requires AreBits(b)
    ensures Spell(b) < Pow2(|b|)
  {
    if b != [] {
      SpellLast(b);
      SpellFits(b[..|b| - 1]);
    }
  }

  // Bit j of the number, counted from the last one spelled.
  lemma {:induction false} SpellBit(b: seq<nat>, j: nat)
    requires AreBits(b) && j < |b|
    ensures Spell(b) / Pow2(j) % 2 == b[|b| - 1 - j]
  {
    hide Spell, Pow2, AreBits;
    SpellLast(b);
    NoPower();
    if j > 0 {
      SpellBit(b[..|b| - 1], j - 1);
      Pow2Add(1, j - 1);
      DivDiv(Spell(b), 2, Pow2(j - 1));
    } else {
      DivModIs(Spell(b), 1, Spell(b), 0);
    }
  }

  lemma NoPower()
    ensures Pow2(0) == 1 && Pow2(1) == 2
  {
  }

  lemma SpellNone()
    ensures AreBits([]) && Spell([]) == 0
  {
  }

  lemma SpellSnoc(b: seq<nat>, bit: nat)
    requires AreBits(b) && bit <= 1
    ensures AreBits(b + [bit]) && Spell(b + [bit]) == 2 * Spell(b) + bit
  {
    assert (b + [bit])[..|b|] == b;
  }

  // What a decoder has still to read.
  ghost function Remaining<S(!new)>(pr: Predictor<S>, s: S, dec: Decoder, n: nat): (bits: seq<nat>)
    requires TwelveBits(pr) && dec.Valid()
    reads dec
    ensures |bits| == n
  {
    Bits(pr, s, dec.Now(), dec.src, dec.pos - 4, n)
  }

  method DecodeBit<S(!new)>(pr: Predictor<S>, s: S, dec: Decoder, ghost n: nat) returns (bit: nat, s': S)
    requires TwelveBits(pr) && dec.Valid() && n > 0
    modifies dec
    ensures dec.Valid() && bit <= 1
    ensures old(Remaining(pr, s, dec, n)) == [bit] + Remaining(pr, s', dec, n - 1)
  {
    hide Bits, TwelveBits, Step, Mid, WordAt;
    InRange(pr, s);
    BitsStep(pr, s, dec.Now(), dec.src, dec.pos - 4, n);
    bit := dec.Decode(pr.p(s));
    s' := pr.update(s, bit);
  }

  // Eight bits, highest first.
  method DecodeByte<S(!new)>(pr: Predictor<S>, s: S, dec: Decoder, ghost n: nat) returns (c: byte, s': S)
    requires TwelveBits(pr) && dec.Valid() && n >= 8
    modifies dec
    ensures dec.Valid()
    ensures old(Remaining(pr, s, dec, n)) == ByteBits(c) + Remaining(pr, s', dec, n - 8)
  {
    hide Remaining, ByteBits, TwelveBits, AreBits, Spell, Open, WordAt;
    s' := s;
    var v := 0;
    ghost var b: seq<nat> := [];
    ghost var all := Remaining(pr, s, dec, n);
    SpellNone();
    for j := 0 to 8
      modifies dec
      invariant dec.Valid()
      invariant |b| == j && AreBits(b) && v == Spell(b)
      invariant b + Remaining(pr, s', dec, n - j) == all
    {
      var bit;
      bit, s' := DecodeBit(pr, s', dec, n - j);
      v := 2 * v + bit;
      SpellSnoc(b, bit);
      Assoc(b, [bit], Remaining(pr, s', dec, n - j - 1));
      b := b + [bit];
    }
    SpellBits(b);
    c := v;
  }

  // Decoding fills out, whatever the stream, and with the input when the stream is its code.
  method Decode<S(!new)>(pr: Predictor<S>, init: S, src: seq<byte>, out: array<byte>)
    requires TwelveBits(pr)
    modifies out
    ensures AllBits(out[..]) == Bits(pr, init, FULL, src, 0, 8 * out.Length)
    ensures forall input: seq<byte> :: |input| == out.Length && src == Code(pr, init, FULL, AllBits(input)) ==>
      out[..] == input
  {
    hide Bits, ByteBits, TwelveBits, Code, AllBits, WordAt;
    FullOpen();
    var dec := new Decoder(src);
    var s := init;
    var n := out.Length;
    ghost var all := Bits(pr, init, FULL, src, 0, 8 * n);
    AllBitsNone();
    for k := 0 to n
      modifies dec, out
      invariant dec.Valid() && dec.src == src
      invariant AllBits(out[..k]) + Remaining(pr, s, dec, 8 * (n - k)) == all
    {
      ghost var head := out[..k];
      ghost var before := AllBits(head);
      var c, s' := DecodeByte(pr, s, dec, 8 * (n - k));
      ghost var rest := Remaining(pr, s', dec, 8 * (n - k - 1));
      assert before + (ByteBits(c) + rest) == (before + ByteBits(c)) + rest;
      AllBitsSnoc(head, c);
      assert out[..k] == head;
      out[k] := c;
      s := s';
      assert out[..k + 1] == head + [c];
    }
    assert out[..n] == out[..];
    BitsNone(pr, s, dec.Now(), src, dec.pos - 4);
    DecodedInput(pr, init, src, out[..]);
  }

  lemma AllBitsNone()
    ensures AllBits([]) == []
  {
  }

  lemma DecodedInput<S(!new)>(pr: Predictor<S>, init: S, src: seq<byte>, out: seq<byte>)
    requires TwelveBits(pr) && Open(FULL) && AllBits(out) == Bits(pr, init, FULL, src, 0, 8 * |out|)
    ensures forall input: seq<byte> :: |input| == |out| && src == Code(pr, init, FULL, AllBits(input)) ==> out == input
  {
    forall input: seq<byte> | |input| == |out| && src == Code(pr, init, FULL, AllBits(input))
      ensures out == input
    {
      RoundTrip(pr, init, input);
      AllBitsInjective(out, input);
    }
  }

  lemma BitsNone<S(!new)>(pr: Predictor<S>, s: S, r: Range, src: seq<byte>, pos: nat)
    requires TwelveBits(pr) && Open(r)
    ensures Bits(pr, s, r, src, pos, 0) == []
  {
  }

  lemma BitsStep<S(!new)>(pr: Predictor<S>, s: S, r: Range, src: seq<byte>, pos: nat, n: nat)
    requires TwelveBits(pr) && Open(r) && n > 0
    ensures 0 <= pr.p(s) <= 4095
    ensures var bit := if WordAt(src, pos) <= Mid(r, pr.p(s)) then 1 else 0;
      var (r', bytes) := Step(r, pr.p(s), bit);
      Bits(pr, s, r, src, pos, n) == [bit] + Bits(pr, pr.update(s, bit), r', src, pos + |bytes|, n - 1)
  {
  }

  // The coder loses nothing, whatever the predictor.
  lemma RoundTrip<S(!new)>(pr: Predictor<S>, init: S, input: seq<byte>)
    requires TwelveBits(pr)
    ensures Bits(pr, init, FULL, Code(pr, init, FULL, AllBits(input)), 0, 8 * |input|) == AllBits(input)
  {
    var src := Code(pr, init, FULL, AllBits(input));
    assert src[0..] == src;
    BitsOfCode(pr, init, FULL, AllBits(input), src, 0);
  }
}
