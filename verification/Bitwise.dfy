// Exclusive or on numbers, bit by bit.

module Bitwise {
  import opened Common

  type u32 = v: int | 0 <= v < 0x1_0000_0000

  function Xor(a: nat, b: nat): nat
    decreases a + b
  {
    if a == 0 then b else if b == 0 then a else (a % 2 + b % 2) % 2 + 2 * Xor(a / 2, b / 2)
  }

  lemma XorStep(a: nat, b: nat)
    ensures Xor(a, b) == (a % 2 + b % 2) % 2 + 2 * Xor(a / 2, b / 2)
    ensures Xor(a, b) / 2 == Xor(a / 2, b / 2) && Xor(a, b) % 2 == (a % 2 + b % 2) % 2
  {
  }

  lemma {:induction false} XorCommutes(a: nat, b: nat)
    ensures Xor(a, b) == Xor(b, a)
    decreases a + b
  {
    if a > 0 && b > 0 { XorCommutes(a / 2, b / 2); }
  }

  lemma {:induction false} XorAssociates(a: nat, b: nat, c: nat)
    ensures Xor(Xor(a, b), c) == Xor(a, Xor(b, c))
    decreases a + b + c
  {
    hide Xor;
    XorNone(a);
    XorNone(b);
    XorNone(c);
    XorNone(Xor(a, b));
    XorNone(Xor(b, c));
    if a > 0 && b > 0 && c > 0 {
      XorAssociates(a / 2, b / 2, c / 2);
      XorByBits(a, b, c);
    }
  }

  lemma XorByBits(a: nat, b: nat, c: nat)
    requires Xor(Xor(a / 2, b / 2), c / 2) == Xor(a / 2, Xor(b / 2, c / 2))
    ensures Xor(Xor(a, b), c) == Xor(a, Xor(b, c))
  {
    hide Xor;
    ThreeHalves(a, b, c);
    HalvesOfThree(a, b, c);
    ParityAssociates(a % 2, b % 2, c % 2);
    SameHalves(Xor(Xor(a, b), c), Xor(a, Xor(b, c)));
  }

  lemma ThreeHalves(a: nat, b: nat, c: nat)
    ensures Xor(Xor(a, b), c) / 2 == Xor(Xor(a / 2, b / 2), c / 2)
    ensures Xor(Xor(a, b), c) % 2 == ((a % 2 + b % 2) % 2 + c % 2) % 2
  {
    hide Xor;
    XorHalves(a, b);
    XorHalves(Xor(a, b), c);
  }

  lemma HalvesOfThree(a: nat, b: nat, c: nat)
    ensures Xor(a, Xor(b, c)) / 2 == Xor(a / 2, Xor(b / 2, c / 2))
    ensures Xor(a, Xor(b, c)) % 2 == (a % 2 + (b % 2 + c % 2) % 2) % 2
  {
    hide Xor;
    XorHalves(b, c);
    XorHalves(a, Xor(b, c));
  }

  lemma XorHalves(a: nat, b: nat)
    ensures Xor(a, b) / 2 == Xor(a / 2, b / 2) && Xor(a, b) % 2 == (a % 2 + b % 2) % 2
  {
    XorStep(a, b);
  }

  lemma SameHalves(x: nat, y: nat)
    requires x / 2 == y / 2 && x % 2 == y % 2
    ensures x == y
  {
  }

  lemma ParityAssociates(a: nat, b: nat, c: nat)
    requires a < 2 && b < 2 && c < 2
    ensures ((a + b) % 2 + c) % 2 == (a + (b + c) % 2) % 2
  {
  }

  lemma XorNone(a: nat)
    ensures Xor(a, 0) == a == Xor(0, a)
  {
  }

  lemma {:induction false} XorSelf(a: nat)
    ensures Xor(a, a) == 0
  {
    if a > 0 {
      XorStep(a, a);
      XorSelf(a / 2);
    }
  }

  // (a ^ b) ^ (c ^ d) == (a ^ c) ^ (b ^ d)
  lemma XorSwap(a: nat, b: nat, c: nat, d: nat)
    ensures Xor(Xor(a, b), Xor(c, d)) == Xor(Xor(a, c), Xor(b, d))
  {
    hide Xor;
    XorAssociates(a, b, Xor(c, d));
    XorAssociates(b, c, d);
    XorCommutes(b, c);
    XorAssociates(c, b, d);
    XorAssociates(a, c, Xor(b, d));
  }

  lemma {:induction false} XorFits(a: nat, b: nat, n: nat)
    requires a < Pow2(n) && b < Pow2(n)
    ensures Xor(a, b) < Pow2(n)
  {
    if n > 0 {
      XorStep(a, b);
      XorFits(a / 2, b / 2, n - 1);
    }
  }

  lemma XorFits32(a: u32, b: u32)
    ensures Xor(a, b) < 0x1_0000_0000
  {
    Pow2Words();
    XorFits(a, b, 32);
  }

  // Bits below and bits above do not meet.
  lemma {:induction false} XorParts(lo: nat, hi: nat, k: nat)
    requires lo < Pow2(k)
    ensures Xor(lo, Pow2(k) * hi) == lo + Pow2(k) * hi
    decreases k
  {
    hide Xor, Pow2;
    TwoTo(k);
    if k == 0 {
      XorNone(hi);
    } else {
      var p := Pow2(k - 1);
      XorStep(lo, Pow2(k) * hi);
      Halved(hi, p);
      XorParts(lo / 2, hi, k - 1);
    }
  }

  lemma TwoTo(k: nat)
    ensures Pow2(0) == 1 && (k > 0 ==> Pow2(k) == 2 * Pow2(k - 1))
  {
  }

  lemma Halved(hi: nat, p: nat)
    ensures (2 * p * hi) / 2 == p * hi && (2 * p * hi) % 2 == 0
  {
    assert 2 * p * hi == 2 * (p * hi);
  }

  // ---------------------------------------------------------------- bytes

  function XorByte(a: byte, b: byte): (r: byte)
  {
    XorFits8(a, b);
    Xor(a, b)
  }

  lemma XorFits8(a: byte, b: byte)
    ensures Xor(a, b) < 256
  {
    Pow2Words();
    XorFits(a, b, 8);
  }

  function XorBytes(a: seq<byte>, b: seq<byte>): (r: seq<byte>)
    requires |a| == |b|
    ensures |r| == |a| && forall i :: 0 <= i < |r| ==> r[i] == XorByte(a[i], b[i])
  {
    seq(|a|, i requires 0 <= i < |a| => XorByte(a[i], b[i]))
  }

  // Against the same bytes twice is nothing done.
  lemma XorBytesTwice(a: seq<byte>, b: seq<byte>)
    requires |a| == |b|
    ensures XorBytes(XorBytes(a, b), b) == a
  {
    hide XorBytes, Xor;
    forall i | 0 <= i < |a| ensures XorBytes(XorBytes(a, b), b)[i] == a[i] {
      XorAssociates(a[i], b[i], b[i]);
      XorSelf(b[i]);
      XorNone(a[i]);
    }
  }
}
