// src/fixlog.rs: base-2 logarithms with sixteen fraction bits, by squaring a mantissa of
// 62 fraction bits that is cut after every step.

module FixedLog {
  import opened Common

  const ROUNDS: nat := 16

  // ---------------------------------------------------------------- powers

  function Pow(v: nat, n: nat): nat {
    if n == 0 then 1 else v * Pow(v, n - 1)
  }

  lemma {:induction false} PowAdd(v: nat, a: nat, b: nat)
    ensures Pow(v, a + b) == Pow(v, a) * Pow(v, b)
  {
    if a > 0 {
      PowAdd(v, a - 1, b);
      Reassociate(v, Pow(v, a - 1), Pow(v, b));
    }
  }

  lemma Reassociate(a: nat, b: nat, c: nat)
    ensures a * (b * c) == a * b * c
  {
  }

  // ---------------------------------------------------------------- the algorithm

  // The position of the top bit.
  function TopBit(v: nat): (k: nat)
    requires v > 0
  {
    if v == 1 then 0 else 1 + TopBit(v / 2)
  }

  lemma {:induction false} TopBitBounds(v: nat)
    requires v > 0
    ensures Pow2(TopBit(v)) <= v < Pow2(TopBit(v) + 1)
  {
    if v > 1 { TopBitBounds(v / 2); }
  }

  lemma {:induction false} TopBitMonotone(v: nat, w: nat)
    requires 0 < v <= w
    ensures TopBit(v) <= TopBit(w)
  {
    if v > 1 { TopBitMonotone(v / 2, w / 2); }
  }

  // The mantissa with 62 fraction bits; a 64-bit value drops its lowest bit.
  function Mantissa(v: nat): nat
    requires v > 0
  {
    var k := TopBit(v);
    if k <= 62 then v * Pow2(62 - k) else v / Pow2(k - 62)
  }

  // One squaring: the next fraction bit and the mantissa brought back under two.
  function Squared(m: nat): nat {
    QuotientAtLeastZero(m * m, Pow2(62));
    m * m / Pow2(62)
  }

  function NextBit(m: nat): nat {
    if Squared(m) >= Pow2(63) then 1 else 0
  }

  function NextMantissa(m: nat): nat {
    if Squared(m) >= Pow2(63) then Squared(m) / 2 else Squared(m)
  }

  function MantissaAt(v: nat, i: nat): nat
    requires v > 0
  {
    if i == 0 then Mantissa(v) else NextMantissa(MantissaAt(v, i - 1))
  }

  function FractionAt(v: nat, i: nat): nat
    requires v > 0
  {
    if i == 0 then 0 else 2 * FractionAt(v, i - 1) + NextBit(MantissaAt(v, i - 1))
  }

  function Log(v: nat): nat
    requires v > 0
  {
    TopBit(v) * 0x1_0000 + FractionAt(v, ROUNDS)
  }

  // The loop.
  method Log2Q16(v: nat) returns (r: nat)
    requires 0 < v < Pow2(64)
    ensures r == Log(v)
  {
    hide Mantissa, NextBit, NextMantissa, Squared, TopBit, Pow2;
    var k := TopBit(v);
    var m, frac := Mantissa(v), 0;
    for i := 0 to ROUNDS
      invariant m == MantissaAt(v, i) && frac == FractionAt(v, i)
    {
      SquareStep(m);
      var sq := m * m / Pow2(62);
      frac := 2 * frac;
      if sq >= Pow2(63) {
        frac := frac + 1;
        m := sq / 2;
      } else {
        m := sq;
      }
    }
    r := k * 0x1_0000 + frac;
  }

  lemma SquareStep(m: nat)
    ensures m * m / Pow2(62) >= 0
    ensures NextBit(m) == if m * m / Pow2(62) >= Pow2(63) then 1 else 0
    ensures NextMantissa(m) == if m * m / Pow2(62) >= Pow2(63) then m * m / Pow2(62) / 2 else m * m / Pow2(62)
  {
    hide Pow2;
  }

  // ---------------------------------------------------------------- a mantissa stays one

  ghost predicate InRange(m: nat) {
    Pow2(62) <= m < Pow2(63)
  }

  lemma SixtyThree()
    ensures Pow2(63) == 2 * Pow2(62) && Pow2(64) == 2 * Pow2(63)
  {
    hide Pow2;
    Pow2Double(62);
    Pow2Double(63);
  }

  lemma Pow2Double(n: nat)
    ensures Pow2(n + 1) == 2 * Pow2(n)
  {
  }

  lemma SquaredRange(m: nat)
    requires InRange(m)
    ensures Pow2(62) <= Squared(m) < Pow2(64) && InRange(NextMantissa(m))
  {
    hide Pow2;
    SixtyThree();
    var p := Pow2(62);
    SquareBounds(m, p);
    DivMod(m * m, p);
    if Squared(m) < p { MulMonotone(Squared(m) + 1, p, p); }
    if Squared(m) >= 4 * p { MulMonotone(4 * p, Squared(m), p); }
  }

  lemma DivMod(x: nat, p: nat)
    requires p > 0
    ensures x == x / p * p + x % p && 0 <= x % p < p
  {
  }

  lemma SquareBounds(m: nat, p: nat)
    requires p <= m < 2 * p
    ensures p * p <= m * m < 4 * p * p
  {
    MulMonotone(p, m, p);
    MulMonotone(p, m, m);
    MulMonotone(m, 2 * p - 1, m);
    MulMonotone(m, 2 * p - 1, 2 * p - 1);
    assert (2 * p - 1) * (2 * p - 1) == 4 * p * p - 4 * p + 1;
  }

  lemma {:induction false} MantissaRange(v: nat, i: nat)
    requires 0 < v < Pow2(64)
    ensures InRange(MantissaAt(v, i))
  {
    hide Pow2;
    if i == 0 {
      FirstMantissa(v);
    } else {
      MantissaRange(v, i - 1);
      SquaredRange(MantissaAt(v, i - 1));
    }
  }

  // The first mantissa is the value scaled, less than one unit short of it.
  lemma FirstMantissa(v: nat)
    requires 0 < v < Pow2(64)
    ensures InRange(Mantissa(v)) && TopBit(v) <= 63
    ensures Mantissa(v) * Pow2(TopBit(v)) <= v * Pow2(62) < (Mantissa(v) + 1) * Pow2(TopBit(v))
  {
    hide Pow2, TopBit;
    var k := TopBit(v);
    TopBitBounds(v);
    SixtyThree();
    if k > 63 { Pow2Monotone(64, k); }
    if k <= 62 {
      var q := Pow2(62 - k);
      Pow2Add(k, 62 - k);
      Pow2Double(k);
      MulMonotone(Pow2(k), v, q);
      MulMonotone(v + 1, 2 * Pow2(k), q);
      Scaled(v, q, Pow2(k));
    } else {
      Pow2Add(62, 1);
      OnlyBit();
      Pow2Double(k);
      Halved(v, Pow2(62));
    }
  }

  lemma OnlyBit()
    ensures Pow2(1) == 2 && Pow2(0) == 1
  {
  }

  lemma Scaled(v: nat, q: nat, p: nat)
    requires p > 0
    ensures v * q * p == v * (p * q) && (v * q + 1) * p > v * (p * q) && (v + 1) * q == v * q + q && 2 * p * q == 2 * (p * q)
  {
    assert (v * q + 1) * p == v * q * p + p;
  }

  lemma Halved(v: nat, p: nat)
    requires p > 0
    ensures v / 2 * (p * 2) <= v * p < (v / 2 + 1) * (p * 2)
  {
    assert v == 2 * (v / 2) + v % 2;
    var h := v / 2;
    assert h * (p * 2) == 2 * h * p && (h + 1) * (p * 2) == 2 * h * p + 2 * p;
    MulMonotone(2 * h, v, p);
    MulMonotone(v, 2 * h + 1, p);
    assert (2 * h + 1) * p == 2 * h * p + p;
  }

  // ---------------------------------------------------------------- how close it comes

  // The scale of the mantissa after i rounds.
  function Exponent(v: nat, i: nat): nat
    requires v > 0
  {
    FractionAt(v, i) + TopBit(v) * Pow2(i)
  }

  // How many units the mantissa may fall short by then.
  function Slack(i: nat): nat {
    if i == 0 then 1 else 4 * Slack(i - 1) + 2
  }

  lemma {:induction false} SlackIs(i: nat)
    ensures 3 * Slack(i) + 2 == 5 * Pow2(2 * i)
  {
    if i > 0 {
      SlackIs(i - 1);
      Pow2Double(2 * i - 2);
      Pow2Double(2 * i - 1);
    }
  }

  lemma SlackSmall(i: nat)
    requires i < ROUNDS
    ensures Slack(i) <= Pow2(31) && Slack(i + 1) <= 2 * Pow2(62)
  {
    hide Slack, Pow2;
    SlackIs(i);
    SlackIs(i + 1);
    Pow2Monotone(2 * i, 30);
    Pow2Monotone(2 * i + 2, 62);
    Pow2Double(30);
  }

  // The mantissa at scale e brackets the power, up to its slack.
  ghost predicate Brackets(power: nat, m: nat, c: nat, e: nat) {
    m * e <= power * Pow2(62) < (m + c) * e
  }

  lemma StepExponent(v: nat, i: nat)
    requires v > 0
    ensures Exponent(v, i + 1) == 2 * Exponent(v, i) + NextBit(MantissaAt(v, i))
    ensures Pow(v, Pow2(i + 1)) == Pow(v, Pow2(i)) * Pow(v, Pow2(i))
  {
    hide Pow2, Pow, TopBit, NextBit;
    Pow2Double(i);
    PowAdd(v, Pow2(i), Pow2(i));
    assert TopBit(v) * (2 * Pow2(i)) == 2 * (TopBit(v) * Pow2(i));
  }

  lemma NextScale(v: nat, i: nat)
    requires v > 0
    ensures var e := Pow2(Exponent(v, i));
      Pow2(Exponent(v, i + 1)) == if NextBit(MantissaAt(v, i)) == 1 then 2 * (e * e) else e * e
  {
    hide Pow2, Pow, TopBit, Exponent, MantissaAt, Squared;
    StepExponent(v, i);
    Pow2Add(Exponent(v, i), Exponent(v, i));
    Pow2Double(2 * Exponent(v, i));
    BitSmall(MantissaAt(v, i));
  }

  lemma {:induction false} BracketsAt(v: nat, i: nat)
    requires 0 < v < Pow2(64) && i <= ROUNDS
    ensures Brackets(Pow(v, Pow2(i)), MantissaAt(v, i), Slack(i), Pow2(Exponent(v, i)))
  {
    hide Pow2, Pow, TopBit, Mantissa, MantissaAt, Slack, Brackets, Exponent;
    if i == 0 {
      BracketsFirst(v);
    } else {
      BracketsAt(v, i - 1);
      BracketsOn(v, i - 1);
    }
  }

  lemma BracketsFirst(v: nat)
    requires 0 < v < Pow2(64)
    ensures Brackets(Pow(v, Pow2(0)), MantissaAt(v, 0), Slack(0), Pow2(Exponent(v, 0)))
  {
    hide Pow2, Pow, TopBit, Mantissa, Brackets, Exponent;
    FirstBrackets(v);
    OnePower(v);
    StartExponent(v);
  }

  // One squaring.
  lemma BracketsOn(v: nat, i: nat)
    requires 0 < v < Pow2(64) && i < ROUNDS
    requires Brackets(Pow(v, Pow2(i)), MantissaAt(v, i), Slack(i), Pow2(Exponent(v, i)))
    ensures Brackets(Pow(v, Pow2(i + 1)), MantissaAt(v, i + 1), Slack(i + 1), Pow2(Exponent(v, i + 1)))
  {
    hide Pow2, Pow, TopBit, NextBit, NextMantissa, Mantissa, Squared, Brackets, Exponent;
    MantissaRange(v, i);
    StepExponent(v, i);
    NextScale(v, i);
    SlackSmall(i);
    SlackPositive(i);
    BracketsNext(Pow(v, Pow2(i)), MantissaAt(v, i), Slack(i), Pow2(Exponent(v, i)));
  }

  lemma StartExponent(v: nat)
    requires v > 0
    ensures Exponent(v, 0) == TopBit(v) && Pow2(0) == 1
  {
  }

  lemma FirstBrackets(v: nat)
    requires 0 < v < Pow2(64)
    ensures Brackets(v, Mantissa(v), 1, Pow2(TopBit(v)))
  {
    hide Pow2, TopBit, Mantissa;
    FirstMantissa(v);
  }

  lemma SlackPositive(i: nat)
    ensures Slack(i) > 0
  {
  }

  lemma OnePower(v: nat)
    ensures Pow(v, 1) == v
  {
    assert Pow(v, 1) == v * Pow(v, 0);
  }

  lemma BracketsNext(power: nat, m: nat, c: nat, e: nat)
    requires Brackets(power, m, c, e) && InRange(m) && e > 0 && 0 < c <= Pow2(31)
    ensures Brackets(power * power, NextMantissa(m), 4 * c + 2, if NextBit(m) == 1 then 2 * (e * e) else e * e)
  {
    hide Pow2, Squared, NextBit, NextMantissa;
    var p, s := Pow2(62), Squared(m);
    SquareFacts(m);
    SlackSquare(c);
    LowerSquare(power, m, e, p, s);
    UpperSquare(power, m, c, e, p, s);
    NextIs(m);
    if NextBit(m) == 1 { HalvedBrackets(power * power * p, s, 4 * c + 2, e * e); }
  }

  lemma NextIs(m: nat)
    ensures NextBit(m) == 1 ==> NextMantissa(m) == Squared(m) / 2
    ensures NextBit(m) != 1 ==> NextMantissa(m) == Squared(m)
  {
  }

  lemma SquareFacts(m: nat)
    requires InRange(m)
    ensures Squared(m) * Pow2(62) <= m * m < (Squared(m) + 1) * Pow2(62) && m < 2 * Pow2(62)
  {
    hide Pow2;
    SixtyThree();
    DivMod(m * m, Pow2(62));
    OneUp(Squared(m), Pow2(62));
  }

  lemma OneUp(s: nat, p: nat)
    ensures (s + 1) * p == s * p + p
  {
  }

  lemma SlackSquare(c: nat)
    requires c <= Pow2(31)
    ensures c * c <= Pow2(62)
  {
    hide Pow2;
    Pow2Add(31, 31);
    Squares(c, Pow2(31));
  }

  lemma LowerSquare(power: nat, m: nat, e: nat, p: nat, s: nat)
    requires m * e <= power * p && s * p <= m * m && p > 0
    ensures s * (e * e) <= power * power * p
  {
    Squares(m * e, power * p);
    Shuffle(m, e);
    Shuffle(power, p);
    MulMonotone(s * p, m * m, e * e);
    Cancel(s * (e * e), power * power * p, p) by {
      assert s * (e * e) * p == s * p * (e * e) by { Commute(s, e * e, p); }
      assert power * power * p * p == power * power * (p * p) by { Reassociate(power * power, p, p); }
    }
  }

  lemma Commute(a: nat, b: nat, c: nat)
    ensures a * b * c == a * c * b
  {
  }

  lemma Squares(a: nat, b: nat)
    requires a <= b
    ensures a * a <= b * b
  {
    MulMonotone(a, b, a);
    MulMonotone(a, b, b);
  }

  lemma Shuffle(a: nat, b: nat)
    ensures (a * b) * (a * b) == (a * a) * (b * b)
  {
    var x := a * b;
    assert x * (a * b) == x * a * b;
    assert x * a == a * a * b by { Commute(a, b, a); }
    assert a * a * b * b == (a * a) * (b * b) by { Reassociate(a * a, b, b); }
  }

  lemma Cancel(a: nat, b: nat, p: nat)
    requires a * p <= b * p && p > 0
    ensures a <= b
  {
    if a > b { MulMonotone(b + 1, a, p); }
  }

  lemma CancelStrict(a: nat, b: nat, p: nat)
    requires a * p < b * p && p > 0
    ensures a < b
  {
    if a >= b { MulMonotone(b, a, p); }
  }

  // (m + c)^2 stays under s + 4c + 2 units.
  lemma SumSquare(m: nat, c: nat, p: nat, s: nat)
    requires m * m < (s + 1) * p && m < 2 * p && c * c <= p
    ensures (m + c) * (m + c) < (s + 4 * c + 2) * p
  {
    assert (m + c) * (m + c) == m * m + 2 * (m * c) + c * c;
    MulMonotone(m, 2 * p, c);
    assert 2 * p * c == 2 * (c * p);
    assert (s + 4 * c + 2) * p == (s + 1) * p + 4 * (c * p) + p;
  }

  lemma UpperSquare(power: nat, m: nat, c: nat, e: nat, p: nat, s: nat)
    requires power * p < (m + c) * e && m * m < (s + 1) * p && m < 2 * p && c * c <= p && p > 0 && e > 0
    ensures power * power * p < (s + 4 * c + 2) * (e * e)
  {
    var n, k := m + c, s + 4 * c + 2;
    SumSquare(m, c, p, s);
    StrictSquares(power * p, n * e);
    Shuffle(power, p);
    Shuffle(n, e);
    MulMonotone(n * n, k * p, e * e);
    CancelStrict(power * power * p, k * (e * e), p) by {
      assert k * (e * e) * p == k * p * (e * e) by { Commute(k, e * e, p); }
      assert power * power * p * p == power * power * (p * p) by { Reassociate(power * power, p, p); }
    }
  }

  lemma StrictSquares(a: nat, b: nat)
    requires a < b
    ensures a * a < b * b
  {
    MulMonotone(a, b, a);
    MulMonotone(a + 1, b, b);
    assert (a + 1) * b == a * b + b;
  }

  lemma HalvedBrackets(x: nat, s: nat, c: nat, e: nat)
    requires s * e <= x < (s + c) * e && c >= 1
    ensures s / 2 * (2 * e) <= x < (s / 2 + c) * (2 * e)
  {
    var h := s / 2;
    assert h * (2 * e) == 2 * h * e && (h + c) * (2 * e) == 2 * (h + c) * e;
    MulMonotone(2 * h, s, e);
    MulMonotone(s + c, 2 * (h + c), e);
  }

  // The logarithm is never above the true one and less than two units below it, for
  // every 64-bit value: 2^r <= v^65536 < 2^(r + 2).
  lemma LogBrackets(v: nat)
    requires 0 < v < Pow2(64)
    ensures Pow2(Log(v)) <= Pow(v, Pow2(16)) < Pow2(Log(v) + 2)
  {
    hide Pow2, Pow, TopBit, MantissaAt, FractionAt, Slack;
    BracketsAt(v, ROUNDS);
    MantissaRange(v, ROUNDS);
    SlackSmall(ROUNDS - 1);
    SixtyThree();
    Pow2Words();
    Pow2Double(Log(v));
    Pow2Double(Log(v) + 1);
    var p, e, x, m := Pow2(62), Pow2(Log(v)), Pow(v, Pow2(16)), MantissaAt(v, ROUNDS);
    assert Exponent(v, ROUNDS) == Log(v);
    Within(x, p, e, m, Slack(ROUNDS));
  }

  lemma Within(x: nat, p: nat, e: nat, m: nat, c: nat)
    requires p <= m < 2 * p && c <= 2 * p && m * e <= x * p < (m + c) * e && p > 0
    ensures e <= x < 4 * e
  {
    MulMonotone(p, m, e);
    Cancel(e, x, p) by { assert e * p == p * e; }
    MulMonotone(m + c, 4 * p, e);
    CancelStrict(x, 4 * e, p) by { assert 4 * e * p == 4 * p * e; }
  }

  // ---------------------------------------------------------------- order

  lemma {:induction false} FractionFits(v: nat, i: nat)
    requires v > 0
    ensures FractionAt(v, i) < Pow2(i)
  {
    hide NextMantissa, Mantissa, Squared;
    if i > 0 { FractionFits(v, i - 1); }
  }

  lemma NextMonotone(m: nat, n: nat)
    requires m <= n
    ensures NextBit(m) <= NextBit(n) && (NextBit(m) == NextBit(n) ==> NextMantissa(m) <= NextMantissa(n))
  {
    hide Pow2;
    Squares(m, n);
    QuotientMonotone(m * m, n * n, Pow2(62));
  }

  lemma QuotientMonotone(a: nat, b: nat, p: nat)
    requires a <= b && p > 0
    ensures a / p <= b / p
  {
    DivMod(a, p);
    DivMod(b, p);
    if a / p > b / p { MulMonotone(b / p + 1, a / p, p); }
  }

  // For values with the same top bit: fractions first, then mantissas.
  lemma {:induction false} RoundsMonotone(v: nat, w: nat, i: nat)
    requires 0 < v <= w && TopBit(v) == TopBit(w)
    ensures FractionAt(v, i) < FractionAt(w, i)
         || (FractionAt(v, i) == FractionAt(w, i) && MantissaAt(v, i) <= MantissaAt(w, i))
  {
    hide Pow2, TopBit, NextBit, NextMantissa, Squared;
    if i == 0 {
      var k := TopBit(v);
      if k <= 62 { MulMonotone(v, w, Pow2(62 - k)); } else { QuotientMonotone(v, w, Pow2(k - 62)); }
    } else {
      RoundsMonotone(v, w, i - 1);
      BitSmall(MantissaAt(v, i - 1));
      BitSmall(MantissaAt(w, i - 1));
      if MantissaAt(v, i - 1) <= MantissaAt(w, i - 1) { NextMonotone(MantissaAt(v, i - 1), MantissaAt(w, i - 1)); }
    }
  }

  lemma BitSmall(m: nat)
    ensures NextBit(m) <= 1
  {
  }

  lemma LogMonotone(v: nat, w: nat)
    requires 0 < v <= w
    ensures Log(v) <= Log(w)
  {
    hide Pow2, TopBit, FractionAt, MantissaAt;
    TopBitMonotone(v, w);
    FractionFits(v, ROUNDS);
    Pow2Words();
    if TopBit(v) == TopBit(w) {
      RoundsMonotone(v, w, ROUNDS);
    } else {
      MulMonotone(TopBit(v) + 1, TopBit(w), 0x1_0000);
    }
  }

  lemma {:induction false} TopBitOfPower(k: nat)
    ensures TopBit(Pow2(k)) == k
  {
    if k > 0 { TopBitOfPower(k - 1); }
  }

  lemma {:induction false} PowerRounds(k: nat, i: nat)
    requires k <= 63
    ensures MantissaAt(Pow2(k), i) == Pow2(62) && FractionAt(Pow2(k), i) == 0
  {
    hide Pow2, TopBit;
    if i == 0 {
      TopBitOfPower(k);
      if k <= 62 {
        Pow2Add(k, 62 - k);
      } else {
        Pow2Add(62, 1);
        OnlyBit();
      }
    } else {
      PowerRounds(k, i - 1);
      SixtyThree();
      DivModIs(Pow2(62) * Pow2(62), Pow2(62), Pow2(62), 0);
    }
  }

  // Powers of two come out exact.
  lemma LogOfPower(k: nat)
    requires k <= 63
    ensures Log(Pow2(k)) == k * 0x1_0000
  {
    hide Pow2, TopBit, FractionAt, MantissaAt;
    TopBitOfPower(k);
    PowerRounds(k, ROUNDS);
  }

  // ---------------------------------------------------------------- costs

  function SaturatingSub(a: nat, b: nat): nat {
    if a >= b then a - b else 0
  }

  // The cost of one symbol of count c in a total of t.
  method CostQ16(c: nat, t: nat) returns (r: nat)
    requires 0 < c < Pow2(64) && 0 < t < Pow2(64)
    ensures c <= t ==> r == Log(t) - Log(c)
    ensures c >= t ==> r == 0
  {
    hide Log, Pow2;
    var a := Log2Q16(t);
    var b := Log2Q16(c);
    if c <= t { LogMonotone(c, t); }
    if c >= t { LogMonotone(t, c); }
    r := SaturatingSub(a, b);
  }
}
