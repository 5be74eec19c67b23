// src/format.rs: CRC-32C. The byte-table form, and the form in three interleaved lanes
// whose registers are joined by the matrices of the CRC's shift, which is linear over
// GF(2). Registers are numbers below 2^32, their exclusive or is taken bit by bit.

module Crc {
  import opened Bitwise
  import opened Common

  const POLY: u32 := 0x82F6_3B78
  const ONES: u32 := 0xFFFF_FFFF
  const LANE: nat := 1024

  // The exponents of the Castagnoli polynomial below 32.
  const EXPONENTS: seq<nat> := [28, 27, 26, 25, 23, 22, 20, 19, 18, 14, 13, 11, 10, 9, 8, 6, 0]

  // The polynomial with its coefficients reflected: that of x^e is bit 31 - e.
  function Reflected(exponents: seq<nat>): nat {
    if exponents == [] then 0
    else (if exponents[0] <= 31 then Pow2(31 - exponents[0]) else 0) + Reflected(exponents[1..])
  }

  lemma ReflectedMore(e: nat, rest: seq<nat>)
    requires e <= 31
    ensures Reflected([e] + rest) == Pow2(31 - e) + Reflected(rest) && Reflected([]) == 0
  {
    assert ([e] + rest)[1..] == rest;
  }

  // The constant of the code is the Castagnoli polynomial x^32 + x^28 + ... + x^6 + 1.
  lemma PolyReflected()
    ensures POLY == Reflected(EXPONENTS)
  {
    hide Reflected, Pow2;
    Powers();
    ReflectedFour(28, 27, 26, 25, EXPONENTS[4..]);
    ReflectedFour(23, 22, 20, 19, EXPONENTS[8..]);
    ReflectedFour(18, 14, 13, 11, EXPONENTS[12..]);
    ReflectedFour(10, 9, 8, 6, [0]);
    ReflectedMore(0, []);
    assert EXPONENTS == [28, 27, 26, 25] + EXPONENTS[4..] && EXPONENTS[4..] == [23, 22, 20, 19] + EXPONENTS[8..];
    assert EXPONENTS[8..] == [18, 14, 13, 11] + EXPONENTS[12..] && EXPONENTS[12..] == [10, 9, 8, 6] + [0];
    assert [0] + [] == [0];
  }

  lemma ReflectedFour(a: nat, b: nat, c: nat, d: nat, rest: seq<nat>)
    requires a <= 31 && b <= 31 && c <= 31 && d <= 31
    ensures Reflected([a, b, c, d] + rest)
         == Pow2(31 - a) + Pow2(31 - b) + Pow2(31 - c) + Pow2(31 - d) + Reflected(rest)
  {
    hide Reflected, Pow2;
    ReflectedMore(a, [b, c, d] + rest);
    ReflectedMore(b, [c, d] + rest);
    ReflectedMore(c, [d] + rest);
    ReflectedMore(d, rest);
    assert [a, b, c, d] + rest == [a] + ([b, c, d] + rest) && [b, c, d] + rest == [b] + ([c, d] + rest);
    assert [c, d] + rest == [c] + ([d] + rest);
  }

  lemma Powers()
    ensures Pow2(3) == 8 && Pow2(4) == 16 && Pow2(5) == 32 && Pow2(6) == 64 && Pow2(8) == 256 && Pow2(9) == 512
    ensures Pow2(11) == 0x800 && Pow2(12) == 0x1000 && Pow2(13) == 0x2000 && Pow2(17) == 0x2_0000 && Pow2(18) == 0x4_0000
    ensures Pow2(20) == 0x10_0000 && Pow2(21) == 0x20_0000 && Pow2(22) == 0x40_0000 && Pow2(23) == 0x80_0000
    ensures Pow2(25) == 0x200_0000 && Pow2(31) == 0x8000_0000
  {
    hide Pow2;
    SmallPowers();
    Pow2Words();
    Pow2Add(8, 1);
    Pow2Add(8, 3);
    Pow2Add(8, 4);
    Pow2Add(8, 5);
    Pow2Add(16, 1);
    Pow2Add(16, 2);
    Pow2Add(16, 4);
    Pow2Add(16, 5);
    Pow2Add(16, 6);
    Pow2Add(17, 6);
    Pow2Add(20, 5);
    Pow2Add(25, 6);
  }

  lemma SmallPowers()
    ensures Pow2(1) == 2 && Pow2(2) == 4 && Pow2(3) == 8 && Pow2(4) == 16 && Pow2(5) == 32 && Pow2(6) == 64
  {
  }

  // ---------------------------------------------------------------- the register

  // One bit step of the reflected register.
  function BitStep(c: nat): nat {
    if c % 2 == 1 then Xor(POLY, c / 2) else c / 2
  }

  function Steps(c: nat, n: nat): nat {
    if n == 0 then c else BitStep(Steps(c, n - 1))
  }

  lemma BitStepLinear(a: nat, b: nat)
    ensures BitStep(Xor(a, b)) == Xor(BitStep(a), BitStep(b))
  {
    hide Xor;
    XorStep(a, b);
    var x, y := a / 2, b / 2;
    XorAssociates(POLY, x, y);
    XorCommutes(POLY, x);
    XorAssociates(x, POLY, y);
    XorSwap(POLY, x, POLY, y);
    XorSelf(POLY);
    XorNone(Xor(x, y));
  }

  lemma {:induction false} StepsLinear(a: nat, b: nat, n: nat)
    ensures Steps(Xor(a, b), n) == Xor(Steps(a, n), Steps(b, n))
  {
    hide Xor, BitStep;
    if n > 0 {
      StepsLinear(a, b, n - 1);
      BitStepLinear(Steps(a, n - 1), Steps(b, n - 1));
    }
  }

  lemma {:induction false} StepsAdd(c: nat, m: nat, n: nat)
    ensures Steps(Steps(c, m), n) == Steps(c, m + n)
  {
    hide BitStep;
    if n > 0 { StepsAdd(c, m, n - 1); }
  }

  lemma {:induction false} StepsFit(c: nat, n: nat)
    requires c < 0x1_0000_0000
    ensures Steps(c, n) < 0x1_0000_0000
  {
    hide Xor;
    if n > 0 {
      StepsFit(c, n - 1);
      XorFits32(POLY, Steps(c, n - 1) / 2);
    }
  }

  lemma {:induction false} StepsOfZero(n: nat)
    ensures Steps(0, n) == 0
  {
    hide Xor;
    if n > 0 { StepsOfZero(n - 1); }
  }

  // While only zero bits leave the register it is merely shifted.
  lemma {:induction false} StepsShift(c: nat, n: nat)
    ensures Steps(Pow2(n) * c, n) == c
    decreases n
  {
    hide Xor, Pow2;
    TwoTo(n);
    if n > 0 {
      Halved(c, Pow2(n - 1));
      StepsFront(Pow2(n) * c, n);
      StepsShift(c, n - 1);
    }
  }

  lemma {:induction false} StepsFront(c: nat, n: nat)
    requires n > 0
    ensures Steps(c, n) == Steps(BitStep(c), n - 1)
  {
    hide BitStep;
    StepsAdd(c, 1, n - 1);
    assert Steps(c, 1) == BitStep(Steps(c, 0));
  }

  // Taking in one byte, and a string of them.
  function Feed(c: nat, b: byte): nat {
    Steps(Xor(c, b), 8)
  }

  function Register(c: nat, data: seq<byte>): nat
    decreases |data|
  {
    if data == [] then c else Register(Feed(c, data[0]), data[1..])
  }

  function Crc(data: seq<byte>): nat {
    Xor(Register(ONES, data), ONES)
  }

  // Two known answers: nothing, and one byte of ones, which the first register's low bits
  // cancel.
  lemma KnownAnswers()
    ensures Crc([]) == 0 && Crc([255]) == 0xFF00_0000
  {
    hide Xor, Steps, Pow2;
    XorSelf(ONES);
    Pow2Words();
    Complement(255, 32);
    XorCommutes(ONES, 255);
    StepsShift(0xFF_FFFF, 8);
    Complement(0xFF_FFFF, 32);
    assert Feed(ONES, 255) == 0xFF_FFFF;
    assert Register(ONES, [255]) == Register(Feed(ONES, 255), []);
  }

  // Exclusive or with ones takes the complement.
  lemma {:induction false} Complement(a: nat, n: nat)
    requires a < Pow2(n)
    ensures Xor(a, Pow2(n) - 1) == Pow2(n) - 1 - a
  {
    hide Xor, Pow2;
    TwoTo(n);
    if n == 0 {
      XorNone(0);
    } else {
      var p := Pow2(n - 1);
      OnesHalved(a, p);
      XorStep(a, 2 * p - 1);
      Complement(a / 2, n - 1);
      NotHalved(a, p);
    }
  }

  lemma OnesHalved(a: nat, p: nat)
    requires p > 0 && a < 2 * p
    ensures (2 * p - 1) / 2 == p - 1 && (2 * p - 1) % 2 == 1 && a / 2 < p
  {
  }

  lemma NotHalved(a: nat, p: nat)
    ensures (a % 2 + 1) % 2 + 2 * (p - 1 - a / 2) == 2 * p - 1 - a
  {
  }

  lemma {:induction false} RegisterAppend(c: nat, a: seq<byte>, b: seq<byte>)
    ensures Register(c, a + b) == Register(Register(c, a), b)
    decreases |a|
  {
    hide Feed;
    if a == [] {
      assert a + b == b;
    } else {
      assert (a + b)[1..] == a[1..] + b;
      RegisterAppend(Feed(c, a[0]), a[1..], b);
    }
  }

  lemma RegisterSnoc(c: nat, data: seq<byte>, i: nat)
    requires i < |data|
    ensures Register(c, data[..i + 1]) == Feed(Register(c, data[..i]), data[i])
  {
    hide Feed;
    assert data[..i + 1] == data[..i] + [data[i]];
    RegisterAppend(c, data[..i], [data[i]]);
    assert [data[i]][1..] == [];
  }

  lemma {:induction false} RegisterFits(c: nat, data: seq<byte>)
    requires c < 0x1_0000_0000
    ensures Register(c, data) < 0x1_0000_0000
    decreases |data|
  {
    hide Xor, Steps;
    if data != [] {
      XorFits32(c, data[0]);
      StepsFit(Xor(c, data[0]), 8);
      RegisterFits(Feed(c, data[0]), data[1..]);
    }
  }

  // What the register held before some bytes only adds its shift over them.
  lemma {:induction false} RegisterSplits(c: nat, d: nat, data: seq<byte>)
    ensures Register(Xor(c, d), data) == Xor(Steps(c, 8 * |data|), Register(d, data))
    decreases |data|
  {
    hide Xor, Steps;
    if data == [] {
      NoSteps(c);
    } else {
      var b := data[0];
      XorAssociates(c, d, b);
      StepsLinear(c, Xor(d, b), 8);
      StepsAdd(c, 8, 8 * |data[1..]|);
      RegisterSplits(Steps(c, 8), Feed(d, b), data[1..]);
    }
  }

  lemma NoSteps(c: nat)
    ensures Steps(c, 0) == c
  {
  }

  // ---------------------------------------------------------------- the byte table

  method ByteTable() returns (t: seq<u32>)
    ensures |t| == 256 && forall i :: 0 <= i < 256 ==> t[i] == Steps(i, 8)
  {
    hide Steps, Xor;
    t := [];
    for i := 0 to 256
      invariant |t| == i && forall j :: 0 <= j < i ==> t[j] == Steps(j, 8)
    {
      var c: u32 := i;
      NoSteps(i);
      for k := 0 to 8
        invariant c == Steps(i, k)
      {
        XorFits32(POLY, c / 2);
        StepsNext(i, k);
        c := if c % 2 == 1 then Xor(POLY, c / 2) else c / 2;
      }
      t := t + [c];
    }
  }

  lemma StepsNext(c: nat, n: nat)
    ensures Steps(c, n + 1) == BitStep(Steps(c, n))
  {
  }

  // Looking up the low byte and shifting the rest is eight bit steps.
  lemma TableStep(c: nat, b: byte)
    ensures Xor(Steps(Xor(c, b) % 256, 8), c / 256) == Feed(c, b)
  {
    hide Xor, Steps, Pow2;
    var lo, hi := c % 256, c / 256;
    Pow2Words();
    XorFits(lo, b, 8);
    XorParts(lo, hi, 8);
    XorParts(Xor(lo, b), hi, 8);
    XorCommutes(lo, 256 * hi);
    XorAssociates(256 * hi, lo, b);
    XorCommutes(256 * hi, Xor(lo, b));
    DivModIs(Xor(c, b), 256, hi, Xor(lo, b));
    StepsLinear(Xor(lo, b), 256 * hi, 8);
    StepsShift(hi, 8);
  }

  method CrcTable(data: seq<byte>) returns (r: u32)
    ensures r == Crc(data)
  {
    hide Xor, Steps, Feed;
    var t := ByteTable();
    var c: u32 := ONES;
    assert data[..0] == [];
    for i := 0 to |data|
      invariant c == Register(ONES, data[..i])
    {
      TableStep(c, data[i]);
      RegisterSnoc(ONES, data, i);
      RegisterFits(ONES, data[..i + 1]);
      c := Xor(t[Xor(c, data[i]) % 256], c / 256);
    }
    assert data[..|data|] == data;
    XorFits32(c, ONES);
    r := Xor(c, ONES);
  }

  // ---------------------------------------------------------------- matrices over GF(2)

  // The product of a matrix, column by column from i on, and a vector.
  function Times(m: seq<u32>, v: nat, i: nat): nat
    requires |m| == 32 && i <= 32 && v < Pow2(32 - i)
    decreases 32 - i
  {
    if v == 0 then 0
    else Xor(if v % 2 == 1 then m[i] else 0, Times(m, v / 2, i + 1))
  }

  // The matrix of n bit steps.
  ghost predicate Represents(m: seq<u32>, n: nat) {
    |m| == 32 && forall i :: 0 <= i < 32 ==> m[i] == Steps(Pow2(i), n)
  }

  lemma {:induction false} TimesIs(m: seq<u32>, n: nat, v: nat, i: nat)
    requires Represents(m, n) && i <= 32 && v < Pow2(32 - i)
    ensures Times(m, v, i) == Steps(Pow2(i) * v, n)
    decreases 32 - i
  {
    hide Xor, Steps, Pow2, Represents;
    StepsOfZero(n);
    MatrixColumns(m, n, i);
    if v > 0 {
      TwoTo(32 - i);
      TimesIs(m, n, v / 2, i + 1);
      ColumnAndRest(m, n, v, i, Pow2(i + 1), v / 2);
    }
  }

  lemma MatrixColumns(m: seq<u32>, n: nat, i: nat)
    requires Represents(m, n)
    ensures |m| == 32 && (i < 32 ==> m[i] == Steps(Pow2(i), n))
  {
  }

  // The column of the vector's lowest bit, and the rest.
  lemma ColumnAndRest(m: seq<u32>, n: nat, v: nat, i: nat, p: nat, h: nat)
    requires |m| == 32 && i < 32 && p == Pow2(i + 1) && h == v / 2
    requires m[i] == Steps(Pow2(i), n)
    ensures Xor(if v % 2 == 1 then m[i] else 0, Steps(p * h, n)) == Steps(Pow2(i) * v, n)
  {
    hide Xor, Pow2, Steps;
    TwoTo(i + 1);
    var bit := if v % 2 == 1 then Pow2(i) else 0;
    XorParts(bit, v / 2, i + 1);
    assert v == 2 * (v / 2) + v % 2;
    Reassembled(Pow2(i), v / 2, v % 2);
    StepsLinear(bit, Pow2(i + 1) * (v / 2), n);
    StepsOfZero(n);
  }

  lemma Reassembled(p: nat, q: nat, r: nat)
    ensures p * r + 2 * p * q == p * (2 * q + r)
  {
  }

  method Gf2Times(m: seq<u32>, v: u32) returns (r: u32)
    requires |m| == 32
    ensures Pow2(32) == 0x1_0000_0000 && r == Times(m, v, 0)
  {
    hide Xor, Pow2, Times;
    Pow2Words();
    r := 0;
    var w: nat, i: nat := v, 0;
    XorNone(Times(m, v, 0));
    while w != 0
      invariant i <= 32 && w < Pow2(32 - i) && Xor(r, Times(m, w, i)) == Times(m, v, 0)
      decreases w
    {
      TimesStep(m, w, i);
      XorAssociates(r, if w % 2 == 1 then m[i] else 0, Times(m, w / 2, i + 1));
      XorNone(r);
      if w % 2 == 1 {
        XorFits32(r, m[i]);
        r := Xor(r, m[i]);
      }
      w := w / 2;
      i := i + 1;
    }
    NoTimes(m, i);
    XorNone(r);
  }

  lemma TimesStep(m: seq<u32>, w: nat, i: nat)
    requires |m| == 32 && i <= 32 && 0 < w < Pow2(32 - i)
    ensures i < 32 && w / 2 < Pow2(32 - (i + 1))
    ensures Times(m, w, i) == Xor(if w % 2 == 1 then m[i] else 0, Times(m, w / 2, i + 1))
  {
    hide Xor;
    TwoTo(32 - i);
  }

  lemma NoTimes(m: seq<u32>, i: nat)
    requires |m| == 32 && i <= 32
    ensures Times(m, 0, i) == 0
  {
  }

  // The composition of two maps, column by column.
  method Compose(a: seq<u32>, b: seq<u32>, ghost p: nat, ghost q: nat) returns (m: seq<u32>)
    requires Represents(a, p) && Represents(b, q)
    ensures Represents(m, p + q)
  {
    hide Steps, Pow2, Xor;
    m := [];
    for n := 0 to 32
      invariant |m| == n && forall i :: 0 <= i < n ==> m[i] == Steps(Pow2(i), p + q)
    {
      var column := Gf2Times(a, b[n]);
      TimesIs(a, p, b[n], 0);
      TwoTo(0);
      StepsAdd(Pow2(n), q, p);
      m := m + [column];
    }
  }

  // The matrix of one bit step.
  method OneBit() returns (m: seq<u32>)
    ensures Represents(m, 1)
  {
    hide Xor, Pow2, Steps;
    OneBitColumns();
    TwoTo(0);
    m := [POLY];
    for n := 1 to 32
      invariant |m| == n && forall i :: 0 <= i < n ==> m[i] == Steps(Pow2(i), 1)
    {
      Pow2Monotone(n - 1, 31);
      TwoTo(32);
      Pow2Words();
      m := m + [Pow2(n - 1)];
    }
  }

  lemma OneBitColumns()
    ensures Steps(Pow2(0), 1) == POLY && forall n :: 0 < n < 32 ==> Steps(Pow2(n), 1) == Pow2(n - 1)
  {
    assert Steps(1, 1) == BitStep(Steps(1, 0)) == Xor(POLY, 0);
    forall n: nat | 0 < n < 32 ensures Steps(Pow2(n), 1) == Pow2(n - 1) {
      assert Steps(Pow2(n), 1) == BitStep(Steps(Pow2(n), 0));
    }
  }

  // The maps of one, two and three lanes of zero bytes, by repeated squaring.
  method ShiftMatrices() returns (one: seq<u32>, two: seq<u32>, three: seq<u32>)
    ensures Represents(one, 8 * LANE) && Represents(two, 16 * LANE) && Represents(three, 24 * LANE)
  {
    hide Represents;
    var m := OneBit();
    var k := 1;
    while k < 8 * LANE
      invariant Represents(m, k) && (k == 1 || k == 2 || k == 4 || k == 8 || k == 16 || k == 32 || k == 64 || k == 128
        || k == 256 || k == 512 || k == 1024 || k == 2048 || k == 4096 || k == 8192)
      decreases 8 * LANE - k
    {
      m := Compose(m, m, k, k);
      k := 2 * k;
    }
    one := m;
    two := Compose(one, one, 8 * LANE, 8 * LANE);
    three := Compose(two, one, 16 * LANE, 8 * LANE);
  }

  // One table for each byte of the register.
  datatype Tables = Tables(t0: seq<u32>, t1: seq<u32>, t2: seq<u32>, t3: seq<u32>)

  ghost predicate ByteColumn(t: seq<u32>, n: nat, k: nat) {
    |t| == 256 && forall b :: 0 <= b < 256 ==> t[b] == Steps(Pow2(8 * k) * b, n)
  }

  ghost predicate TablesFor(t: Tables, n: nat) {
    ByteColumn(t.t0, n, 0) && ByteColumn(t.t1, n, 1) && ByteColumn(t.t2, n, 2) && ByteColumn(t.t3, n, 3)
  }

  method OneTable(m: seq<u32>, ghost n: nat, k: nat) returns (t: seq<u32>)
    requires Represents(m, n) && k < 4
    ensures ByteColumn(t, n, k)
  {
    hide Steps, Pow2, Xor, Represents, Times;
    MatrixColumns(m, n, 0);
    t := [];
    for b := 0 to 256
      invariant |t| == b && forall i :: 0 <= i < b ==> t[i] == Steps(Pow2(8 * k) * i, n)
    {
      ByteShifted(b, k);
      var e := Gf2Times(m, Pow2(8 * k) * b);
      TimesIs(m, n, Pow2(8 * k) * b, 0);
      TwoTo(0);
      t := t + [e];
    }
  }

  lemma ByteShifted(b: byte, k: nat)
    requires k < 4
    ensures Pow2(8 * k) * b < 0x1_0000_0000
  {
    hide Pow2;
    Pow2Add(8 * k, 8);
    Pow2Words();
    Pow2Monotone(8 * k + 8, 32);
    MulMonotone(b, 255, Pow2(8 * k));
  }

  method ByteTables(m: seq<u32>, ghost n: nat) returns (t: Tables)
    requires Represents(m, n)
    ensures TablesFor(t, n)
  {
    var t0 := OneTable(m, n, 0);
    var t1 := OneTable(m, n, 1);
    var t2 := OneTable(m, n, 2);
    var t3 := OneTable(m, n, 3);
    t := Tables(t0, t1, t2, t3);
  }

  function Apply(t: Tables, v: u32): nat
    requires |t.t0| == |t.t1| == |t.t2| == |t.t3| == 256
  {
    Xor(Xor(Xor(t.t0[v % 256], t.t1[v / 256 % 256]), t.t2[v / 0x1_0000 % 256]), t.t3[v / 0x100_0000])
  }

  lemma FourBytes(v: u32)
    ensures var a, b, c, d := v % 256, v / 256 % 256, v / 0x1_0000 % 256, v / 0x100_0000;
      Xor(Xor(Xor(Pow2(0) * a, Pow2(8) * b), Pow2(16) * c), Pow2(24) * d) == v && d < 256
  {
    hide Xor, Pow2;
    var a, b, c, d := v % 256, v / 256 % 256, v / 0x1_0000 % 256, v / 0x100_0000;
    TwoTo(0);
    Pow2Words();
    Pow2Add(8, 16);
    DivDiv(v, 256, 256);
    DivDiv(v, 0x1_0000, 256);
    assert v == 256 * (v / 256) + a && v / 256 == 256 * (v / 0x1_0000) + b && v / 0x1_0000 == 256 * d + c;
    XorParts(a, b, 8);
    XorParts(a + 256 * b, c, 16);
    XorParts(a + 256 * b + 0x1_0000 * c, d, 24);
  }

  lemma ApplyIs(t: Tables, n: nat, v: u32)
    requires TablesFor(t, n)
    ensures Apply(t, v) == Steps(v, n)
  {
    hide Xor, Pow2, Steps;
    var a, b, c, d := v % 256, v / 256 % 256, v / 0x1_0000 % 256, v / 0x100_0000;
    FourBytes(v);
    StepsLinear(Pow2(0) * a, Pow2(8) * b, n);
    StepsLinear(Xor(Pow2(0) * a, Pow2(8) * b), Pow2(16) * c, n);
    StepsLinear(Xor(Xor(Pow2(0) * a, Pow2(8) * b), Pow2(16) * c), Pow2(24) * d, n);
    assert t.t0[a] == Steps(Pow2(8 * 0) * a, n) && t.t1[b] == Steps(Pow2(8 * 1) * b, n);
    assert t.t2[c] == Steps(Pow2(8 * 2) * c, n) && t.t3[d] == Steps(Pow2(8 * 3) * d, n);
  }

  // ---------------------------------------------------------------- three lanes

  datatype Shift = Shift(one: Tables, two: Tables, three: Tables)

  ghost predicate ShiftFor(s: Shift) {
    TablesFor(s.one, 8 * LANE) && TablesFor(s.two, 16 * LANE) && TablesFor(s.three, 24 * LANE)
  }

  method CrcShift() returns (s: Shift)
    ensures ShiftFor(s)
  {
    hide Represents, TablesFor;
    var one, two, three := ShiftMatrices();
    var t1 := ByteTables(one, 8 * LANE);
    var t2 := ByteTables(two, 16 * LANE);
    var t3 := ByteTables(three, 24 * LANE);
    s := Shift(t1, t2, t3);
  }

  function Join(s: Shift, before: u32, a: u32, b: u32, c: u32): nat
    requires ShiftFor(s)
  {
    Xor(Xor(Xor(Apply(s.three, before), Apply(s.two, a)), Apply(s.one, b)), c)
  }

  // Joining the registers of three lanes, each from zero, is taking the lanes in one
  // after another.
  lemma JoinIs(s: Shift, before: u32, x: seq<byte>, y: seq<byte>, z: seq<byte>)
    requires ShiftFor(s) && |x| == |y| == |z| == LANE
    requires Register(0, x) < 0x1_0000_0000 && Register(0, y) < 0x1_0000_0000 && Register(0, z) < 0x1_0000_0000
    ensures Join(s, before, Register(0, x), Register(0, y), Register(0, z)) == Register(before, x + y + z)
  {
    hide Xor, Steps, Register, TablesFor, Apply;
    var n := 8 * LANE;
    var a, b, c := Register(0, x), Register(0, y), Register(0, z);
    ApplyIs(s.three, 3 * n, before);
    ApplyIs(s.two, 2 * n, a);
    ApplyIs(s.one, n, b);
    FromZero(before, x);
    FromZero(Register(before, x), y);
    FromZero(Register(before, x + y), z);
    RegisterAppend(before, x, y);
    RegisterAppend(before, x + y, z);
    StepsLinear(Steps(before, n), a, n);
    StepsLinear(Xor(Steps(before, 2 * n), Steps(a, n)), b, n);
    StepsLinear(Steps(before, 2 * n), Steps(a, n), n);
    StepsAdd(before, n, n);
    StepsAdd(before, 2 * n, n);
    StepsAdd(a, n, n);
  }

  lemma FromZero(c: nat, data: seq<byte>)
    ensures Register(c, data) == Xor(Steps(c, 8 * |data|), Register(0, data))
  {
    hide Xor, Steps, Register;
    XorNone(c);
    RegisterSplits(c, 0, data);
  }

  // The instruction that takes in eight bytes.
  function Feed8(c: u32, w: seq<byte>): (r: u32)
    requires |w| == 8
  {
    RegisterFits(c, w);
    Register(c, w)
  }

  lemma RegisterEight(c: nat, data: seq<byte>, from: nat, i: nat)
    requires from + i + 8 <= |data|
    ensures Register(c, data[from..from + i + 8]) == Register(Register(c, data[from..from + i]), data[from + i..from + i + 8])
  {
    hide Register;
    assert data[from..from + i + 8] == data[from..from + i] + data[from + i..from + i + 8];
    RegisterAppend(c, data[from..from + i], data[from + i..from + i + 8]);
  }

  // The three lanes of one stripe side by side, eight bytes of each at a time.
  method Stripe(data: seq<byte>, at: nat, c: u32, shift: Shift) returns (r: u32)
    requires at + 3 * LANE <= |data| && ShiftFor(shift)
    ensures r == Register(c, data[at..at + 3 * LANE])
  {
    hide Register, ShiftFor, Xor, Steps, Join;
    var pa, pb, pd := at, at + LANE, at + 2 * LANE;
    var a: u32, b: u32, d: u32 := 0, 0, 0;
    var i := 0;
    EmptyRegister(data, pa);
    EmptyRegister(data, pb);
    EmptyRegister(data, pd);
    while i < LANE
      invariant i <= LANE && i % 8 == 0
      invariant a == Register(0, data[pa..pa + i]) && b == Register(0, data[pb..pb + i]) && d == Register(0, data[pd..pd + i])
    {
      RegisterEight(0, data, pa, i);
      RegisterEight(0, data, pb, i);
      RegisterEight(0, data, pd, i);
      a := Feed8(a, data[pa + i..pa + i + 8]);
      b := Feed8(b, data[pb + i..pb + i + 8]);
      d := Feed8(d, data[pd + i..pd + i + 8]);
      i := i + 8;
    }
    JoinIs(shift, c, data[pa..pb], data[pb..pd], data[pd..pd + LANE]);
    assert data[at..at + 3 * LANE] == data[pa..pb] + data[pb..pd] + data[pd..pd + LANE];
    RegisterFits(c, data[at..at + 3 * LANE]);
    r := Join(shift, c, a, b, d);
  }

  lemma EmptyRegister(data: seq<byte>, at: nat)
    requires at <= |data|
    ensures Register(0, data[at..at]) == 0
  {
  }

  // The striped form gives the byte-table form's value for data of any length.
  method CrcStriped(data: seq<byte>) returns (r: u32)
    ensures r == Crc(data)
  {
    hide Register, ShiftFor, Xor;
    var c: u32, at := ONES, 0;
    assert data[..0] == [];
    NothingFed(ONES);
    if |data| >= 3 * LANE {
      var shift := CrcShift();
      while at + 3 * LANE <= |data|
        invariant at <= |data| && c == Register(ONES, data[..at])
      {
        RegisterOn(ONES, data, at, 3 * LANE);
        c := Stripe(data, at, c, shift);
        at := at + 3 * LANE;
      }
    }
    while at + 8 <= |data|
      invariant at <= |data| && c == Register(ONES, data[..at])
    {
      RegisterOn(ONES, data, at, 8);
      c := Feed8(c, data[at..at + 8]);
      at := at + 8;
    }
    while at < |data|
      invariant at <= |data| && c == Register(ONES, data[..at])
    {
      RegisterSnoc(ONES, data, at);
      RegisterFits(ONES, data[..at + 1]);
      c := Feed(c, data[at]);
      at := at + 1;
    }
    assert data[..at] == data;
    XorFits32(c, ONES);
    r := Xor(c, ONES);
  }

  lemma NothingFed(c: nat)
    ensures Register(c, []) == c
  {
  }

  lemma RegisterOn(c: nat, data: seq<byte>, at: nat, n: nat)
    requires at + n <= |data|
    ensures Register(c, data[..at + n]) == Register(Register(c, data[..at]), data[at..at + n])
  {
    hide Register;
    assert data[..at + n] == data[..at] + data[at..at + n];
    RegisterAppend(c, data[..at], data[at..at + n]);
  }
}
