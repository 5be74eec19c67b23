// The Adler-like checksum of src/format.rs, and its vector forms: src/neon_checksum.rs,
// a closed sum over 32-byte blocks, and src/x86_checksum.rs, a block at a time. All sums
// wrap at 32 bits.

module Checksums {
  import opened Common

  const BLOCK: nat := 32

  function Wrap(x: int): (r: nat)
    ensures r < 0x1_0000_0000
  {
    x % 0x1_0000_0000
  }

  // ---------------------------------------------------------------- wrapping

  lemma WrapShift(x: int, k: int)
    ensures Wrap(x + k * 0x1_0000_0000) == Wrap(x)
  {
    var w := 0x1_0000_0000;
    var q := x / w;
    assert x == w * q + x % w;
    DivModIs(x + k * w, w, q + k, x % w);
  }

  lemma Unwrapped(x: int) returns (k: int)
    ensures x == Wrap(x) + k * 0x1_0000_0000
  {
    k := x / 0x1_0000_0000;
  }

  lemma WrapAdd(x: int, y: int)
    ensures Wrap(Wrap(x) + y) == Wrap(x + y) && Wrap(x + Wrap(y)) == Wrap(x + y) && Wrap(Wrap(x) + Wrap(y)) == Wrap(x + y)
  {
    hide Wrap;
    var i := Unwrapped(x);
    var j := Unwrapped(y);
    WrapShift(Wrap(x) + y, i);
    WrapShift(x + Wrap(y), j);
    WrapShift(Wrap(x) + Wrap(y), i + j);
  }

  lemma WrapSub(x: int, y: int)
    ensures Wrap(Wrap(x) - Wrap(y)) == Wrap(x - y)
  {
    hide Wrap;
    var i := Unwrapped(x);
    var j := Unwrapped(y);
    WrapShift(Wrap(x) - Wrap(y), i - j);
  }

  lemma WrapMul(x: int, y: int)
    ensures Wrap(Wrap(x) * y) == Wrap(x * y) && Wrap(Wrap(x) * Wrap(y)) == Wrap(x * y)
  {
    hide Wrap;
    var i := Unwrapped(x);
    var j := Unwrapped(y);
    var a, b, w := Wrap(x), Wrap(y), 0x1_0000_0000;
    Products(a, i, y, w);
    WrapShift(a * y, i * y);
    Products(b, j, a, w);
    WrapShift(a * b, j * a);
  }

  lemma Products(a: int, i: int, y: int, w: int)
    ensures (a + i * w) * y == a * y + i * y * w && y * (a + i * w) == y * a + i * y * w
  {
  }

  lemma WrapTwice(x: int)
    ensures Wrap(Wrap(x)) == Wrap(x)
  {
  }

  // ---------------------------------------------------------------- the definition

  // The two sums without wrapping.
  function A(data: seq<byte>): int {
    if data == [] then 1 else A(data[..|data| - 1]) + data[|data| - 1]
  }

  function B(data: seq<byte>): int {
    if data == [] then 0 else B(data[..|data| - 1]) + A(data)
  }

  function Pack(a: nat, b: nat): nat {
    b % 0x1_0000 * 0x1_0000 + a % 0x1_0000
  }

  function Checksum(data: seq<byte>): nat {
    Pack(Wrap(A(data)), Wrap(B(data)))
  }

  // Two known answers.
  lemma KnownAnswers()
    ensures Checksum([]) == 1 && Checksum([1, 2]) == 0x6_0004
  {
    hide A, B, Wrap, Pack;
    var d: seq<byte> := [1, 2];
    SumsNone();
    SumsSnoc(d, 0);
    SumsSnoc(d, 1);
    assert d[..0] == [] && d[..2] == d;
    SmallPacks();
  }

  lemma SmallPacks()
    ensures Pack(Wrap(1), Wrap(0)) == 1 && Pack(Wrap(4), Wrap(6)) == 0x6_0004
  {
    hide Wrap, Pack;
    SmallPack(1, 0);
    SmallPack(4, 6);
  }

  lemma SmallPack(a: nat, b: nat)
    requires a < 0x1_0000 && b < 0x1_0000
    ensures Pack(Wrap(a), Wrap(b)) == b * 0x1_0000 + a
  {
    DivModIs(a, 0x1_0000_0000, 0, a);
    DivModIs(b, 0x1_0000_0000, 0, b);
    DivModIs(a, 0x1_0000, 0, a);
    DivModIs(b, 0x1_0000, 0, b);
  }

  lemma SumsNone()
    ensures A([]) == 1 && B([]) == 0
  {
  }

  lemma SumsSnoc(data: seq<byte>, i: nat)
    requires i < |data|
    ensures A(data[..i + 1]) == A(data[..i]) + data[i] && B(data[..i + 1]) == B(data[..i]) + A(data[..i + 1])
  {
    assert data[..i + 1][..i] == data[..i];
  }

  // The bytes from from on, one at a time.
  method Bytewise(data: seq<byte>, from: nat, a0: nat, b0: nat) returns (r: nat)
    requires from <= |data| && a0 == Wrap(A(data[..from])) && b0 == Wrap(B(data[..from]))
    ensures r == Checksum(data)
  {
    hide Wrap;
    var a, b := a0, b0;
    for i := from to |data|
      invariant a == Wrap(A(data[..i])) && b == Wrap(B(data[..i]))
    {
      SumsSnoc(data, i);
      WrapAdd(A(data[..i]), data[i]);
      WrapAdd(B(data[..i]), A(data[..i + 1]));
      a := Wrap(a + data[i]);
      b := Wrap(b + a);
    }
    assert data[..|data|] == data;
    r := Pack(a, b);
  }

  method Scalar(data: seq<byte>) returns (r: nat)
    ensures r == Checksum(data)
  {
    assert data[..0] == [];
    r := Bytewise(data, 0, 1, 0);
  }

  // ---------------------------------------------------------------- one block

  // The sum of a block's first n bytes, and their sum weighted from w down.
  function Plain(c: seq<byte>, n: nat): int
    requires n <= |c|
  {
    if n == 0 then 0 else Plain(c, n - 1) + c[n - 1]
  }

  function Weighted(c: seq<byte>, n: nat): int
    requires n <= |c|
  {
    if n == 0 then 0 else Weighted(c, n - 1) + (BLOCK - (n - 1)) * c[n - 1]
  }

  // Taking the first n bytes of a block into the sums.
  lemma {:induction false} BlockSums(data: seq<byte>, at: nat, c: seq<byte>, n: nat)
    requires at + BLOCK <= |data| && c == data[at..at + BLOCK] && n <= BLOCK
    ensures A(data[..at + n]) == A(data[..at]) + Plain(c, n)
    ensures B(data[..at + n]) == B(data[..at]) + n * A(data[..at]) + Weighted(c, n) - (BLOCK - n) * Plain(c, n)
  {
    hide A, B;
    if n > 0 {
      BlockSums(data, at, c, n - 1);
      SumsSnoc(data, at + n - 1);
      assert c[n - 1] == data[at + n - 1];
      Rearranged(n, A(data[..at]), Plain(c, n - 1), c[n - 1], Weighted(c, n - 1));
    }
  }

  lemma Rearranged(n: int, a: int, s: int, x: int, w: int)
    ensures (n - 1) * a + w - (BLOCK - (n - 1)) * s + (a + (s + x))
         == n * a + (w + (BLOCK - (n - 1)) * x) - (BLOCK - n) * (s + x)
  {
  }

  // ---------------------------------------------------------------- lanes

  // A byte with its weight.
  function Term(c: seq<byte>, j: nat): (t: nat)
    requires j < |c| == BLOCK
    ensures t <= 255 * (BLOCK - j)
  {
    TermFits(BLOCK - j, c[j]);
    (BLOCK - j) * c[j]
  }

  lemma TermFits(w: nat, x: byte)
    ensures 0 <= w * x <= 255 * w
  {
    MulMonotone(x, 255, w);
  }

  // Two neighbouring bytes, weighted; 63 * 255 is far below the 16-bit limit.
  function PairTerm(c: seq<byte>, p: nat): (t: nat)
    requires 2 * p + 1 < |c| == BLOCK
    ensures t <= 63 * 255
  {
    Term(c, 2 * p) + Term(c, 2 * p + 1)
  }

  lemma {:induction false} PairsAreWeighted(c: seq<byte>, p: nat)
    requires |c| == BLOCK && p <= 15
    ensures Weighted(c, 2 * p + 2) == Weighted(c, 2 * p) + PairTerm(c, p)
  {
    assert Weighted(c, 2 * p + 2) == Weighted(c, 2 * p + 1) + (BLOCK - (2 * p + 1)) * c[2 * p + 1];
    assert Weighted(c, 2 * p + 1) == Weighted(c, 2 * p) + (BLOCK - 2 * p) * c[2 * p];
  }

  lemma FourPairs(c: seq<byte>, g: nat)
    requires |c| == BLOCK && g < 4
    ensures Weighted(c, 8 * g + 8)
         == Weighted(c, 8 * g) + PairTerm(c, 4 * g) + PairTerm(c, 4 * g + 1) + PairTerm(c, 4 * g + 2) + PairTerm(c, 4 * g + 3)
  {
    hide Weighted, PairTerm;
    PairsAreWeighted(c, 4 * g);
    PairsAreWeighted(c, 4 * g + 1);
    PairsAreWeighted(c, 4 * g + 2);
    PairsAreWeighted(c, 4 * g + 3);
  }

  // Four bytes side by side.
  function Four(c: seq<byte>, i: nat): nat
    requires 4 * i + 3 < |c|
  {
    c[4 * i] as nat + c[4 * i + 1] as nat + c[4 * i + 2] as nat + c[4 * i + 3] as nat
  }

  lemma FoursArePlain(c: seq<byte>, i: nat)
    requires 4 * i + 3 < |c|
    ensures Plain(c, 4 * i + 4) == Plain(c, 4 * i) + Four(c, i)
  {
    assert Plain(c, 4 * i + 4) == Plain(c, 4 * i + 3) + c[4 * i + 3];
    assert Plain(c, 4 * i + 3) == Plain(c, 4 * i + 2) + c[4 * i + 2];
    assert Plain(c, 4 * i + 2) == Plain(c, 4 * i + 1) + c[4 * i + 1];
    assert Plain(c, 4 * i + 1) == Plain(c, 4 * i) + c[4 * i];
  }

  lemma EightFours(c: seq<byte>)
    requires |c| == BLOCK
    ensures Plain(c, BLOCK) == Four(c, 0) + Four(c, 1) + Four(c, 2) + Four(c, 3) + Four(c, 4) + Four(c, 5) + Four(c, 6) + Four(c, 7)
  {
    hide Four, Plain;
    EmptyWeighted(c);
    FoursArePlain(c, 0); FoursArePlain(c, 1); FoursArePlain(c, 2); FoursArePlain(c, 3);
    FoursArePlain(c, 4); FoursArePlain(c, 5); FoursArePlain(c, 6); FoursArePlain(c, 7);
  }

  lemma EmptyWeighted(c: seq<byte>)
    ensures Weighted(c, 0) == 0 && Plain(c, 0) == 0
  {
  }

  // ---------------------------------------------------------------- 32 bytes at a time

  // The sum of absolute differences from zero over eight bytes.
  function Sad(c: seq<byte>, i: nat): nat
    requires 8 * i + 7 < |c|
  {
    Four(c, 2 * i) + Four(c, 2 * i + 1)
  }

  // The pairwise multiply-add saturates at 16 bits, the one after it cannot overflow.
  function Dot(c: seq<byte>, q: nat): nat
    requires 4 * q + 3 < |c| == BLOCK
  {
    Min(PairTerm(c, 2 * q), 32767) + Min(PairTerm(c, 2 * q + 1), 32767)
  }

  lemma DotsAreWeighted(c: seq<byte>)
    requires |c| == BLOCK
    ensures Weighted(c, BLOCK) == Dot(c, 0) + Dot(c, 1) + Dot(c, 2) + Dot(c, 3) + Dot(c, 4) + Dot(c, 5) + Dot(c, 6) + Dot(c, 7)
  {
    hide Weighted, PairTerm;
    EmptyWeighted(c);
    FourPairs(c, 0); FourPairs(c, 1); FourPairs(c, 2); FourPairs(c, 3);
  }

  // The block form: each block is summed by lanes and folded in at once.
  method Avx2(data: seq<byte>) returns (r: nat)
    ensures r == Checksum(data)
  {
    hide Wrap, A, B, Weighted, Plain, Sad, Dot;
    var a, b, at := 1, 0, 0;
    assert data[..0] == [];
    EmptySums();
    while |data| - at >= 32
      invariant at <= |data| && a == Wrap(A(data[..at])) && b == Wrap(B(data[..at]))
    {
      var c := data[at..at + 32];
      var sum := BlockSum(c);
      var weighted := BlockWeighted(c);
      BlockFolds(data, at, c);
      b := Wrap(Wrap(b + Wrap(a * 32)) + weighted);
      a := Wrap(a + sum);
      at := at + 32;
    }
    r := Bytewise(data, at, a, b);
  }

  lemma EmptySums()
    ensures A([]) == 1 && B([]) == 0 && Wrap(1) == 1 && Wrap(0) == 0
  {
  }

  method BlockSum(c: seq<byte>) returns (sum: nat)
    requires |c| == BLOCK
    ensures sum == Wrap(Plain(c, BLOCK))
  {
    hide Wrap, Plain, Four;
    EightFours(c);
    WrapAdd(Sad(c, 0) + Sad(c, 1), Sad(c, 2));
    WrapAdd(Sad(c, 0) + Sad(c, 1) + Sad(c, 2), Sad(c, 3));
    sum := Wrap(Wrap(Wrap(Sad(c, 0) + Sad(c, 1)) + Sad(c, 2)) + Sad(c, 3));
  }

  method BlockWeighted(c: seq<byte>) returns (weighted: nat)
    requires |c| == BLOCK
    ensures weighted == Wrap(Weighted(c, BLOCK))
  {
    hide Wrap, Weighted, Dot;
    DotsAreWeighted(c);
    weighted := Wrap(Dot(c, 0) + Dot(c, 1));
    assert FirstDots(c, 1) == Dot(c, 0);
    assert FirstDots(c, 2) == Dot(c, 0) + Dot(c, 1);
    ghost var whole := Dot(c, 0) + Dot(c, 1);
    for q := 2 to 8
      invariant weighted == Wrap(whole)
      invariant whole == FirstDots(c, q)
    {
      WrapAdd(whole, Dot(c, q));
      weighted := Wrap(weighted + Dot(c, q));
      whole := whole + Dot(c, q);
    }
    AllDots(c);
  }

  function FirstDots(c: seq<byte>, n: nat): nat
    requires |c| == BLOCK && n <= 8
  {
    if n == 0 then 0 else FirstDots(c, n - 1) + Dot(c, n - 1)
  }

  lemma AllDots(c: seq<byte>)
    requires |c| == BLOCK
    ensures FirstDots(c, 8) == Dot(c, 0) + Dot(c, 1) + Dot(c, 2) + Dot(c, 3) + Dot(c, 4) + Dot(c, 5) + Dot(c, 6) + Dot(c, 7)
  {
    hide Dot;
    assert FirstDots(c, 8) == FirstDots(c, 7) + Dot(c, 7);
    assert FirstDots(c, 7) == FirstDots(c, 6) + Dot(c, 6);
    assert FirstDots(c, 6) == FirstDots(c, 5) + Dot(c, 5);
    assert FirstDots(c, 5) == FirstDots(c, 4) + Dot(c, 4);
    assert FirstDots(c, 4) == FirstDots(c, 3) + Dot(c, 3);
    assert FirstDots(c, 3) == FirstDots(c, 2) + Dot(c, 2);
    assert FirstDots(c, 2) == FirstDots(c, 1) + Dot(c, 1);
  }

  // Folding a block's two sums into the running ones.
  lemma BlockFolds(data: seq<byte>, at: nat, c: seq<byte>)
    requires at + BLOCK <= |data| && c == data[at..at + BLOCK]
    ensures Wrap(Wrap(A(data[..at])) + Wrap(Plain(c, BLOCK))) == Wrap(A(data[..at + BLOCK]))
    ensures Wrap(Wrap(Wrap(B(data[..at])) + Wrap(Wrap(A(data[..at])) * 32)) + Wrap(Weighted(c, BLOCK))) == Wrap(B(data[..at + BLOCK]))
  {
    hide Wrap, A, B, Weighted, Plain;
    BlockSums(data, at, c, BLOCK);
    var a, b := A(data[..at]), B(data[..at]);
    WrapAdd(a, Plain(c, BLOCK));
    WrapMul(a, 32);
    WrapAdd(b, 32 * a);
    WrapAdd(b + 32 * a, Weighted(c, BLOCK));
  }

  // ---------------------------------------------------------------- the closed form

  datatype Quad = Quad(a: nat, b: nat, c: nat, d: nat)

  function Across(v: Quad): nat {
    v.a + v.b + v.c + v.d
  }

  function Added(v: Quad, u: Quad): Quad {
    Quad(Wrap(v.a + u.a), Wrap(v.b + u.b), Wrap(v.c + u.c), Wrap(v.d + u.d))
  }

  function Scaled(u: Quad, k: nat): Quad {
    Quad(u.a * k, u.b * k, u.c * k, u.d * k)
  }

  lemma FourWraps(x: int, y: int, z: int, w: int)
    ensures Wrap(Wrap(x) + Wrap(y) + Wrap(z) + Wrap(w)) == Wrap(x + y + z + w)
  {
    hide Wrap;
    WrapAdd(x, y);
    WrapAdd(Wrap(x) + Wrap(y), Wrap(z));
    WrapAdd(x + y, z);
    WrapAdd(Wrap(x) + Wrap(y) + Wrap(z), Wrap(w));
    WrapAdd(x + y + z, w);
    WrapAdd(x + y, Wrap(z));
    WrapAdd(x + y + z, Wrap(w));
  }

  // Lanes may wrap freely: across them the sums agree.
  lemma AddedAcross(v: Quad, u: Quad)
    ensures Wrap(Across(Added(v, u))) == Wrap(Across(v) + Across(u))
  {
    hide Wrap;
    FourWraps(v.a + u.a, v.b + u.b, v.c + u.c, v.d + u.d);
  }

  lemma ScaledAcross(u: Quad, k: nat)
    ensures Across(Scaled(u, k)) == k * Across(u)
  {
  }

  // The four sums s32 of a block.
  function SumLanes(c: seq<byte>): Quad
    requires |c| == BLOCK
  {
    Quad(Four(c, 0) + Four(c, 4), Four(c, 1) + Four(c, 5), Four(c, 2) + Four(c, 6), Four(c, 3) + Four(c, 7))
  }

  // The four weighted sums of the eight bytes from 8 * g on.
  function WeightLanes(c: seq<byte>, g: nat): Quad
    requires |c| == BLOCK && g < 4
  {
    Quad(PairTerm(c, 4 * g), PairTerm(c, 4 * g + 1), PairTerm(c, 4 * g + 2), PairTerm(c, 4 * g + 3))
  }

  function Block(data: seq<byte>, k: nat): (c: seq<byte>)
    requires 32 * k + 32 <= |data|
    ensures |c| == BLOCK
  {
    data[32 * k..32 * k + 32]
  }

  function SumS(data: seq<byte>, n: nat): nat
    requires 32 * n <= |data|
  {
    if n == 0 then 0 else SumS(data, n - 1) + Across(SumLanes(Block(data, n - 1)))
  }

  function SumKS(data: seq<byte>, n: nat): int
    requires 32 * n <= |data|
  {
    if n == 0 then 0 else SumKS(data, n - 1) + (n - 1) * Across(SumLanes(Block(data, n - 1)))
  }

  // The weighted sums of lane group g.
  function SumW(data: seq<byte>, g: nat, n: nat): nat
    requires g < 4 && 32 * n <= |data|
  {
    if n == 0 then 0 else SumW(data, g, n - 1) + Across(WeightLanes(Block(data, n - 1), g))
  }

  lemma LanesAreTheBlock(c: seq<byte>)
    requires |c| == BLOCK
    ensures Across(SumLanes(c)) == Plain(c, BLOCK)
    ensures Across(WeightLanes(c, 0)) + Across(WeightLanes(c, 1)) + Across(WeightLanes(c, 2)) + Across(WeightLanes(c, 3)) == Weighted(c, BLOCK)
  {
    hide Four, PairTerm, Weighted, Plain;
    EmptyWeighted(c);
    EightFours(c);
    FourPairs(c, 0); FourPairs(c, 1); FourPairs(c, 2); FourPairs(c, 3);
  }

  function AllW(data: seq<byte>, n: nat): nat
    requires 32 * n <= |data|
  {
    SumW(data, 0, n) + SumW(data, 1, n) + SumW(data, 2, n) + SumW(data, 3, n)
  }

  // The closed form of both sums over n whole blocks.
  lemma {:induction false} Closed(data: seq<byte>, n: nat)
    requires 32 * n <= |data|
    ensures A(data[..32 * n]) == 1 + SumS(data, n)
    ensures B(data[..32 * n]) == 32 * n + 32 * ((n - 1) * SumS(data, n) - SumKS(data, n)) + AllW(data, n)
  {
    hide A, B, Across, SumLanes, WeightLanes;
    if n == 0 {
      EmptySums();
      assert data[..0] == [];
    } else {
      Closed(data, n - 1);
      var c := Block(data, n - 1);
      BlockSums(data, 32 * (n - 1), c, BLOCK);
      LanesAreTheBlock(c);
      CrossStep(n - 1, SumS(data, n - 1), SumKS(data, n - 1), Across(SumLanes(c)));
    }
  }

  lemma CrossStep(k: int, s: int, ks: int, x: int)
    ensures k * (s + x) - (ks + k * x) == (k - 1) * s - ks + s
  {
  }

  // What the lanes hold after n blocks.
  ghost predicate LanesHold(data: seq<byte>, n: nat, s: Quad, ks: Quad, w: seq<Quad>)
    requires 32 * n <= |data| && |w| == 4
  {
    && Wrap(Across(s)) == Wrap(SumS(data, n))
    && Wrap(Across(ks)) == Wrap(SumKS(data, n))
    && (forall g | 0 <= g < 4 :: Wrap(Across(w[g])) == Wrap(SumW(data, g, n)))
  }

  // One block more; the block counter k has wrapped too.
  lemma LanesStep(data: seq<byte>, n: nat, k: nat, s: Quad, ks: Quad, w: seq<Quad>, s1: Quad, ks1: Quad, w1: seq<Quad>)
    requires 32 * n + 32 <= |data| && k == Wrap(n) && |w| == |w1| == 4 && LanesHold(data, n, s, ks, w)
    requires s1 == Added(s, SumLanes(Block(data, n)))
    requires ks1 == Added(ks, Scaled(SumLanes(Block(data, n)), k))
    requires forall g | 0 <= g < 4 :: w1[g] == Added(w[g], WeightLanes(Block(data, n), g))
    ensures LanesHold(data, n + 1, s1, ks1, w1)
  {
    hide Wrap, Across, Added, Scaled, SumLanes, WeightLanes, Block;
    var u := SumLanes(Block(data, n));
    AddedAcross(s, u);
    WrapAdd(Across(s), Across(u));
    WrapAdd(SumS(data, n), Across(u));
    AddedAcross(ks, Scaled(u, k));
    ScaledAcross(u, k);
    WrapMul(n, Across(u));
    WrapAdd(Across(ks), k * Across(u));
    WrapAdd(SumKS(data, n), k * Across(u));
    WrapAdd(SumKS(data, n), n * Across(u));
    forall g | 0 <= g < 4 ensures Wrap(Across(w1[g])) == Wrap(SumW(data, g, n + 1)) {
      var v := WeightLanes(Block(data, n), g);
      AddedAcross(w[g], v);
      WrapAdd(Across(w[g]), Across(v));
      WrapAdd(SumW(data, g, n), Across(v));
    }
  }

  // The final combination, wrapped at every step, is the closed form.
  lemma Combined(n: nat, k: nat, s: int, ks: int, w: int)
    requires k == Wrap(n)
    ensures Wrap(Wrap(1 * Wrap(k * 32)) + Wrap(Wrap(Wrap(Wrap(k - 1) * Wrap(s)) - Wrap(ks)) * 32) + Wrap(w))
         == Wrap(32 * n + 32 * ((n - 1) * s - ks) + w)
  {
    hide Wrap;
    WrapMul(n, 32);
    WrapTwice(n * 32);
    WrapAdd(n, -1);
    WrapMul(n - 1, s);
    WrapTwice((n - 1) * s);
    WrapSub((n - 1) * s, ks);
    WrapMul((n - 1) * s - ks, 32);
    ThreeWraps(n * 32, ((n - 1) * s - ks) * 32, w);
  }

  lemma ThreeWraps(x: int, y: int, z: int)
    ensures Wrap(Wrap(x) + Wrap(y) + Wrap(z)) == Wrap(x + y + z)
    ensures Wrap(Wrap(Wrap(x) + Wrap(y)) + Wrap(z)) == Wrap(x + y + z)
  {
    hide Wrap;
    WrapAdd(x, y);
    WrapAdd(x + y, z);
    WrapAdd(Wrap(x) + Wrap(y), Wrap(z));
  }

  method Horizontal(v: Quad) returns (r: nat)
    ensures r == Wrap(Across(v))
  {
    r := Wrap(v.a + v.b + v.c + v.d);
  }

  // The closed form equals the scalar checksum, except that a block count which wraps to
  // zero makes it forget every whole block.
  method Neon(data: seq<byte>) returns (r: nat)
    ensures r == if |data| >= 32 && |data| / 32 % 0x1_0000_0000 == 0 then Checksum(data[|data| / 32 * 32..]) else Checksum(data)
  {
    hide Wrap, A, B, Across, Added, Scaled, SumLanes, WeightLanes, Checksum, LanesHold;
    var zero := Quad(0, 0, 0, 0);
    var s, ks, w := zero, zero, [zero, zero, zero, zero];
    var k: nat := 0;
    ghost var n: nat := 0;
    var at: nat := 0;
    LanesEmpty(data);
    while |data| - at >= 32
      invariant at == 32 * n <= |data| && k == Wrap(n) && |w| == 4
      invariant LanesHold(data, n, s, ks, w)
    {
      var c := data[at..at + 32];
      var u := SumLanes(c);
      var w1 := [Added(w[0], WeightLanes(c, 0)), Added(w[1], WeightLanes(c, 1)), Added(w[2], WeightLanes(c, 2)), Added(w[3], WeightLanes(c, 3))];
      LanesStep(data, n, k, s, ks, w, Added(s, u), Added(ks, Scaled(u, k)), w1);
      s, ks, w := Added(s, u), Added(ks, Scaled(u, k)), w1;
      WrapAdd(n, 1);
      k := Wrap(k + 1);
      n := n + 1;
      at := at + 32;
    }
    DivModIs(|data|, 32, n, |data| - at);
    WrapZero(n);
    if k > 0 {
      var sumS := Horizontal(s);
      var sumKS := Horizontal(ks);
      var all := Horizontal(Added(Added(w[0], w[1]), Added(w[2], w[3])));
      FourLanes(data, n, s, ks, w);
      var cross := Wrap(Wrap(Wrap(k - 1) * sumS) - sumKS);
      var b := Wrap(Wrap(Wrap(1 * Wrap(k * 32)) + Wrap(cross * 32)) + all);
      var a := Wrap(1 + sumS);
      Folded(data, n, k, s, ks, w);
      r := Bytewise(data, at, a, b);
    } else {
      EmptySums();
      assert data[at..][..0] == [];
      r := Bytewise(data[at..], 0, 1, 0);
      if n == 0 { assert data[at..] == data; }
    }
  }

  lemma LanesEmpty(data: seq<byte>)
    ensures LanesHold(data, 0, Quad(0, 0, 0, 0), Quad(0, 0, 0, 0), [Quad(0, 0, 0, 0), Quad(0, 0, 0, 0), Quad(0, 0, 0, 0), Quad(0, 0, 0, 0)])
    ensures Wrap(0) == 0
  {
  }

  lemma WrapZero(n: nat)
    ensures Wrap(n) == n % 0x1_0000_0000 && Wrap(0) == 0
  {
  }

  // The four weighted accumulators added up.
  lemma FourLanes(data: seq<byte>, n: nat, s: Quad, ks: Quad, w: seq<Quad>)
    requires 32 * n <= |data| && |w| == 4 && LanesHold(data, n, s, ks, w)
    ensures Wrap(Across(Added(Added(w[0], w[1]), Added(w[2], w[3])))) == Wrap(AllW(data, n))
  {
    hide Wrap, Across, Added;
    AddedAcross(Added(w[0], w[1]), Added(w[2], w[3]));
    AddedAcross(w[0], w[1]);
    AddedAcross(w[2], w[3]);
    WrapAdd(Across(Added(w[0], w[1])), Across(Added(w[2], w[3])));
    WrapAdd(Across(w[0]) + Across(w[1]), Across(w[2]) + Across(w[3]));
    FourWraps(Across(w[0]), Across(w[1]), Across(w[2]), Across(w[3]));
    FourWraps(SumW(data, 0, n), SumW(data, 1, n), SumW(data, 2, n), SumW(data, 3, n));
  }

  lemma Folded(data: seq<byte>, n: nat, k: nat, s: Quad, ks: Quad, w: seq<Quad>)
    requires 32 * n <= |data| && k == Wrap(n) && |w| == 4 && LanesHold(data, n, s, ks, w)
    ensures Wrap(1 + Wrap(Across(s))) == Wrap(A(data[..32 * n]))
    ensures Wrap(Wrap(Wrap(1 * Wrap(k * 32)) + Wrap(Wrap(Wrap(Wrap(k - 1) * Wrap(Across(s))) - Wrap(Across(ks))) * 32)) + Wrap(AllW(data, n)))
         == Wrap(B(data[..32 * n]))
  {
    hide Wrap, A, B, Across, SumS, SumKS, AllW;
    Closed(data, n);
    WrapAdd(1, SumS(data, n));
    Combined(n, k, SumS(data, n), SumKS(data, n), AllW(data, n));
    var x, y, z := Wrap(1 * Wrap(k * 32)), Wrap(Wrap(Wrap(k - 1) * Wrap(Across(s))) - Wrap(Across(ks))) * 32, AllW(data, n);
    WrapAdd(x + Wrap(y), Wrap(z));
  }

  // An input that meets the exception: 2^32 blocks of zeros but for the last byte.
  lemma ForgottenBlocks(zeros: seq<byte>)
    requires |zeros| == 0x20_0000_0000 - 1 && forall i | 0 <= i < |zeros| :: zeros[i] == 0
    ensures var data := zeros + [1];
      Checksum(data) != Checksum(data[|data| / 32 * 32..])
  {
    hide A, B;
    var data: seq<byte> := zeros + [1];
    ZeroSums(zeros);
    SumsSnoc(data, |zeros|);
    assert data[..|zeros|] == zeros && data[..|zeros| + 1] == data;
    EmptySums();
    DivModIs(|data|, 32, 0x1_0000_0000, 0);
    assert data[|data|..] == [];
  }

  lemma {:induction false} ZeroSums(zeros: seq<byte>)
    requires forall i | 0 <= i < |zeros| :: zeros[i] == 0
    ensures A(zeros) == 1 && B(zeros) == |zeros|
  {
    if zeros != [] { ZeroSums(zeros[..|zeros| - 1]); }
  }
}
