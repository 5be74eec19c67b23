// src/huff8.rs, end to end: any bytes, from their histogram to a packed table of optimal
// lengths, a section of interleaved streams, and back.

module ByteHuffman {
  import opened Common
  import opened PrefixCodeTheory
  import opened CodeLengths
  import PackageMerge
  import opened CanonicalCodes
  import opened LengthTables
  import opened BitStreams
  import opened Sections
  import opened HuffmanStreams
  import opened HuffmanDecoder

  const MAX_CODE_LEN: nat := 11

  lemma Eleven()
    ensures Pow2(MAX_CODE_LEN) == 2048
  {
    Pow2Add(8, 3);
    assert Pow2(8) == 256 && Pow2(3) == 8;
  }

  lemma WiderShare(l: seq<nat>, a: nat, b: nat, s: nat)
    requires a <= b && s < |l| && Within(l, a) && Within(l, b)
    ensures CodeShares(l, b)[s] == Pow2(b - a) * CodeShares(l, a)[s]
  {
    hide Pow2;
    if l[s] > 0 { Pow2Add(b - a, a - l[s]); }
  }

  lemma Scaled(p: nat, x: int, y: int)
    requires x <= y
    ensures p * x <= p * y
  {
  }

  // Lengths within a limit are lengths within a wider one.
  lemma WiderLimit(counts: seq<nat>, l: seq<nat>, a: nat, b: nat)
    requires PrefixLengths(counts, l, a) && a <= b
    ensures PrefixLengths(counts, l, b)
  {
    hide Pow2;
    var p := Pow2(b - a);
    forall s | 0 <= s < |l| ensures CodeShares(l, b)[s] == p * CodeShares(l, a)[s] {
      WiderShare(l, a, b, s);
    }
    SumScale(CodeShares(l, a), CodeShares(l, b), p);
    Pow2Add(b - a, a);
    Scaled(p, CodeSpace(l, a), Pow2(a));
  }

  // Every entry is how often its byte occurs.
  ghost predicate CountsOf(data: seq<byte>, hist: seq<nat>) {
    |hist| == 256 && forall x: byte :: hist[x] == multiset(data)[x]
  }

  method Histogram(data: seq<byte>) returns (hist: seq<nat>)
    ensures CountsOf(data, hist)
  {
    var h := new nat[256](_ => 0);
    for i := 0 to |data|
      invariant forall x: byte :: h[x] == multiset(data[..i])[x]
    {
      assert data[..i + 1] == data[..i] + [data[i]];
      h[data[i]] := h[data[i]] + 1;
    }
    assert data[..|data|] == data;
    hist := h[..];
  }

  // Counted by symbol, the bits of some data are what its lengths cost.
  lemma {:induction false} BitsAreCost(data: seq<byte>, hist: seq<nat>, l: seq<nat>)
    requires CountsOf(data, hist) && |l| == 256
    ensures Bits(l, data) == Cost(hist, l)
  {
    hide Sum, Products;
    if data == [] {
      SumScale(Products(hist, l), Products(hist, l), 0);
    } else {
      var x := data[0];
      assert data == [x] + data[1..];
      var rest := hist[x := hist[x] - 1];
      BitsAreCost(data[1..], rest, l);
      OneLonger(hist[x], l[x]);
      assert Products(hist, l) == Products(rest, l)[x := hist[x] * l[x]];
      SumUpdate(Products(rest, l), x, hist[x] * l[x]);
    }
  }

  lemma OneLonger(n: nat, k: nat)
    requires n > 0
    ensures n * k == (n - 1) * k + k
  {
  }

  // No prefix code within the limit codes the data in fewer bits.
  ghost predicate FewestBits(l: seq<nat>, data: seq<byte>, limit: nat) {
    |l| == 256 && forall l': seq<nat> :: CodeFor(l', data, limit) ==> Bits(l, data) <= Bits(l', data)
  }

  ghost predicate CodeFor(l: seq<nat>, data: seq<byte>, limit: nat) {
    AllCoded(l, data) && Within(l, limit) && CodeSpace(l, limit) <= Pow2(limit)
  }

  lemma LengthsFewest(data: seq<byte>, hist: seq<nat>, l: seq<nat>, limit: nat)
    requires CountsOf(data, hist) && |l| == 256 && PackageMerge.CheapestWithin(hist, l, limit)
    ensures FewestBits(l, data, limit)
  {
    hide Bits, Cost, CodeSpace, Pow2;
    BitsAreCost(data, hist, l);
    forall l': seq<nat> | CodeFor(l', data, limit) ensures Bits(l, data) <= Bits(l', data) {
      BitsAreCost(data, hist, l');
      forall s | 0 <= s < 256 && hist[s] > 0 ensures l'[s] > 0 {
        assert s in multiset(data);
      }
    }
  }

  // How many symbols occur, and the first that does.
  method Present(hist: seq<nat>) returns (count: nat, first: nat)
    ensures count == |Used(hist)|
    ensures count > 0 ==> first < |hist| && hist[first] > 0 && forall s :: 0 <= s < first ==> hist[s] == 0
    ensures count == 0 ==> forall s :: 0 <= s < |hist| ==> hist[s] == 0
  {
    hide Used;
    count, first := 0, 0;
    UsedNone(hist[..0]);
    for s := 0 to |hist|
      invariant count == |Used(hist[..s])|
      invariant count > 0 ==> first < s && hist[first] > 0 && forall t :: 0 <= t < first ==> hist[t] == 0
      invariant count == 0 ==> forall t :: 0 <= t < s ==> hist[t] == 0
    {
      UsedStep(hist, s);
      if hist[s] > 0 {
        if count == 0 { first := s; }
        count := count + 1;
      }
    }
    assert hist[..|hist|] == hist;
  }

  lemma UsedNone(hist: seq<nat>)
    requires hist == []
    ensures |Used(hist)| == 0
  {
  }

  lemma UsedStep(hist: seq<nat>, s: nat)
    requires s < |hist|
    ensures |Used(hist[..s + 1])| == |Used(hist[..s])| + (if hist[s] > 0 then 1 else 0)
  {
    assert hist[..s + 1][..s] == hist[..s];
  }

  lemma OnlySymbol(hist: seq<nat>, first: nat)
    requires |Used(hist)| == 1 && first < |hist| && hist[first] > 0
    ensures forall s :: 0 <= s < |hist| && s != first ==> hist[s] == 0
  {
    var i := UsedHas(hist, first);
    forall s | 0 <= s < |hist| && s != first ensures hist[s] == 0 {
      if hist[s] > 0 { var j := UsedHas(hist, s); }
    }
  }

  // Optimal lengths of at most eleven bits; a lone symbol gets a code of one bit.
  method LengthsFor(hist: seq<nat>) returns (l: seq<nat>)
    requires |hist| == 256
    ensures PrefixLengths(hist, l, MAX_CODE_LEN) && PackageMerge.CheapestWithin(hist, l, MAX_CODE_LEN)
    ensures forall s :: 0 <= s < 256 ==> (l[s] > 0 <==> hist[s] > 0)
    ensures |Used(hist)| >= 2 ==> CodeSpace(l, MAX_CODE_LEN) == Pow2(MAX_CODE_LEN)
  {
    hide PrefixLengths, CheapestPrefixLengths, Used, CodeSpace, Pow2, Cheapest, PackageMerge.CheapestWithin;
    var present, first := Present(hist);
    Eleven();
    if present <= 1 {
      var a := new nat[256](_ => 0);
      if present == 1 {
        OnlySymbol(hist, first);
        a[first] := 1;
      }
      l := a[..];
      FewSymbols(hist, l);
      FromCheapest(hist, l, 1);
      Within1(hist, l);
      LengthShape(hist, l);
    } else {
      ghost var h;
      l, h := PackageMerge.BuildLengths(hist, MAX_CODE_LEN);
      FromCheapest(hist, l, MAX_CODE_LEN);
    }
  }

  lemma FromCheapest(hist: seq<nat>, l: seq<nat>, limit: nat)
    requires CheapestPrefixLengths(hist, l, limit)
    ensures PrefixLengths(hist, l, limit) && |l| == |hist| && Within(l, limit)
    ensures forall s :: 0 <= s < |l| ==> (l[s] > 0 <==> hist[s] > 0)
    ensures |Used(hist)| >= 2 ==> CodeSpace(l, limit) == Pow2(limit)
  {
  }

  lemma Within1(hist: seq<nat>, l: seq<nat>)
    requires CheapestPrefixLengths(hist, l, 1) && |l| == |hist| && Cheapest(hist, l)
    ensures PrefixLengths(hist, l, MAX_CODE_LEN) && PackageMerge.CheapestWithin(hist, l, MAX_CODE_LEN)
  {
    WiderLimit(hist, l, 1, MAX_CODE_LEN);
  }

  lemma LengthsServe(hist: seq<nat>, l: seq<nat>, data: seq<byte>)
    requires |hist| == 256 && PrefixLengths(hist, l, MAX_CODE_LEN)
    requires CountsOf(data, hist)
    ensures CodeLengthsOf(l, MAX_CODE_LEN) && AllCoded(l, data) && Packable(l) && CodeFor(l, data, MAX_CODE_LEN)
  {
    hide CodeSpace, Pow2;
    forall i | 0 <= i < |data| ensures hist[data[i]] > 0 {
      assert data[i] in multiset(data);
    }
  }

  // Any bytes come back: the lengths through their packed table, the symbols through a
  // section of any framing. Up to eight megabytes there always is a section. No code of
  // at most eleven bits would take fewer bits for them.
  method RoundTrip(data: seq<byte>, framing: Framing, rest: seq<byte>) returns (r: Option<seq<byte>>, ghost l: seq<nat>)
    requires framing != Wide ==> |rest| >= PAD
    ensures r.Some? ==> r.value == data
    ensures |data| <= 0x80_0000 ==> r.Some?
    ensures CodeFor(l, data, MAX_CODE_LEN) && FewestBits(l, data, MAX_CODE_LEN)
  {
    hide PrefixLengths, CodeLengthsOf, AllCoded, Packable, Packed, Unpacked, Nibbles, PackageMerge.CheapestWithin, CountsOf, CodeFor;
    hide FewestBits, CodeSpace, Pow2, Used;
    var hist := Histogram(data);
    CountsSize(data, hist);
    var lengths := LengthsFor(hist);
    l := lengths;
    LengthsServe(hist, l, data);
    LengthShape(hist, l);
    LengthsFewest(data, hist, l, MAX_CODE_LEN);
    var table := PackLengths(lengths);
    PackedReads(l, rest);
    var read := UnpackLengths(table + rest, 256);
    assert read == Some((l, |table|));
    r := CodedRoundTrip(data, read.value.0, MAX_CODE_LEN, framing, rest);
  }

  lemma CountsSize(data: seq<byte>, hist: seq<nat>)
    requires CountsOf(data, hist)
    ensures |hist| == 256
  {
  }

  lemma LengthShape(hist: seq<nat>, l: seq<nat>)
    requires |hist| == 256 && PrefixLengths(hist, l, MAX_CODE_LEN)
    ensures |l| == 256 && Within(l, MAX_CODE_LEN)
  {
  }
}
