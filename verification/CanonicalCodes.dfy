// Canonical codes (build_codes of src/huffman.rs, the algorithm of section 3.2.2 of
// RFC 1951), their bit-reversed forms, and the decode table of src/huff8.rs that is
// indexed by the next bits of the stream.

module CanonicalCodes {
  import opened Common
  import opened PrefixCodeTheory
  import opened CodeLengths

  // Four codes go into one put of at most 56 bits.
  const WIDEST: nat := 14

  // ---------------------------------------------------------------- counting lengths

  function Count(l: seq<nat>, k: nat): (n: nat)
    ensures n <= |l|
  {
    if l == [] then 0 else Count(l[..|l| - 1], k) + (if l[|l| - 1] == k then 1 else 0)
  }

  lemma {:induction false} CountMonotone(l: seq<nat>, a: nat, b: nat, k: nat)
    requires a <= b <= |l|
    ensures Count(l[..a], k) <= Count(l[..b], k)
    decreases b
  {
    if a < b {
      CountMonotone(l, a, b - 1, k);
      CountStep(l, b - 1, k);
    }
  }

  lemma CountStep(l: seq<nat>, s: nat, k: nat)
    requires s < |l|
    ensures Count(l[..s + 1], k) == Count(l[..s], k) + (if l[s] == k then 1 else 0)
  {
    assert l[..s + 1][..s] == l[..s];
  }

  // The code space taken by codes shorter than k, in units of 2^-limit.
  ghost function Below(l: seq<nat>, limit: nat, k: nat): nat
    requires Within(l, limit)
  {
    if l == [] then 0
    else
      var m := |l| - 1;
      Below(l[..m], limit, k) + (if 0 < l[m] < k then Pow2(limit - l[m]) else 0)
  }

  lemma {:induction false} BelowNext(l: seq<nat>, limit: nat, k: nat)
    requires Within(l, limit) && 0 < k <= limit
    ensures Below(l, limit, k + 1) == Below(l, limit, k) + Count(l, k) * Pow2(limit - k)
  {
    hide Pow2;
    if l != [] {
      var m := |l| - 1;
      BelowNext(l[..m], limit, k);
      OneMore(Count(l[..m], k), Pow2(limit - k));
    }
  }

  lemma {:induction false} BelowFirst(l: seq<nat>, limit: nat)
    requires Within(l, limit)
    ensures Below(l, limit, 0) == 0 && Below(l, limit, 1) == 0
  {
    if l != [] { BelowFirst(l[..|l| - 1], limit); }
  }

  lemma {:induction false} BelowMonotone(l: seq<nat>, limit: nat, a: nat, b: nat)
    requires Within(l, limit) && a <= b
    ensures Below(l, limit, a) <= Below(l, limit, b)
  {
    if l != [] { BelowMonotone(l[..|l| - 1], limit, a, b); }
  }

  // All codes together take the code space.
  lemma {:induction false} BelowAll(l: seq<nat>, limit: nat)
    requires Within(l, limit)
    ensures Below(l, limit, limit + 1) == CodeSpace(l, limit)
  {
    hide Pow2, Sum;
    if l == [] {
      assert CodeShares(l, limit) == [];
      SumNothing();
    } else {
      var m := |l| - 1;
      BelowAll(l[..m], limit);
      var share := if l[m] == 0 then 0 else Pow2(limit - l[m]);
      assert CodeShares(l, limit) == CodeShares(l[..m], limit) + [share];
      SumSnoc(CodeShares(l[..m], limit), share);
    }
  }

  lemma SumNothing()
    ensures Sum([]) == 0
  {
  }

  // ---------------------------------------------------------------- the codes

  // The first code of k bits.
  function First(l: seq<nat>, k: nat): nat {
    if k == 0 then 0 else 2 * (First(l, k - 1) + (if k == 1 then 0 else Count(l, k - 1)))
  }

  // Symbol s has the next free code of its length.
  function CodeOf(l: seq<nat>, s: nat): nat
    requires s < |l|
  {
    First(l, l[s]) + Count(l[..s], l[s])
  }

  lemma {:induction false} FirstIs(l: seq<nat>, limit: nat, k: nat)
    requires Within(l, limit) && k <= limit
    ensures First(l, k) * Pow2(limit - k) == Below(l, limit, k)
  {
    hide Below, Count;
    BelowFirst(l, limit);
    if k > 1 {
      FirstIs(l, limit, k - 1);
      BelowNext(l, limit, k - 1);
      Doubled(First(l, k - 1), Count(l, k - 1), Pow2(limit - k));
      assert Pow2(limit - (k - 1)) == 2 * Pow2(limit - k);
    }
  }

  lemma Doubled(f: nat, c: nat, p: nat)
    ensures 2 * (f + c) * p == f * (2 * p) + c * (2 * p)
  {
  }

  // Where the codes starting with s's code start in the code space.
  ghost function Start(l: seq<nat>, limit: nat, s: nat): nat
    requires Within(l, limit) && s < |l|
  {
    CodeOf(l, s) * Pow2(limit - l[s])
  }

  lemma StartIs(l: seq<nat>, limit: nat, s: nat)
    requires Within(l, limit) && s < |l| && l[s] > 0
    ensures Below(l, limit, l[s]) <= Start(l, limit, s)
    ensures Start(l, limit, s) + Pow2(limit - l[s]) <= Below(l, limit, l[s] + 1)
    ensures forall t :: s < t < |l| && l[t] == l[s] ==> Start(l, limit, s) + Pow2(limit - l[s]) <= Start(l, limit, t)
  {
    hide First, Count, Below, Pow2;
    var k, p := l[s], Pow2(limit - l[s]);
    FirstIs(l, limit, k);
    BelowNext(l, limit, k);
    StartSplits(First(l, k), Count(l[..s], k), p);
    CountStep(l, s, k);
    CountMonotone(l, s + 1, |l|, k);
    assert l[..|l|] == l;
    Above(Count(l[..s], k), Count(l, k), p);
    forall t | s < t < |l| && l[t] == k ensures Start(l, limit, s) + p <= Start(l, limit, t) {
      CountMonotone(l, s + 1, t, k);
      StartSplits(First(l, k), Count(l[..t], k), p);
      Above(Count(l[..s], k), Count(l[..t], k), p);
    }
  }

  lemma StartSplits(f: nat, c: nat, p: nat)
    ensures (f + c) * p == f * p + c * p
  {
  }

  lemma Above(a: nat, b: nat, p: nat)
    ensures a < b ==> a * p + p <= b * p
  {
    if a < b { MulMonotone(a + 1, b, p); }
  }

  // The code space of the codes ahead of symbol s among the first n symbols: the shorter
  // ones, and those of its length of smaller symbols.
  ghost function Ahead(l: seq<nat>, limit: nat, s: nat, n: nat): nat
    requires Within(l, limit) && s < |l| && n <= |l|
  {
    if n == 0 then 0
    else
      var t := n - 1;
      var first := 0 < l[t] < l[s] || (l[t] == l[s] && t < s);
      Ahead(l, limit, s, t) + (if first then Pow2(limit - l[t]) else 0)
  }

  lemma {:induction false} AheadIs(l: seq<nat>, limit: nat, s: nat, n: nat)
    requires Within(l, limit) && s < |l| && l[s] > 0 && n <= |l|
    ensures Ahead(l, limit, s, n) == Below(l[..n], limit, l[s]) + Count(l[..Min(n, s)], l[s]) * Pow2(limit - l[s])
  {
    hide Pow2;
    if n > 0 {
      AheadIs(l, limit, s, n - 1);
      assert l[..n][..n - 1] == l[..n - 1];
      if n <= s { CountStep(l, n - 1, l[s]); }
      OneMore(Count(l[..Min(n - 1, s)], l[s]), Pow2(limit - l[s]));
    }
  }

  // The canonical order: a symbol's codes start where those of all shorter codes, and of
  // all smaller symbols with codes of its length, end; nothing lies between.
  lemma CodePlace(l: seq<nat>, limit: nat, s: nat)
    requires Within(l, limit) && s < |l| && l[s] > 0
    ensures CodeOf(l, s) * Pow2(limit - l[s]) == Ahead(l, limit, s, |l|)
  {
    hide Pow2, First, Count, Below;
    AheadIs(l, limit, s, |l|);
    FirstIs(l, limit, l[s]);
    StartSplits(First(l, l[s]), Count(l[..s], l[s]), Pow2(limit - l[s]));
    assert l[..|l|] == l;
  }

  // Two codes never share code space.
  lemma Disjoint(l: seq<nat>, limit: nat, s: nat, t: nat)
    requires Within(l, limit) && s < |l| && t < |l| && s != t && 0 < l[s] <= l[t]
    ensures || Start(l, limit, s) + Pow2(limit - l[s]) <= Start(l, limit, t)
            || Start(l, limit, t) + Pow2(limit - l[t]) <= Start(l, limit, s)
  {
    hide Start, Below, Pow2;
    StartIs(l, limit, s);
    StartIs(l, limit, t);
    if l[s] < l[t] { BelowMonotone(l, limit, l[s] + 1, l[t]); }
  }

  // No code is a prefix of another: whatever the lengths, no two symbols collide.
  lemma PrefixFree(l: seq<nat>, limit: nat, s: nat, t: nat)
    requires Within(l, limit) && s < |l| && t < |l| && s != t && 0 < l[s] <= l[t]
    ensures CodeOf(l, t) / Pow2(l[t] - l[s]) != CodeOf(l, s)
  {
    hide CodeOf, Below, Pow2;
    Disjoint(l, limit, s, t);
    var d, q := Pow2(l[t] - l[s]), Pow2(limit - l[t]);
    Pow2Add(l[t] - l[s], limit - l[t]);
    var a, b := CodeOf(l, s), CodeOf(l, t);
    if b / d == a { Inside(a, b, d, q); }
  }

  lemma Inside(a: nat, b: nat, d: nat, q: nat)
    requires d > 0 && q > 0 && b / d == a
    ensures a * (d * q) <= b * q && b * q + q <= a * (d * q) + d * q
  {
    assert b == a * d + b % d;
    var r := b % d;
    MulMonotone(r + 1, d, q);
    InsideSplit(a, d, q, r);
  }

  lemma InsideSplit(a: nat, d: nat, q: nat, r: nat)
    ensures (a * d + r) * q == a * (d * q) + r * q && (r + 1) * q == r * q + q && r * q >= 0
  {
  }

  // A code fits its length, if the lengths are those of a prefix code.
  lemma CodeFits(l: seq<nat>, limit: nat, s: nat)
    requires Within(l, limit) && CodeSpace(l, limit) <= Pow2(limit) && s < |l| && l[s] > 0
    ensures CodeOf(l, s) < Pow2(l[s])
  {
    hide CodeOf, Below, Pow2, CodeSpace;
    StartIs(l, limit, s);
    BelowMonotone(l, limit, l[s] + 1, limit + 1);
    BelowAll(l, limit);
    Pow2Add(l[s], limit - l[s]);
    var c, p, q := CodeOf(l, s), Pow2(l[s]), Pow2(limit - l[s]);
    if c >= p { MulMonotone(p, c, q); }
  }

  ghost predicate CodeLengthsOf(l: seq<nat>, limit: nat) {
    limit <= WIDEST && Within(l, limit) && CodeSpace(l, limit) <= Pow2(limit)
  }

  // The next free code of every length stays within 16 bits.
  lemma NextFits(l: seq<nat>, limit: nat, k: nat)
    requires CodeLengthsOf(l, limit) && k <= limit
    ensures First(l, k) + (if k == 0 then 0 else Count(l, k)) < 0x1_0000
  {
    hide First, Count, Below, Pow2, CodeSpace;
    FirstIs(l, limit, k);
    BelowFirst(l, limit);
    if k > 0 { BelowNext(l, limit, k); }
    BelowMonotone(l, limit, if k == 0 then 0 else k + 1, limit + 1);
    BelowAll(l, limit);
    Pow2Words();
    Pow2Monotone(limit, 16);
    var n, p := First(l, k) + (if k == 0 then 0 else Count(l, k)), Pow2(limit - k);
    StartSplits(First(l, k), if k == 0 then 0 else Count(l, k), p);
    NoCode(l);
    if n >= 0x1_0000 {
      MulMonotone(0x1_0000, n, p);
      Pow2Monotone(limit, 14);
      MulAtLeast(p, 0x1_0000);
      Fourteen();
    }
  }

  lemma NoCode(l: seq<nat>)
    ensures First(l, 0) == 0
  {
  }

  lemma FirstNext(l: seq<nat>, k: nat)
    requires k > 0
    ensures First(l, k) == 2 * (First(l, k - 1) + (if k == 1 then 0 else Count(l, k - 1)))
  {
  }

  lemma Fourteen()
    ensures Pow2(14) == 0x4000
  {
    Pow2Add(7, 7);
    assert Pow2(7) == 128;
  }

  method CountLengths(l: seq<nat>, limit: nat) returns (count: array<nat>)
    requires Within(l, limit)
    ensures fresh(count) && count.Length == limit + 1 && count[0] == 0
    ensures forall k :: 0 < k <= limit ==> count[k] == Count(l, k)
  {
    count := new nat[limit + 1](_ => 0);
    for s := 0 to |l|
      invariant count[0] == 0
      invariant forall k :: 0 < k <= limit ==> count[k] == Count(l[..s], k)
    {
      forall k | 0 < k <= limit ensures Count(l[..s + 1], k) == Count(l[..s], k) + (if l[s] == k then 1 else 0) {
        CountStep(l, s, k);
      }
      if l[s] > 0 { count[l[s]] := count[l[s]] + 1; }
    }
    assert l[..|l|] == l;
  }

  method FirstCodes(l: seq<nat>, limit: nat, count: array<nat>) returns (next: array<u16>)
    requires CodeLengthsOf(l, limit) && count.Length == limit + 1 && count[0] == 0
    requires forall k :: 0 < k <= limit ==> count[k] == Count(l, k)
    ensures fresh(next) && next.Length == limit + 1
    ensures forall k :: 0 < k <= limit ==> next[k] == First(l, k)
  {
    hide Count, CodeLengthsOf, First;
    NoCode(l);
    next := new u16[limit + 1](_ => 0);
    var code := 0;
    for bits := 1 to limit + 1
      invariant code == First(l, bits - 1)
      invariant forall k :: 0 < k < bits ==> next[k] == First(l, k)
    {
      code := 2 * (code + count[bits - 1]);
      NextFits(l, limit, bits);
      FirstNext(l, bits);
      next[bits] := code;
    }
  }

  method BuildCodes(l: seq<nat>, limit: nat) returns (codes: seq<u16>)
    requires CodeLengthsOf(l, limit)
    ensures |codes| == |l|
    ensures forall s :: 0 <= s < |l| ==> codes[s] == if l[s] > 0 then CodeOf(l, s) else 0
  {
    hide Count, CodeLengthsOf, First;
    InLimit(l, limit);
    var count := CountLengths(l, limit);
    var next := FirstCodes(l, limit, count);
    codes := [];
    CountNone(l);
    for s := 0 to |l|
      invariant |codes| == s
      invariant forall t :: 0 <= t < s ==> codes[t] == if l[t] > 0 then CodeOf(l, t) else 0
      invariant forall k :: 0 < k <= limit ==> next[k] == First(l, k) + Count(l[..s], k)
    {
      var k := l[s];
      forall j | 0 < j <= limit ensures Count(l[..s + 1], j) == Count(l[..s], j) + (if l[s] == j then 1 else 0) {
        CountStep(l, s, j);
      }
      if k > 0 {
        codes := codes + [next[k]];
        NextFits(l, limit, k);
        CountMonotone(l, s + 1, |l|, k);
        assert l[..|l|] == l;
        next[k] := next[k] + 1;
      } else {
        codes := codes + [0];
      }
    }
  }

  lemma InLimit(l: seq<nat>, limit: nat)
    requires CodeLengthsOf(l, limit)
    ensures limit <= WIDEST && Within(l, limit) && CodeSpace(l, limit) <= Pow2(limit)
  {
  }

  lemma CountNone(l: seq<nat>)
    ensures forall k :: Count(l[..0], k) == 0
  {
  }

  // ---------------------------------------------------------------- reversed codes

  // The low n bits of a code in the opposite order.
  function Reverse(code: nat, n: nat): nat {
    if n == 0 then 0 else code % 2 * Pow2(n - 1) + Reverse(code / 2, n - 1)
  }

  lemma {:induction false} ReverseFits(code: nat, n: nat)
    ensures Reverse(code, n) < Pow2(n)
  {
    if n > 0 { ReverseFits(code / 2, n - 1); }
  }

  // The low bits of a reversed code are the reverse of its high bits.
  lemma {:induction false} ReversePrefix(code: nat, n: nat, k: nat)
    requires k <= n
    ensures Reverse(code, n) % Pow2(k) == Reverse(code / Pow2(n - k), k)
    decreases n
  {
    hide Pow2;
    NoBits();
    if k == n {
      ReverseFits(code, n);
      DivModIs(Reverse(code, n), Pow2(n), 0, Reverse(code, n));
    } else {
      var r := Reverse(code / 2, n - 1);
      ReversePrefix(code / 2, n - 1, k);
      Pow2Add(k, n - 1 - k);
      Pow2Add(1, n - k - 1);
      DivDiv(code, 2, Pow2(n - 1 - k));
      HighBit(code % 2, Pow2(k), Pow2(n - 1 - k), r);
    }
  }

  lemma NoBits()
    ensures Pow2(0) == 1 && Pow2(1) == 2
  {
  }

  lemma HighBit(b: nat, p: nat, q: nat, r: nat)
    requires p > 0
    ensures (b * (p * q) + r) % p == r % p
  {
    assert b * (p * q) == b * q * p;
    DivModIs(b * (p * q) + r, p, b * q + r / p, r % p);
  }

  lemma {:induction false} ReverseInjective(a: nat, b: nat, n: nat)
    requires a < Pow2(n) && b < Pow2(n) && Reverse(a, n) == Reverse(b, n)
    ensures a == b
  {
    if n > 0 {
      ReverseFits(a / 2, n - 1);
      ReverseFits(b / 2, n - 1);
      if a % 2 != b % 2 {
        assert false;
      } else {
        ReverseInjective(a / 2, b / 2, n - 1);
      }
    }
  }

  method ReverseBits(code: nat, n: nat) returns (r: nat)
    ensures r == Reverse(code, n)
  {
    hide Pow2;
    r := 0;
    NoBits();
    for i := 0 to n
      invariant r + Reverse(code / Pow2(i), n - i) == Reverse(code, n)
    {
      Pow2Add(i, 1);
      DivDiv(code, Pow2(i), 2);
      r := r + code / Pow2(i) % 2 * Pow2(n - 1 - i);
    }
  }

  // What the stream holds for symbol s, low bit first.
  function Rev(l: seq<nat>, s: nat): nat
    requires s < |l|
  {
    Reverse(CodeOf(l, s), l[s])
  }

  // An index of the table whose low bits are symbol s's code.
  predicate Hits(l: seq<nat>, s: nat, i: nat)
    requires s < |l|
  {
    l[s] > 0 && i % Pow2(l[s]) == Rev(l, s)
  }

  // An index hits one symbol at most.
  lemma HitsOne(l: seq<nat>, limit: nat, s: nat, t: nat, i: nat)
    requires CodeLengthsOf(l, limit) && s < |l| && t < |l| && Hits(l, s, i) && Hits(l, t, i)
    ensures s == t
  {
    hide CodeOf, Pow2, CodeLengthsOf, Reverse;
    InLimit(l, limit);
    if s != t {
      if l[s] <= l[t] { HitsTwice(l, limit, s, t, i); } else { HitsTwice(l, limit, t, s, i); }
    }
  }

  lemma HitsTwice(l: seq<nat>, limit: nat, s: nat, t: nat, i: nat)
    requires CodeLengthsOf(l, limit) && s < |l| && t < |l| && Hits(l, s, i) && Hits(l, t, i) && l[s] <= l[t]
    ensures s == t
  {
    hide CodeOf, Pow2, CodeLengthsOf, Reverse;
    InLimit(l, limit);
    LowBitsAgain(i, l[s], l[t]);
    ReversePrefix(CodeOf(l, t), l[t], l[s]);
    CodeFits(l, limit, s);
    CodeFits(l, limit, t);
    FrontFits(CodeOf(l, t), l[s], l[t]);
    ReverseInjective(CodeOf(l, t) / Pow2(l[t] - l[s]), CodeOf(l, s), l[s]);
    if s != t { PrefixFree(l, limit, s, t); }
  }

  lemma LowBitsAgain(i: nat, a: nat, b: nat)
    requires a <= b
    ensures i % Pow2(b) % Pow2(a) == i % Pow2(a)
  {
    hide Pow2;
    Pow2Add(a, b - a);
    ModMod(i, Pow2(a), Pow2(b - a));
  }

  lemma FrontFits(c: nat, a: nat, b: nat)
    requires a <= b && c < Pow2(b)
    ensures 0 <= c / Pow2(b - a) < Pow2(a)
  {
    hide Pow2;
    Pow2Add(a, b - a);
    QuotientFits(c, Pow2(b - a), Pow2(a));
    QuotientAtLeastZero(c, Pow2(b - a));
  }

  lemma QuotientFits(c: nat, d: nat, p: nat)
    requires d > 0 && c < p * d
    ensures c / d < p
  {
    assert c == d * (c / d) + c % d;
    if c / d >= p { MulMonotone(p, c / d, d); }
  }

  // ---------------------------------------------------------------- the decode table

  datatype Entry = Entry(sym: nat, len: nat)

  // Every index says the symbol whose code its low bits are, or nothing.
  ghost predicate TableFor(l: seq<nat>, limit: nat, t: seq<Entry>) {
    && |t| == Pow2(limit)
    && forall i :: 0 <= i < |t| ==> EntryFor(l, |l|, i, t[i])
  }

  // Entry e of index i, as far as the first n symbols go.
  ghost predicate EntryFor(l: seq<nat>, n: nat, i: nat, e: Entry)
    requires n <= |l|
  {
    && (forall s :: 0 <= s < n && Hits(l, s, i) ==> e == Entry(s, l[s]))
    && ((forall s :: 0 <= s < n ==> !Hits(l, s, i)) ==> e == Entry(0, 0))
  }

  method KraftSum(l: seq<nat>, limit: nat) returns (r: Option<nat>)
    ensures r.None? <==> !Within(l, limit)
    ensures r.Some? ==> r.value == CodeSpace(l, limit)
  {
    hide Pow2;
    var kraft := 0;
    for s := 0 to |l|
      invariant Within(l[..s], limit) && kraft == Below(l[..s], limit, limit + 1)
    {
      if l[s] > limit { return None; }
      assert l[..s + 1][..s] == l[..s];
      if l[s] > 0 { kraft := kraft + Pow2(limit - l[s]); }
    }
    assert l[..|l|] == l;
    BelowAll(l, limit);
    return Some(kraft);
  }

  // Symbol s's entries: every index whose low bits are its code, a stride apart.
  method FillSymbol(l: seq<nat>, limit: nat, entries: array<Entry>, s: nat)
    requires CodeLengthsOf(l, limit) && s < |l| && entries.Length == Pow2(limit)
    requires forall i :: 0 <= i < entries.Length ==> EntryFor(l, s, i, entries[i])
    modifies entries
    ensures forall i :: 0 <= i < entries.Length ==> EntryFor(l, s + 1, i, entries[i])
  {
    hide Rev, Hits, CodeLengthsOf, Pow2, EntryFor;
    if l[s] == 0 {
      NoHits(l, s);
      return;
    }
    var step := Pow2(l[s]);
    var i := Rev(l, s);
    FirstHit(l, s);
    ghost var was := entries[..];
    while i < entries.Length
      invariant i % step == Rev(l, s)
      invariant forall j :: 0 <= j < i && Hits(l, s, j) ==> j + step <= i
      invariant forall j :: 0 <= j < entries.Length ==>
        entries[j] == if j < i && Hits(l, s, j) then Entry(s, l[s]) else was[j]
      decreases entries.Length - i
    {
      entries[i] := Entry(s, l[s]);
      NextHit(l, s, i);
      i := i + step;
    }
    forall j | 0 <= j < entries.Length ensures EntryFor(l, s + 1, j, entries[j]) {
      EntryGrows(l, limit, s, j, was[j], entries[j]);
    }
  }

  lemma NoHits(l: seq<nat>, s: nat)
    requires s < |l| && l[s] == 0
    ensures forall i: nat, e :: EntryFor(l, s, i, e) ==> EntryFor(l, s + 1, i, e)
  {
  }

  lemma FirstHit(l: seq<nat>, s: nat)
    requires s < |l| && l[s] > 0
    ensures Rev(l, s) % Pow2(l[s]) == Rev(l, s)
    ensures forall j :: 0 <= j < Rev(l, s) ==> !Hits(l, s, j)
  {
    hide Pow2, CodeOf, Reverse;
    ReverseFits(CodeOf(l, s), l[s]);
    forall j: nat | j < Rev(l, s) ensures !Hits(l, s, j) {
      DivModIs(j, Pow2(l[s]), 0, j);
    }
    DivModIs(Rev(l, s), Pow2(l[s]), 0, Rev(l, s));
  }

  // Hits of one symbol lie a stride apart.
  lemma NextHit(l: seq<nat>, s: nat, i: nat)
    requires s < |l| && l[s] > 0 && i % Pow2(l[s]) == Rev(l, s)
    ensures Hits(l, s, i) && (i + Pow2(l[s])) % Pow2(l[s]) == Rev(l, s)
    ensures forall j :: i < j < i + Pow2(l[s]) ==> !Hits(l, s, j)
  {
    hide Pow2, Rev;
    var p := Pow2(l[s]);
    assert i == p * (i / p) + i % p;
    DivModIs(i + p, p, i / p + 1, i % p);
    forall j: nat | i < j < i + p ensures !Hits(l, s, j) {
      if j % p == i % p {
        assert j == p * (j / p) + j % p;
        SmallMultiple(j / p - i / p, p);
      }
    }
  }

  lemma EntryGrows(l: seq<nat>, limit: nat, s: nat, i: nat, was: Entry, e: Entry)
    requires CodeLengthsOf(l, limit) && s < |l| && EntryFor(l, s, i, was)
    requires e == if Hits(l, s, i) then Entry(s, l[s]) else was
    ensures EntryFor(l, s + 1, i, e)
  {
    hide Hits, CodeLengthsOf;
    forall t | 0 <= t < s + 1 && Hits(l, t, i) ensures e == Entry(t, l[t]) {
      if Hits(l, s, i) { HitsOne(l, limit, s, t, i); }
    }
  }

  // None unless the lengths form a prefix code of at most limit bits.
  method BuildTable(l: seq<nat>, limit: nat) returns (r: Option<seq<Entry>>)
    requires limit <= WIDEST
    ensures r.Some? <==> CodeLengthsOf(l, limit)
    ensures r.Some? ==> TableFor(l, limit, r.value)
  {
    hide Hits, EntryFor, CodeSpace, Pow2;
    var kraft := KraftSum(l, limit);
    if kraft.None? { return None; }
    if kraft.value > Pow2(limit) { return None; }
    var entries := new Entry[Pow2(limit)](_ => Entry(0, 0));
    EmptyEntries(l);
    for s := 0 to |l|
      invariant forall i :: 0 <= i < entries.Length ==> EntryFor(l, s, i, entries[i])
    {
      FillSymbol(l, limit, entries, s);
    }
    return Some(entries[..]);
  }

  lemma EmptyEntries(l: seq<nat>)
    ensures forall i: nat :: EntryFor(l, 0, i, Entry(0, 0))
  {
  }

  // Looking up an index whose low bits are a symbol's code finds the symbol.
  lemma TableFinds(l: seq<nat>, limit: nat, t: seq<Entry>, s: nat, i: nat)
    requires TableFor(l, limit, t) && s < |l| && i < |t| && Hits(l, s, i)
    ensures t[i] == Entry(s, l[s])
  {
    hide Hits;
    assert EntryFor(l, |l|, i, t[i]);
  }
}
