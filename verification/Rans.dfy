// examples/rans_speed.rs: a range variant of asymmetric numeral systems, with any number
// of coders in turn. The encoder runs over the symbols backwards and the decoder undoes
// it step by step, down to the state it started from.

module Rans {
  import opened Common

  const M: nat := 4096
  const L: nat := 0x80_0000
  const TOP: nat := 0x8000_0000

  // ---------------------------------------------------------------- frequencies

  lemma {:induction false} BeforeUpdate(freq: seq<nat>, k: nat, v: nat, n: nat)
    requires k < |freq| && n <= |freq|
    ensures Before(freq[k := v], n) == if k < n then Before(freq, n) - freq[k] + v else Before(freq, n)
  {
    if n > 0 { BeforeUpdate(freq, k, v, n - 1); }
  }

  lemma {:induction false} BeforeSmall(freq: seq<nat>, n: nat)
    requires n <= |freq| && forall i :: 0 <= i < |freq| ==> freq[i] <= 1
    ensures Before(freq, n) <= n
  {
    if n > 0 { BeforeSmall(freq, n - 1); }
  }

  // Frequencies that sum to the scale: each symbol owns the slots from cum on.
  ghost predicate Scaled(freq: seq<nat>) {
    Before(freq, |freq|) == M
  }

  ghost predicate Cumulative(freq: seq<nat>, cum: seq<nat>) {
    |cum| == |freq| && forall s :: 0 <= s < |freq| ==> cum[s] == Before(freq, s)
  }

  lemma SlotsFit(freq: seq<nat>, s: nat)
    requires Scaled(freq) && s < |freq|
    ensures Before(freq, s) + freq[s] <= M
  {
    BeforeMonotone(freq, s + 1, |freq|);
  }

  // A frequency for each symbol: at least one for those that occur, none for the others.
  ghost predicate Covers(hist: seq<nat>, freq: seq<nat>) {
    && |freq| == |hist|
    && (forall i :: 0 <= i < |hist| && hist[i] > 0 ==> freq[i] >= 1)
    && ((exists i :: 0 <= i < |hist| && hist[i] > 0) ==> forall i :: 0 <= i < |hist| && hist[i] == 0 ==> freq[i] == 0)
  }

  method Total(hist: seq<nat>) returns (total: nat)
    ensures total == Before(hist, |hist|)
  {
    total := 0;
    for i := 0 to |hist|
      invariant total == Before(hist, i)
    {
      total := total + hist[i];
    }
  }

  // A symbol's share of the scale, rounded down, or one where that is less than one; none
  // for a symbol that does not occur.
  ghost predicate IsShare(count: nat, total: nat, f: nat) {
    if count == 0 then f == 0
    else if count * M < total then f == 1
    else f * total <= count * M < (f + 1) * total
  }

  ghost predicate Shares(hist: seq<nat>, scaled: seq<nat>) {
    |scaled| == |hist| && forall i :: 0 <= i < |hist| ==> IsShare(hist[i], Before(hist, |hist|), scaled[i])
  }

  lemma SharesCover(hist: seq<nat>, scaled: seq<nat>)
    requires Shares(hist, scaled)
    ensures Covers(hist, scaled)
  {
    hide Before;
    forall i | 0 <= i < |hist| && hist[i] > 0 ensures scaled[i] >= 1 {
      assert IsShare(hist[i], Before(hist, |hist|), scaled[i]);
    }
    forall i | 0 <= i < |hist| && hist[i] == 0 ensures scaled[i] == 0 {
      assert IsShare(hist[i], Before(hist, |hist|), scaled[i]);
    }
  }

  lemma ShareIs(count: nat, total: nat)
    requires 0 < count <= total
    ensures 0 <= count * M / total && IsShare(count, total, Max(count * M / total, 1))
  {
    var q := count * M / total;
    DivisionIs(count * M, total);
    QuotientAtLeastZero(count * M, total);
    OneMore(q, total);
    if count * M < total {
      DivModIs(count * M, total, 0, count * M);
    } else if q == 0 {
      assert false;
    }
  }

  lemma CountedIn(hist: seq<nat>, i: nat)
    requires i < |hist|
    ensures hist[i] <= Before(hist, |hist|)
  {
    BeforeMonotone(hist, i + 1, |hist|);
  }

  // The first of the largest frequencies.
  method Largest(freq: seq<nat>) returns (bi: nat)
    requires freq != []
    ensures FirstLargest(freq, bi)
  {
    var bf := 0;
    bi := 0;
    for i := 0 to |freq|
      invariant bi < |freq| && forall j :: 0 <= j < i ==> freq[j] <= bf
      invariant forall j :: 0 <= j < bi ==> freq[j] < bf
      invariant bf == (if i > bi then freq[bi] else 0) && (bf == 0 ==> bi == 0) && (bi < i || bi == 0)
    {
      if freq[i] > bf { bf, bi := freq[i], i; }
    }
  }

  method Scale(hist: seq<nat>) returns (freq: seq<nat>, sum: nat)
    ensures Shares(hist, freq) && sum == Before(freq, |freq|)
  {
    hide Before, IsShare;
    var total := Total(hist);
    freq, sum := [], 0;
    NothingSummed(freq);
    for i := 0 to |hist|
      invariant |freq| == i && sum == Before(freq, i)
      invariant forall j :: 0 <= j < i ==> IsShare(hist[j], total, freq[j])
    {
      var f: nat := 0;
      if hist[i] > 0 {
        CountedIn(hist, i);
        ShareIs(hist[i], total);
        f := Max(hist[i] * M / total, 1);
      } else {
        NoShare(total);
      }
      BeforeExtended(freq, f);
      freq, sum := freq + [f], sum + f;
    }
  }

  lemma NothingSummed(freq: seq<nat>)
    ensures Before(freq, 0) == 0
  {
  }

  lemma NoShare(total: nat)
    ensures IsShare(0, total, 0)
  {
  }

  lemma BeforeExtended(freq: seq<nat>, f: nat)
    ensures Before(freq + [f], |freq| + 1) == Before(freq, |freq|) + f
  {
    BeforePrefix(freq, [f], |freq|);
  }

  ghost predicate FirstLargest(freq: seq<nat>, b: nat) {
    && b < |freq| && (forall i :: 0 <= i < |freq| ==> freq[i] <= freq[b])
    && forall i :: 0 <= i < b ==> freq[i] < freq[b]
  }

  // Frequencies cut down to a level: to h before symbol k, to h + 1 from it on.
  ghost predicate Levelled(scaled: seq<nat>, freq: seq<nat>, h: nat, k: nat) {
    && |freq| == |scaled| && h >= 1
    && forall i :: 0 <= i < |freq| ==> freq[i] == Min(scaled[i], if i < k then h else h + 1)
  }

  // What normalising makes of the shares: what they lack goes to the first largest, what
  // they have too much is cut off the top.
  ghost predicate Settled(scaled: seq<nat>, freq: seq<nat>) {
    var sum := Before(scaled, |scaled|);
    if sum <= M then exists b: nat :: FirstLargest(scaled, b) && freq == scaled[b := scaled[b] + (M - sum)]
    else exists h: nat, k: nat :: Levelled(scaled, freq, h, k)
  }

  lemma {:induction false} SumsApart(a: seq<nat>, b: seq<nat>, n: nat)
    requires |a| == |b| && n <= |a| && forall i :: 0 <= i < |a| ==> a[i] <= b[i]
    ensures Before(a, n) <= Before(b, n)
    ensures Before(a, n) == Before(b, n) ==> a[..n] == b[..n]
  {
    if n > 0 {
      SumsApart(a, b, n - 1);
      assert a[..n] == a[..n - 1] + [a[n - 1]] && b[..n] == b[..n - 1] + [b[n - 1]];
    }
  }

  // Only one levelling has a given sum.
  lemma LevelledOnce(scaled: seq<nat>, f: seq<nat>, g: seq<nat>, h: nat, k: nat, h': nat, k': nat)
    requires Levelled(scaled, f, h, k) && Levelled(scaled, g, h', k') && Before(f, |f|) == Before(g, |g|)
    ensures f == g
  {
    hide Before;
    if h < h' || (h == h' && k >= k') { SumsApart(f, g, |f|); } else { SumsApart(g, f, |f|); }
    assert f[..|f|] == f && g[..|g|] == g;
  }

  // One unit off the first largest lowers the level by one symbol.
  lemma LevelLower(scaled: seq<nat>, freq: seq<nat>, h: nat, k: nat, b: nat)
    returns (h': nat, k': nat)
    requires Levelled(scaled, freq, h, k) && FirstLargest(freq, b) && freq[b] > 1
    ensures Levelled(scaled, freq[b := freq[b] - 1], h', k')
  {
    if freq[b] == h + 1 {
      h', k' := h, b + 1;
    } else {
      h', k' := freq[b] - 1, b + 1;
    }
  }

  // Frequencies at no level yet: none is above the largest.
  lemma LevelTop(scaled: seq<nat>, b: nat)
    requires FirstLargest(scaled, b) && scaled[b] >= 1
    ensures Levelled(scaled, scaled, scaled[b], 0)
  {
  }

  // Frequencies that sum to exactly M, every used symbol at least one: scaled, then one
  // unit at a time onto or off the largest. It always ends.
  method Normalize(hist: seq<nat>) returns (freq: seq<nat>, cum: seq<nat>, ghost scaled: seq<nat>)
    requires 0 < |hist| <= M
    ensures Covers(hist, freq) && Scaled(freq) && Cumulative(freq, cum)
    ensures Shares(hist, scaled) && Settled(scaled, freq)
  {
    hide Before, Shares, Levelled, FirstLargest;
    var sum: nat;
    freq, sum := Scale(hist);
    scaled := freq;
    SharesCover(hist, scaled);
    if sum <= M { freq := Fill(hist, freq, sum); } else { freq := Level(hist, freq, sum); }
    cum := Cumulate(freq);
  }

  // The loop while units are missing: they all go to one symbol.
  method Fill(hist: seq<nat>, scaled: seq<nat>, start: nat) returns (freq: seq<nat>)
    requires 0 < |hist| && Covers(hist, scaled) && start == Before(scaled, |scaled|) <= M
    ensures Covers(hist, freq) && Scaled(freq) && Settled(scaled, freq)
  {
    hide Before, Covers, FirstLargest;
    var sum := start;
    freq := scaled;
    CoversSize(hist, scaled);
    ghost var b := Largest(scaled);
    assert scaled[b := scaled[b]] == scaled;
    while sum != M
      invariant sum <= M && freq == scaled[b := scaled[b] + (sum - start)]
      invariant Covers(hist, freq) && sum == Before(freq, |freq|)
      decreases M - sum
    {
      var bi := Largest(freq);
      StillLargest(scaled, b, sum - start, bi);
      BeforeUpdate(freq, bi, freq[bi] + 1, |freq|);
      CoversMore(hist, freq, bi);
      freq, sum := freq[bi := freq[bi] + 1], sum + 1;
      assert freq == scaled[b := scaled[b] + (sum - start)];
    }
  }

  // The loop while there are too many: the largest give one each in turn.
  method Level(hist: seq<nat>, scaled: seq<nat>, start: nat) returns (freq: seq<nat>)
    requires 0 < |hist| <= M && Covers(hist, scaled) && start == Before(scaled, |scaled|) > M
    ensures Covers(hist, freq) && Scaled(freq) && Settled(scaled, freq)
  {
    hide Before, Covers, Levelled, FirstLargest;
    var sum := start;
    freq := scaled;
    CoversSize(hist, scaled);
    ghost var top := Largest(scaled);
    ghost var h, k := scaled[top], 0;
    LargeEnough(scaled, top);
    LevelTop(scaled, top);
    while sum != M
      invariant sum >= M && Levelled(scaled, freq, h, k) && |freq| == |hist|
      invariant Covers(hist, freq) && sum == Before(freq, |freq|)
      decreases sum - M
    {
      var bi := Largest(freq);
      LargeEnough(freq, bi);
      BeforeUpdate(freq, bi, freq[bi] - 1, |freq|);
      CoversLess(hist, freq, bi);
      h, k := LevelLower(scaled, freq, h, k, bi);
      if freq[bi] > 1 { freq, sum := freq[bi := freq[bi] - 1], sum - 1; }
    }
  }

  method Cumulate(freq: seq<nat>) returns (cum: seq<nat>)
    ensures Cumulative(freq, cum)
  {
    cum := [];
    var c := 0;
    for i := 0 to |freq|
      invariant |cum| == i && c == Before(freq, i) && forall s :: 0 <= s < i ==> cum[s] == Before(freq, s)
    {
      cum := cum + [c];
      c := c + freq[i];
    }
  }

  lemma CoversSize(hist: seq<nat>, freq: seq<nat>)
    requires Covers(hist, freq)
    ensures |freq| == |hist|
  {
  }

  lemma CoversMore(hist: seq<nat>, freq: seq<nat>, bi: nat)
    requires Covers(hist, freq) && FirstLargest(freq, bi)
    ensures Covers(hist, freq[bi := freq[bi] + 1])
  {
    LargestUsed(hist, freq, bi);
  }

  lemma CoversLess(hist: seq<nat>, freq: seq<nat>, bi: nat)
    requires Covers(hist, freq) && bi < |freq| && freq[bi] > 1
    ensures Covers(hist, freq[bi := freq[bi] - 1])
  {
  }

  // A largest frequency that got more stays the first largest.
  lemma StillLargest(scaled: seq<nat>, b: nat, more: nat, bi: nat)
    requires FirstLargest(scaled, b) && FirstLargest(scaled[b := scaled[b] + more], bi)
    ensures bi == b
  {
    var now := scaled[b := scaled[b] + more];
    assert now[b] >= scaled[b] && now[bi] >= now[b];
  }

  // With a sum above the number of symbols some frequency is above one.
  lemma LargeEnough(freq: seq<nat>, b: nat)
    requires FirstLargest(freq, b) && |freq| <= M < Before(freq, |freq|)
    ensures freq[b] > 1
  {
    if freq[b] <= 1 { BeforeSmall(freq, |freq|); }
  }

  // The largest frequency belongs to a symbol that occurs, if any does.
  lemma LargestUsed(hist: seq<nat>, freq: seq<nat>, bi: nat)
    requires Covers(hist, freq) && bi < |freq| && forall i :: 0 <= i < |freq| ==> freq[i] <= freq[bi]
    ensures (exists i :: 0 <= i < |hist| && hist[i] > 0) ==> hist[bi] > 0
  {
  }

  // ---------------------------------------------------------------- slots

  ghost predicate SlotsFor(slots: seq<nat>, freq: seq<nat>) {
    && |slots| == M
    && forall k :: 0 <= k < M ==>
         slots[k] < |freq| && Before(freq, slots[k]) <= k < Before(freq, slots[k]) + freq[slots[k]]
  }

  method SlotTable(freq: seq<nat>, cum: seq<nat>) returns (slots: seq<nat>)
    requires Scaled(freq) && Cumulative(freq, cum)
    ensures SlotsFor(slots, freq)
  {
    slots := [];
    for s := 0 to |freq|
      invariant |slots| == Before(freq, s)
      invariant forall k :: 0 <= k < |slots| ==>
        slots[k] < |freq| && Before(freq, slots[k]) <= k < Before(freq, slots[k]) + freq[slots[k]]
    {
      for k := 0 to freq[s]
        invariant |slots| == cum[s] + k
        invariant forall k :: 0 <= k < |slots| ==>
          slots[k] < |freq| && Before(freq, slots[k]) <= k < Before(freq, slots[k]) + freq[slots[k]]
      {
        slots := slots + [s];
      }
    }
  }

  // Two symbols never own the same slot.
  lemma SlotOwner(freq: seq<nat>, a: nat, b: nat, k: nat)
    requires a < |freq| && b < |freq|
    requires Before(freq, a) <= k < Before(freq, a) + freq[a] && Before(freq, b) <= k < Before(freq, b) + freq[b]
    ensures a == b
  {
    hide Before;
    OwnersApart(freq, a, b);
    OwnersApart(freq, b, a);
  }

  lemma OwnersApart(freq: seq<nat>, a: nat, b: nat)
    requires a < |freq| && b < |freq|
    ensures a < b ==> Before(freq, a) + freq[a] <= Before(freq, b)
  {
    hide Before;
    if a < b {
      NextOwner(freq, a);
      BeforeMonotone(freq, a + 1, b);
    }
  }

  lemma NextOwner(freq: seq<nat>, a: nat)
    requires a < |freq|
    ensures Before(freq, a + 1) == Before(freq, a) + freq[a]
  {
  }

  // ---------------------------------------------------------------- one step

  // Taking a symbol of frequency f, whose slots start at c, into the state.
  function Put(x: nat, f: nat, c: nat): nat
    requires f > 0
  {
    x / f * M + x % f + c
  }

  // The state's slot names the symbol, and the state before it follows.
  lemma PutInverts(x: nat, f: nat, c: nat)
    requires f > 0 && c + f <= M
    ensures c <= Put(x, f, c) % M < c + f
    ensures f * (Put(x, f, c) / M) + Put(x, f, c) % M - c == x
  {
    DivModIs(Put(x, f, c), M, x / f, x % f + c);
  }

  // From a renormalised state the step leads back into the interval.
  lemma PutStays(x: nat, f: nat, c: nat)
    requires 0 < f && c + f <= M && 2048 * f <= x < 0x8_0000 * f
    ensures L <= Put(x, f, c) < TOP
  {
    var q := x / f;
    assert x == f * q + x % f;
    if q >= 0x8_0000 { MulMonotone(0x8_0000, q, f); }
    if q < 2048 { MulMonotone(q + 1, 2048, f); }
  }

  // ---------------------------------------------------------------- renormalising

  // Bytes leave the state while it is at least xMax; the rest of the state.
  function Shrunk(x: nat, xMax: nat): (r: nat)
    requires xMax > 0
    ensures r < xMax
  {
    if x >= xMax then Shrunk(x / 256, xMax) else x
  }

  // The bytes that leave, in order.
  function Shed(x: nat, xMax: nat): (s: seq<byte>)
    requires xMax > 0
  {
    if x >= xMax then [x % 256] + Shed(x / 256, xMax) else []
  }

  lemma {:induction false} ShrunkStays(x: nat, xMax: nat, low: nat)
    requires xMax > 0 && x >= low && xMax >= 256 * low
    ensures Shrunk(x, xMax) >= low
    decreases x
  {
    if x >= xMax { ShrunkStays(x / 256, xMax, low); }
  }

  lemma {:induction false} ShedSmall(x: nat, xMax: nat)
    requires xMax > 0 && x < TOP
    ensures (Shrunk(x, xMax) == x && Shed(x, xMax) == []) || Shrunk(x, xMax) < L
    decreases x
  {
    if x >= xMax {
      ShedSmall(x / 256, xMax);
    }
  }

  // ---------------------------------------------------------------- the code of a list of symbols

  datatype Coded = Coded(state: nat, bytes: seq<byte>)

  ghost predicate Codable(freq: seq<nat>, xs: seq<nat>) {
    Scaled(freq) && forall i :: 0 <= i < |xs| ==> xs[i] < |freq| && freq[xs[i]] > 0
  }

  // The last symbol goes in first.
  function Code(freq: seq<nat>, xs: seq<nat>): (r: Coded)
    requires Codable(freq, xs)
    ensures L <= r.state < TOP
    decreases |xs|
  {
    if xs == [] then Coded(L, [])
    else
      var r := Code(freq, xs[1..]);
      var f, c := freq[xs[0]], Before(freq, xs[0]);
      SlotsFit(freq, xs[0]);
      ShrunkStays(r.state, 0x8_0000 * f, 2048 * f);
      PutStays(Shrunk(r.state, 0x8_0000 * f), f, c);
      Coded(Put(Shrunk(r.state, 0x8_0000 * f), f, c), r.bytes + Shed(r.state, 0x8_0000 * f))
  }

  // A stream: the bytes shed, then the state low byte first.
  function Stream(freq: seq<nat>, xs: seq<nat>): seq<byte>
    requires Codable(freq, xs)
  {
    var r := Code(freq, xs);
    r.bytes + [r.state % 256, r.state / 256 % 256, r.state / 256 / 256 % 256, r.state / 256 / 256 / 256 % 256]
  }

  // ---------------------------------------------------------------- the encoder

  // The symbols from position i on that this coder takes.
  function Chosen(syms: seq<nat>, which: seq<bool>, i: nat): (r: seq<nat>)
    requires |which| == |syms|
    ensures (forall j :: 0 <= j < |syms| ==> syms[j] < 256) ==> forall j :: 0 <= j < |r| ==> r[j] < 256
    decreases |syms| - i
  {
    if i >= |syms| then [] else (if which[i] then [syms[i]] else []) + Chosen(syms, which, i + 1)
  }

  method EncodeStream(syms: seq<nat>, which: seq<bool>, freq: seq<nat>, cum: seq<nat>) returns (buf: seq<byte>)
    requires |which| == |syms| && Cumulative(freq, cum) && Codable(freq, Chosen(syms, which, 0))
    ensures buf == Stream(freq, Chosen(syms, which, 0))
  {
    hide Code, Shed, Shrunk, Put;
    var state: nat, i: nat := L, |syms|;
    buf := [];
    CodeNothing(freq);
    ChosenPart(syms, which, freq, i);
    while i > 0
      invariant i <= |syms| && Codable(freq, Chosen(syms, which, i))
      invariant Code(freq, Chosen(syms, which, i)) == Coded(state, buf)
    {
      i := i - 1;
      ChosenPart(syms, which, freq, i);
      if which[i] {
        ghost var xs := Chosen(syms, which, i);
        assert xs[0] == syms[i] && xs[1..] == Chosen(syms, which, i + 1);
        CodeStep(freq, xs);
        var s := syms[i];
        var f := freq[s];
        var xMax := L / M * 256 * f;
        ghost var was, x0 := buf, state;
        assert buf + Shed(state, xMax) == was + Shed(x0, xMax);
        while state >= xMax
          invariant buf + Shed(state, xMax) == was + Shed(x0, xMax) && Shrunk(state, xMax) == Shrunk(x0, xMax)
          decreases state
        {
          ShedStep(state, xMax);
          Assoc(buf, [state % 256], Shed(state / 256, xMax));
          buf := buf + [state % 256];
          state := state / 256;
        }
        ShedStep(state, xMax);
        assert buf + [] == buf;
        state := PutState(state, f, cum[s]);
      } else {
        assert [] + Chosen(syms, which, i + 1) == Chosen(syms, which, i + 1);
      }
    }
    ghost var r := Coded(state, buf);
    FourBytes(buf, state);
    buf := buf + [state % 256];
    buf := buf + [state / 256 % 256];
    buf := buf + [state / 256 / 256 % 256];
    buf := buf + [state / 256 / 256 / 256 % 256];
  }

  method PutState(x: nat, f: nat, c: nat) returns (r: nat)
    requires f > 0
    ensures r == Put(x, f, c)
  {
    r := x / f * M + x % f + c;
  }

  lemma FourBytes(buf: seq<byte>, state: nat)
    ensures buf + [state % 256] + [state / 256 % 256] + [state / 256 / 256 % 256] + [state / 256 / 256 / 256 % 256]
      == buf + [state % 256, state / 256 % 256, state / 256 / 256 % 256, state / 256 / 256 / 256 % 256]
  {
  }

  lemma CodeNothing(freq: seq<nat>)
    requires Scaled(freq)
    ensures Code(freq, []) == Coded(L, [])
  {
  }

  lemma CodeStep(freq: seq<nat>, xs: seq<nat>)
    requires xs != [] && Codable(freq, xs)
    ensures Codable(freq, xs[1..]) && L / M * 256 * freq[xs[0]] == 0x8_0000 * freq[xs[0]]
    ensures var r := Code(freq, xs[1..]);
      var f, c := freq[xs[0]], Before(freq, xs[0]);
      Code(freq, xs) == Coded(Put(Shrunk(r.state, 0x8_0000 * f), f, c), r.bytes + Shed(r.state, 0x8_0000 * f))
  {
  }

  lemma ShedStep(x: nat, xMax: nat)
    requires xMax > 0
    ensures x >= xMax ==> Shed(x, xMax) == [x % 256] + Shed(x / 256, xMax) && Shrunk(x, xMax) == Shrunk(x / 256, xMax)
    ensures x < xMax ==> Shed(x, xMax) == [] && Shrunk(x, xMax) == x
  {
  }

  // What the coder takes from i on is the end of all it takes.
  lemma ChosenIs(syms: seq<nat>, which: seq<bool>, i: nat)
    requires |which| == |syms| && i < |syms|
    ensures Chosen(syms, which, i) == (if which[i] then [syms[i]] else []) + Chosen(syms, which, i + 1)
  {
  }

  lemma {:induction false} ChosenPart(syms: seq<nat>, which: seq<bool>, freq: seq<nat>, i: nat)
    requires |which| == |syms| && Codable(freq, Chosen(syms, which, 0)) && i <= |syms|
    ensures Codable(freq, Chosen(syms, which, i))
    decreases i
  {
    hide Chosen;
    if i > 0 {
      ChosenIs(syms, which, i - 1);
      ChosenPart(syms, which, freq, i - 1);
      var all, rest := Chosen(syms, which, i - 1), Chosen(syms, which, i);
      var skip := if which[i - 1] then 1 else 0;
      assert all[skip..] == rest;
      forall j | 0 <= j < |rest| ensures rest[j] < |freq| && freq[rest[j]] > 0 {
        assert rest[j] == all[j + skip];
      }
    }
  }

  // ---------------------------------------------------------------- the decoder

  // The last four bytes, read backwards.
  method ReadState(buf: seq<byte>) returns (state: nat)
    requires |buf| >= 4
    ensures var n := |buf|; state == ((buf[n - 1] as nat * 256 + buf[n - 2]) * 256 + buf[n - 3]) * 256 + buf[n - 4]
  {
    state := 0;
    var pos := |buf|;
    for k := 0 to 4
      invariant pos == |buf| - k
      invariant k == 0 ==> state == 0
      invariant k == 1 ==> state == buf[|buf| - 1]
      invariant k == 2 ==> state == buf[|buf| - 1] as nat * 256 + buf[|buf| - 2]
      invariant k == 3 ==> state == (buf[|buf| - 1] as nat * 256 + buf[|buf| - 2]) * 256 + buf[|buf| - 3]
      invariant k == 4 ==>
        state == ((buf[|buf| - 1] as nat * 256 + buf[|buf| - 2]) * 256 + buf[|buf| - 3]) * 256 + buf[|buf| - 4]
    {
      pos := pos - 1;
      state := state * 256 + buf[pos];
    }
  }

  class Decoder {
    const buf: seq<byte>
    var pos: nat
    var state: nat
    // The symbols still to come.
    ghost var rest: seq<nat>

    // The state and the bytes still unread are those of the symbols still to come.
    ghost predicate Valid(freq: seq<nat>)
      reads this
    {
      pos <= |buf| && Codable(freq, rest) && Code(freq, rest) == Coded(state, buf[..pos])
    }

    constructor (buf: seq<byte>, ghost freq: seq<nat>, ghost xs: seq<nat>)
      requires Codable(freq, xs) && buf == Stream(freq, xs)
      ensures Valid(freq) && rest == xs && this.buf == buf
    {
      hide Code;
      this.buf := buf;
      this.rest := xs;
      var x := ReadState(buf);
      pos, state := |buf| - 4, x;
      ghost var r := Code(freq, xs);
      StateBytes(r.state);
      assert buf[..|buf| - 4] == r.bytes;
    }

    // One symbol, and the state renormalised from the bytes before.
    method Decode(slots: seq<nat>, freq: seq<nat>, cum: seq<nat>) returns (s: nat)
      requires Valid(freq) && rest != [] && SlotsFor(slots, freq) && Cumulative(freq, cum)
      modifies this
      ensures Valid(freq) && s == old(rest)[0] && rest == old(rest)[1..]
    {
      hide Code, Put, Shrunk, Shed, Codable;
      CodedParts(freq, rest);
      CodeStep(freq, rest);
      ghost var x, before := rest[0], Code(freq, rest[1..]);
      ghost var xMax := 0x8_0000 * freq[x];
      SlotsFit(freq, x);
      PutInverts(Shrunk(before.state, xMax), freq[x], cum[x]);
      var slot := state % M;
      s := slots[slot];
      SlotOwner(freq, s, x, slot);
      state := freq[s] * (state / M) + slot - cum[s];
      assert state == Shrunk(before.state, xMax);
      assert buf[..pos] == before.bytes + Shed(before.state, xMax);
      Refill(before, xMax);
      rest := rest[1..];
    }

    method Refill(ghost before: Coded, ghost xMax: nat)
      requires xMax > 0 && L <= before.state < TOP && pos <= |buf|
      requires state == Shrunk(before.state, xMax) && buf[..pos] == before.bytes + Shed(before.state, xMax)
      modifies `state, `pos
      ensures pos <= |buf| && state == before.state && buf[..pos] == before.bytes
    {
      hide Shrunk, Shed, Dropped;
      ghost var x, shed := before.state, Shed(before.state, xMax);
      ghost var k: nat, whole := |shed|, buf[..pos];
      ShedIs(x, xMax);
      DroppedNone(x);
      while state < L
        invariant k <= |shed| && pos == |before.bytes| + k <= |whole| <= |buf|
        invariant state == Dropped(x, k)
        decreases k
      {
        if k == 0 { assert false; }
        DroppedNext(x, k - 1);
        assert buf[pos - 1] == whole[pos - 1] == shed[k - 1];
        state := state * 256 + buf[pos - 1];
        pos := pos - 1;
        k := k - 1;
      }
      DroppedSmall(x, k);
      assert buf[..pos] == whole[..pos];
    }
  }

  // The state after k bytes have left.
  function Dropped(x: nat, k: nat): nat {
    if k == 0 then x else Dropped(x, k - 1) / 256
  }

  lemma DroppedNone(x: nat)
    ensures Dropped(x, 0) == x
  {
  }

  lemma DroppedNext(x: nat, k: nat)
    ensures Dropped(x, k + 1) * 256 + Dropped(x, k) % 256 == Dropped(x, k)
  {
  }

  lemma {:induction false} DroppedFront(x: nat, k: nat)
    ensures Dropped(x / 256, k) == Dropped(x, k + 1)
  {
    if k > 0 { DroppedFront(x, k - 1); }
  }

  lemma {:induction false} DroppedSmall(x: nat, k: nat)
    requires x < TOP
    ensures k > 0 ==> Dropped(x, k) < L
  {
    if k > 1 { DroppedSmall(x, k - 1); }
  }

  lemma {:induction false} ShedIs(x: nat, xMax: nat)
    requires xMax > 0
    ensures Shrunk(x, xMax) == Dropped(x, |Shed(x, xMax)|)
    ensures forall j :: 0 <= j < |Shed(x, xMax)| ==> Shed(x, xMax)[j] == Dropped(x, j) % 256
    decreases x
  {
    hide Dropped;
    DroppedNone(x);
    if x >= xMax {
      ShedIs(x / 256, xMax);
      var s := Shed(x, xMax);
      DroppedFront(x, |s| - 1);
      forall j | 0 <= j < |s| ensures s[j] == Dropped(x, j) % 256 {
        if j > 0 { DroppedFront(x, j - 1); }
      }
    }
  }

  lemma CodedParts(freq: seq<nat>, xs: seq<nat>)
    requires Codable(freq, xs) && xs != []
    ensures Scaled(freq) && xs[0] < |freq| && freq[xs[0]] > 0 && Codable(freq, xs[1..])
  {
  }

  lemma StateBytes(x: nat)
    requires x < TOP
    ensures ((x / 256 / 256 / 256 % 256 * 256 + x / 256 / 256 % 256) * 256 + x / 256 % 256) * 256 + x % 256 == x
  {
  }

  // ---------------------------------------------------------------- any number of coders in turn

  function Turns(n: nat, coders: nat, j: nat): (r: seq<bool>)
    requires coders > 0
    ensures |r| == n && forall i :: 0 <= i < n ==> r[i] == (i % coders == j)
  {
    seq(n, i requires 0 <= i < n => i % coders == j)
  }

  ghost predicate AllValid(decs: seq<Decoder>, freq: seq<nat>, syms: seq<nat>, i: nat)
    reads decs
  {
    && decs != []
    && (forall j :: 0 <= j < |decs| ==>
         decs[j].Valid(freq) && decs[j].rest == Chosen(syms, Turns(|syms|, |decs|, j), i))
    && (forall a, b :: 0 <= a < b < |decs| ==> decs[a] != decs[b])
  }

  lemma ChosenTurn(syms: seq<nat>, coders: nat, j: nat, i: nat)
    requires 0 < coders && j < coders && i < |syms|
    ensures var rest := Chosen(syms, Turns(|syms|, coders, j), i);
      var next := Chosen(syms, Turns(|syms|, coders, j), i + 1);
      if i % coders == j then rest != [] && rest[0] == syms[i] && rest[1..] == next else rest == next
  {
  }

  // A decoder with no symbol left stands at the start of its bytes, in the state the
  // encoder started from.
  ghost predicate Drained(d: Decoder)
    reads d
  {
    d.pos == 0 && d.state == L
  }

  lemma AllDrained(decs: seq<Decoder>, freq: seq<nat>, syms: seq<nat>)
    requires AllValid(decs, freq, syms, |syms|)
    ensures forall j :: 0 <= j < |decs| ==> Drained(decs[j])
  {
    forall j | 0 <= j < |decs| ensures Drained(decs[j]) {
      assert decs[j].Valid(freq) && decs[j].rest == [];
    }
  }

  // The next symbol, from the coder whose turn it is.
  method DecodeTurn(decs: seq<Decoder>, slots: seq<nat>, freq: seq<nat>, cum: seq<nat>, ghost syms: seq<nat>, i: nat, j: nat)
    returns (s: nat)
    requires AllValid(decs, freq, syms, i) && i < |syms| && j == i % |decs|
    requires SlotsFor(slots, freq) && Cumulative(freq, cum)
    modifies decs
    ensures AllValid(decs, freq, syms, i + 1) && s == syms[i]
  {
    hide Chosen, Turns, Code, Codable, SlotsFor, Cumulative;
    forall k | 0 <= k < |decs|
      ensures var rest := Chosen(syms, Turns(|syms|, |decs|, k), i);
        var next := Chosen(syms, Turns(|syms|, |decs|, k), i + 1);
        if i % |decs| == k then rest != [] && rest[0] == syms[i] && rest[1..] == next else rest == next
    {
      ChosenTurn(syms, |decs|, k, i);
    }
    s := decs[j].Decode(slots, freq, cum);
  }

  method StartDecoders(bufs: seq<seq<byte>>, ghost freq: seq<nat>, ghost syms: seq<nat>) returns (decs: seq<Decoder>)
    requires bufs != [] && forall j :: 0 <= j < |bufs| ==>
      Codable(freq, Chosen(syms, Turns(|syms|, |bufs|, j), 0)) && bufs[j] == Stream(freq, Chosen(syms, Turns(|syms|, |bufs|, j), 0))
    ensures |decs| == |bufs| && fresh(decs) && AllValid(decs, freq, syms, 0)
  {
    hide Chosen, Code, Codable, Stream, Turns;
    decs := [];
    for j := 0 to |bufs|
      invariant |decs| == j && fresh(decs)
      invariant forall k :: 0 <= k < j ==> decs[k].Valid(freq) && decs[k].rest == Chosen(syms, Turns(|syms|, |bufs|, k), 0)
      invariant forall a, b :: 0 <= a < b < j ==> decs[a] != decs[b]
    {
      var d := new Decoder(bufs[j], freq, Chosen(syms, Turns(|syms|, |bufs|, j), 0));
      decs := decs + [d];
    }
  }

  // One symbol of each of the first k coders, where a round starts.
  method DecodeRound(coders: seq<Decoder>, slots: seq<nat>, freq: seq<nat>, cum: seq<nat>, ghost syms: seq<nat>, start: nat, k: nat)
    returns (part: seq<nat>)
    requires AllValid(coders, freq, syms, start) && 0 < |coders| && start % |coders| == 0 && k <= |coders| && start + k <= |syms|
    requires SlotsFor(slots, freq) && Cumulative(freq, cum)
    modifies coders
    ensures AllValid(coders, freq, syms, start + k) && part == syms[start..start + k]
  {
    hide AllValid, SlotsFor, Cumulative;
    part := [];
    for j := 0 to k
      invariant AllValid(coders, freq, syms, start + j) && part == syms[start..start + j]
    {
      TurnOf(start, |coders|, j);
      var s := DecodeTurn(coders, slots, freq, cum, syms, start + j, j);
      part := part + [s];
    }
  }

  // Coders in turn, decoded round robin: whole rounds, then the rest. The symbols come
  // back in order, whatever their number and the coders', and every coder has then used up
  // exactly its own bytes.
  method DecodeAll(bufs: seq<seq<byte>>, slots: seq<nat>, freq: seq<nat>, cum: seq<nat>, n: nat, ghost syms: seq<nat>)
    returns (out: seq<nat>, ghost decs: seq<Decoder>)
    requires bufs != [] && n == |syms| && SlotsFor(slots, freq) && Cumulative(freq, cum) && Codable(freq, syms)
    requires forall j :: 0 <= j < |bufs| ==>
      Codable(freq, Chosen(syms, Turns(n, |bufs|, j), 0)) && bufs[j] == Stream(freq, Chosen(syms, Turns(n, |bufs|, j), 0))
    ensures out == syms
    ensures |decs| == |bufs| && forall j :: 0 <= j < |decs| ==> Drained(decs[j])
  {
    hide Chosen, Code, Codable, SlotsFor, Cumulative, Stream, Turns, AllValid, Drained;
    var coders := StartDecoders(bufs, freq, syms);
    out := [];
    var i: nat := 0;
    while i + |coders| <= n
      invariant i <= n && i % |coders| == 0 && out == syms[..i] && AllValid(coders, freq, syms, i) && fresh(coders)
    {
      var part := DecodeRound(coders, slots, freq, cum, syms, i, |coders|);
      TurnOver(i, |coders|);
      assert syms[..i] + syms[i..i + |coders|] == syms[..i + |coders|];
      out, i := out + part, i + |coders|;
    }
    var part := DecodeRound(coders, slots, freq, cum, syms, i, n - i);
    assert syms[..i] + syms[i..n] == syms;
    out := out + part;
    AllDrained(coders, freq, syms);
    decs := coders;
  }

  lemma TurnOf(start: nat, coders: nat, j: nat)
    requires coders > 0 && start % coders == 0 && j < coders
    ensures (start + j) % coders == j
  {
    DivModIs(start + j, coders, start / coders, j);
  }

  lemma TurnOver(start: nat, coders: nat)
    requires coders > 0 && start % coders == 0
    ensures (start + coders) % coders == 0
  {
    DivModIs(start + coders, coders, start / coders + 1, 0);
  }

  lemma {:induction false} ChosenCodable(syms: seq<nat>, which: seq<bool>, freq: seq<nat>, i: nat)
    requires |which| == |syms| && Codable(freq, syms)
    ensures Codable(freq, Chosen(syms, which, i))
    decreases |syms| - i
  {
    if i < |syms| { ChosenCodable(syms, which, freq, i + 1); }
  }

  // Every entry is how often its symbol occurs.
  method Histogram(syms: seq<nat>) returns (hist: seq<nat>)
    requires forall i :: 0 <= i < |syms| ==> syms[i] < 256
    ensures |hist| == 256 && forall s: nat :: s < 256 ==> hist[s] == multiset(syms)[s]
  {
    var h := new nat[256](_ => 0);
    for i := 0 to |syms|
      invariant forall s: nat :: s < 256 ==> h[s] == multiset(syms[..i])[s]
    {
      assert syms[..i + 1] == syms[..i] + [syms[i]];
      h[syms[i]] := h[syms[i]] + 1;
    }
    assert syms[..|syms|] == syms;
    hist := h[..];
  }

  // For any symbols and any number of coders: the histogram normalised, each coder's
  // stream encoded, all decoded in turn.
  method RoundTrip(syms: seq<nat>, coders: nat) returns (out: seq<nat>)
    requires coders > 0 && forall i :: 0 <= i < |syms| ==> syms[i] < 256
    ensures out == syms
  {
    hide Code, Stream, Chosen, SlotsFor, Turns, Shares, Settled;
    var hist := Histogram(syms);
    var freq, cum, shares := Normalize(hist);
    var slots := SlotTable(freq, cum);
    var bufs: seq<seq<byte>> := [];
    for j := 0 to coders
      invariant |bufs| == j
      invariant forall k :: 0 <= k < j ==>
        Codable(freq, Chosen(syms, Turns(|syms|, coders, k), 0)) && bufs[k] == Stream(freq, Chosen(syms, Turns(|syms|, coders, k), 0))
    {
      ChosenCodable(syms, Turns(|syms|, coders, j), freq, 0);
      var buf := EncodeStream(syms, Turns(|syms|, coders, j), freq, cum);
      bufs := bufs + [buf];
    }
    ghost var decs;
    out, decs := DecodeAll(bufs, slots, freq, cum, |syms|, syms);
  }
}
