// src/neon_decompress.rs, the prepass: the lengths of 32 tokens at once. Escape bytes are
// found by a prefix sum over the lanes and gathered; what comes out is what reading the
// tokens one after another gives.

module VectorPrepass {
  import opened Common
  import opened ByteStrings
  import opened Tokens

  const LANES: nat := 32
  const WORD16: nat := 0x1_0000

  // ---------------------------------------------------------------- reading one after another

  datatype Read = Read(lits: seq<nat>, mls: seq<nat>, used: nat)

  // The lengths of the first n tokens and the escape bytes they take; None if a length
  // cannot be read.
  function ReadFirst(tokens: seq<byte>, extras: seq<byte>, bias: nat, n: nat): (r: Option<Read>)
    requires n <= |tokens|
    ensures r.Some? ==> r.value.used <= |extras| && |r.value.lits| == |r.value.mls| == n
  {
    if n == 0 then Some(Read([], [], 0))
    else
      match ReadFirst(tokens, extras, bias, n - 1)
      case None => None
      case Some(r) =>
        match ReadLengths(tokens[n - 1], extras[r.used..], bias)
        case Err(_) => None
        case Ok((lit, ml, used)) => Some(Read(r.lits + [lit], r.mls + [ml], r.used + used))
  }

  // How many of the lengths are matches.
  function Matches(mls: seq<nat>): (n: nat)
    ensures n <= |mls|
  {
    if mls == [] then 0 else (if mls[0] > 0 then 1 else 0) + Matches(mls[1..])
  }

  lemma {:induction false} MatchesAppend(a: seq<nat>, b: seq<nat>)
    ensures Matches(a + b) == Matches(a) + Matches(b)
  {
    if a == [] {
      assert a + b == b;
    } else {
      assert (a + b)[1..] == a[1..] + b;
      MatchesAppend(a[1..], b);
    }
  }

  // ---------------------------------------------------------------- prefix sums over lanes

  lemma {:induction false} BeforeBound(f: seq<nat>, k: nat)
    requires k <= |f| && forall i :: 0 <= i < |f| ==> f[i] <= 2
    ensures Before(f, k) <= 2 * k
  {
    if k > 0 { BeforeBound(f, k - 1); }
  }

  lemma {:induction false} BeforeAppend(a: seq<nat>, b: seq<nat>, k: nat)
    requires k <= |b|
    ensures Before(a + b, |a| + k) == Before(a, |a|) + Before(b, k)
  {
    if k == 0 {
      BeforePrefix(a, b, |a|);
    } else {
      BeforeAppend(a, b, k - 1);
    }
  }

  // A vector plus itself shifted up by k lanes, in bytes that wrap.
  function ShiftAdd(p: seq<nat>, k: nat): (r: seq<nat>)
    ensures |r| == |p| && forall i :: 0 <= i < |p| ==> r[i] == (p[i] + Shifted(p, k, i)) % 256
  {
    seq(|p|, i requires 0 <= i < |p| => (p[i] + Shifted(p, k, i)) % 256)
  }

  // Lane i of p shifted up by k lanes, zeros coming in.
  function Shifted(p: seq<nat>, k: nat, i: nat): nat
    requires i < |p|
  {
    if i >= k then p[i - k] else 0
  }

  // Every lane holds the sum of the w lanes ending at it.
  ghost predicate Windowed(p: seq<nat>, f: seq<nat>, w: nat) {
    |p| == |f| && forall i :: 0 <= i < |f| ==> p[i] == Before(f, i + 1) - Before(f, Max(0, i + 1 - w))
  }

  lemma ShiftDoubles(p: seq<nat>, f: seq<nat>, w: nat)
    requires Windowed(p, f, w) && w >= 1 && |f| <= 16 && forall i :: 0 <= i < |f| ==> f[i] <= 2
    ensures Windowed(ShiftAdd(p, w), f, 2 * w)
  {
    hide Before, ShiftAdd;
    var r := ShiftAdd(p, w);
    forall i | 0 <= i < |f| ensures r[i] == Before(f, i + 1) - Before(f, Max(0, i + 1 - 2 * w)) {
      LaneDoubles(p, f, w, i);
    }
  }

  lemma LaneDoubles(p: seq<nat>, f: seq<nat>, w: nat, i: nat)
    requires Windowed(p, f, w) && w >= 1 && i < |f| <= 16 && forall i :: 0 <= i < |f| ==> f[i] <= 2
    ensures (p[i] + Shifted(p, w, i)) % 256 == Before(f, i + 1) - Before(f, Max(0, i + 1 - 2 * w))
  {
    hide Before, Windowed;
    WindowAt(p, f, w, i);
    BeforeBound(f, i + 1);
    BeforeMonotone(f, Max(0, i + 1 - 2 * w), i + 1);
    if i >= w { WindowAt(p, f, w, i - w); } else { NothingBefore(f); }
  }

  lemma WindowAt(p: seq<nat>, f: seq<nat>, w: nat, i: nat)
    requires Windowed(p, f, w) && i < |f|
    ensures |p| == |f| && p[i] == Before(f, i + 1) - Before(f, Max(0, i + 1 - w))
  {
  }

  lemma NothingBefore(f: seq<nat>)
    ensures Before(f, 0) == 0
  {
  }

  // Four doubling steps sum 16 lanes.
  function PrefixSums(f: seq<nat>): seq<nat> {
    ShiftAdd(ShiftAdd(ShiftAdd(ShiftAdd(f, 1), 2), 4), 8)
  }

  lemma PrefixSumsSum(f: seq<nat>)
    requires |f| == 16 && forall i :: 0 <= i < |f| ==> f[i] <= 2
    ensures |PrefixSums(f)| == 16
    ensures forall i :: 0 <= i < 16 ==> PrefixSums(f)[i] == Before(f, i + 1)
  {
    hide ShiftAdd;
    assert Windowed(f, f, 1) by {
      forall i | 0 <= i < |f| ensures f[i] == Before(f, i + 1) - Before(f, i) {}
    }
    ShiftDoubles(f, f, 1);
    ShiftDoubles(ShiftAdd(f, 1), f, 2);
    ShiftDoubles(ShiftAdd(ShiftAdd(f, 1), 2), f, 4);
    ShiftDoubles(ShiftAdd(ShiftAdd(ShiftAdd(f, 1), 2), 4), f, 8);
    var p := PrefixSums(f);
    forall i | 0 <= i < 16 ensures p[i] == Before(f, i + 1) {
      assert Max(0, i + 1 - 16) == 0;
    }
  }

  function AddAll(p: seq<nat>, c: nat): (r: seq<nat>)
    ensures |r| == |p| && forall i :: 0 <= i < |p| ==> r[i] == (p[i] + c) % 256
  {
    seq(|p|, i requires 0 <= i < |p| => (p[i] + c) % 256)
  }

  // ---------------------------------------------------------------- the lanes of one chunk

  function Flag(b: bool): nat {
    if b then 1 else 0
  }

  predicate LitEscaped(t: byte) {
    LitCode(t) == LIT_CODE_ESCAPE
  }

  predicate MatchEscaped(t: byte) {
    MatchCode(t) == MATCH_CODE_ESCAPE
  }

  // The length a match code says without its escape.
  function PlainMatch(t: byte, bias: nat): nat {
    if MatchCode(t) == 0 then 0 else MatchCode(t) + bias
  }

  function Fields(t: byte): (n: nat)
    ensures n <= 2
  {
    Flag(LitEscaped(t)) + Flag(MatchEscaped(t))
  }

  function FieldLanes(tokens: seq<byte>): (f: seq<nat>)
    ensures |f| == |tokens| && forall i :: 0 <= i < |tokens| ==> f[i] == Fields(tokens[i]) <= 2
  {
    seq(|tokens|, i requires 0 <= i < |tokens| => Fields(tokens[i]))
  }

  // The inclusive prefix sums of two 16-lane halves, the second raised by the first's last.
  function RunningFields(f: seq<nat>): (p: seq<nat>)
    requires |f| == LANES
  {
    var p0 := PrefixSums(f[..16]);
    if |p0| == 16 then p0 + AddAll(PrefixSums(f[16..]), p0[15]) else []
  }

  lemma RunningFieldsAre(f: seq<nat>)
    requires |f| == LANES && forall i :: 0 <= i < LANES ==> f[i] <= 2
    ensures |RunningFields(f)| == LANES
    ensures forall i :: 0 <= i < LANES ==> RunningFields(f)[i] == Before(f, i + 1)
  {
    hide PrefixSums, Before;
    var a, b := f[..16], f[16..];
    PrefixSumsSum(a);
    PrefixSumsSum(b);
    assert f == a + b;
    forall i | 0 <= i < LANES ensures RunningFields(f)[i] == Before(f, i + 1) {
      if i < 16 {
        BeforePrefix(a, b, i + 1);
      } else {
        BeforeAppend(a, b, i + 1 - 16);
        BeforeBound(f, i + 1);
      }
    }
  }

  function SubtractLanes(p: seq<int>, f: seq<int>): (r: seq<nat>)
    requires |p| == |f|
    ensures |r| == |p| && forall i :: 0 <= i < |p| ==> r[i] == (p[i] - f[i]) % 256
  {
    seq(|p|, i requires 0 <= i < |p| => (p[i] - f[i]) % 256)
  }

  // Where each lane's fields start: its inclusive sum without itself.
  lemma StartsAre(f: seq<nat>, p: seq<nat>)
    requires |f| == |p| == LANES && forall i :: 0 <= i < LANES ==> f[i] <= 2 && p[i] == Before(f, i + 1)
    ensures forall i :: 0 <= i < LANES ==> SubtractLanes(p, f)[i] == Before(f, i)
  {
    hide Before;
    forall i | 0 <= i < LANES ensures SubtractLanes(p, f)[i] == Before(f, i) {
      BeforeStep(f, i);
      BeforeBound(f, i);
    }
  }

  lemma BeforeStep(f: seq<nat>, i: nat)
    requires i < |f|
    ensures Before(f, i + 1) == Before(f, i) + f[i]
  {
  }

  // The byte a lane gathers from the next 64 escape bytes: an index past them gives zero.
  function Gather(window: seq<byte>, at: nat): byte {
    if at < |window| then window[at] else 0
  }

  // Where a lane's field starts; the index is all ones for a lane without the field.
  function LitIndex(t: byte, x: nat): nat {
    if LitEscaped(t) then x else 255
  }

  function MatchIndex(t: byte, x: nat): nat {
    if MatchEscaped(t) then x + Flag(LitEscaped(t)) else 255
  }

  // A lane whose gathered field says that more bytes follow.
  predicate Continues(t: byte, window: seq<byte>, x: nat) {
    || (LitEscaped(t) && Gather(window, LitIndex(t, x)) == ESCAPE_CONT)
    || (MatchEscaped(t) && Gather(window, MatchIndex(t, x)) == ESCAPE_CONT)
  }

  function BlendLit(t: byte, window: seq<byte>, x: nat): nat {
    if LitEscaped(t) then ESCAPE_BASE_LIT + Gather(window, LitIndex(t, x)) else LitCode(t)
  }

  function BlendMatch(t: byte, window: seq<byte>, x: nat, bias: nat): nat {
    if MatchEscaped(t) then bias + 15 + Gather(window, MatchIndex(t, x)) else PlainMatch(t, bias)
  }

  // One lane without a continuation reads what the escape reader reads at its offset.
  lemma LaneReads(t: byte, extras: seq<byte>, window: seq<byte>, x: nat, bias: nat)
    requires x + Fields(t) <= |extras| && |window| == 64 && x + Fields(t) <= 64
    requires forall k :: 0 <= k < 64 && k < |extras| ==> window[k] == extras[k]
    requires !Continues(t, window, x)
    ensures ReadLengths(t, extras[x..], bias)
      == Ok((BlendLit(t, window, x), BlendMatch(t, window, x, bias), Fields(t)))
  {
    hide LitCode, MatchCode;
    var e := extras[x..];
    if LitEscaped(t) {
      assert e[0] == extras[x] == window[x];
      assert ReadEscape(e, ESCAPE_BASE_LIT) == Ok((ESCAPE_BASE_LIT + window[x], 1));
      SliceSlice(extras, x, 1);
    }
    assert e[Flag(LitEscaped(t))..] == extras[x + Flag(LitEscaped(t))..];
    if MatchEscaped(t) {
      var y := x + Flag(LitEscaped(t));
      assert extras[y..][0] == extras[y] == window[y];
    }
  }

  predicate AnyContinues(chunk: seq<byte>, window: seq<byte>, x: seq<nat>)
    requires |chunk| == |x|
  {
    exists i :: 0 <= i < |chunk| && Continues(chunk[i], window, x[i])
  }

  function BlendLits(chunk: seq<byte>, window: seq<byte>, x: seq<nat>): (r: seq<nat>)
    requires |chunk| == |x|
    ensures |r| == |x| && forall i :: 0 <= i < |x| ==> r[i] == BlendLit(chunk[i], window, x[i])
  {
    seq(|x|, i requires 0 <= i < |x| => BlendLit(chunk[i], window, x[i]))
  }

  function BlendMatches(chunk: seq<byte>, window: seq<byte>, x: seq<nat>, bias: nat): (r: seq<nat>)
    requires |chunk| == |x|
    ensures |r| == |x| && forall i :: 0 <= i < |x| ==> r[i] == BlendMatch(chunk[i], window, x[i], bias)
  {
    seq(|x|, i requires 0 <= i < |x| => BlendMatch(chunk[i], window, x[i], bias))
  }

  ghost predicate Gathered(tokens: seq<byte>, extras: seq<byte>, window: seq<byte>, f: seq<nat>, x: seq<nat>) {
    && |tokens| == |x| == LANES && f == FieldLanes(tokens)
    && (forall i :: 0 <= i < LANES ==> x[i] == Before(f, i))
    && Before(f, LANES) <= |extras| && Before(f, LANES) <= 64 && |window| == 64
    && (forall k :: 0 <= k < 64 && k < |extras| ==> window[k] == extras[k])
    && !AnyContinues(tokens, window, x)
  }

  lemma GatheredLane(tokens: seq<byte>, extras: seq<byte>, window: seq<byte>, f: seq<nat>, x: seq<nat>, bias: nat, i: nat)
    requires Gathered(tokens, extras, window, f, x) && i < LANES
    ensures x[i] <= |extras| && x[i] == Before(f, i) && |f| == LANES && Before(f, i + 1) == x[i] + Fields(tokens[i])
    ensures ReadLengths(tokens[i], extras[x[i]..], bias)
      == Ok((BlendLit(tokens[i], window, x[i]), BlendMatch(tokens[i], window, x[i], bias), Fields(tokens[i])))
  {
    hide FieldLanes, Fields, ReadLengths, BlendLit, BlendMatch, Continues, Before;
    FieldLaneIs(tokens, i);
    BeforeStep(f, i);
    BeforeMonotone(f, i + 1, LANES);
    LaneReads(tokens[i], extras, window, x[i], bias);
  }

  // Gathering all lanes reads what the tokens say one after another.
  lemma {:induction false} GatherReads(tokens: seq<byte>, extras: seq<byte>, window: seq<byte>, f: seq<nat>, x: seq<nat>,
                                       bias: nat, n: nat)
    requires Gathered(tokens, extras, window, f, x) && n <= LANES
    ensures |f| == LANES
    ensures ReadFirst(tokens, extras, bias, n)
      == Some(Read(BlendLits(tokens, window, x)[..n], BlendMatches(tokens, window, x, bias)[..n], Before(f, n)))
  {
    hide FieldLanes, Fields, ReadLengths, BlendLit, BlendMatch, BlendLits, BlendMatches, Gathered, Before;
    GatheredShape(tokens, extras, window, f, x);
    if n > 0 {
      GatherReads(tokens, extras, window, f, x, bias, n - 1);
      GatheredLane(tokens, extras, window, f, x, bias, n - 1);
      ReadLengthsLane(BlendLits(tokens, window, x), n);
      ReadLengthsLane(BlendMatches(tokens, window, x, bias), n);
    }
  }

  lemma GatheredShape(tokens: seq<byte>, extras: seq<byte>, window: seq<byte>, f: seq<nat>, x: seq<nat>)
    requires Gathered(tokens, extras, window, f, x)
    ensures |tokens| == |x| == |f| == LANES && Before(f, 0) == 0
  {
  }

  lemma ReadLengthsLane(s: seq<nat>, n: nat)
    requires 0 < n <= |s|
    ensures s[..n] == s[..n - 1] + [s[n - 1]]
  {
  }

  lemma FieldLaneIs(tokens: seq<byte>, i: nat)
    requires i < |tokens|
    ensures |FieldLanes(tokens)| == |tokens| && FieldLanes(tokens)[i] == Fields(tokens[i]) <= 2
  {
  }

  // ---------------------------------------------------------------- the prepass

  // The token and escape streams. The escape bytes lie in memory that stays readable for
  // a while behind them.
  datatype Prepass = Prepass(tokens: seq<byte>, memory: seq<byte>, extrasLen: nat, bias: nat) {
    ghost predicate Valid() {
      extrasLen <= |memory| && bias <= 240
    }

    function Extras(): seq<byte>
      requires Valid()
    {
      memory[..extrasLen]
    }
  }

  // Sums of the lengths of a chunk, how many are matches, and the escape cursor behind it.
  datatype Totals = Totals(lits: nat, mls: nat, matches: nat, e: nat)

  // What the prepass left in the length arrays and returned is what reading gives.
  ghost predicate Chunked(pp: Prepass, t: nat, e0: nat, lits: seq<nat>, mls: seq<nat>, r: Totals)
    requires pp.Valid() && t + LANES <= |pp.tokens| && e0 <= pp.extrasLen
  {
    && e0 <= r.e <= pp.extrasLen
    && ReadFirst(pp.tokens[t..t + LANES], pp.Extras()[e0..], pp.bias, LANES) == Some(Read(lits, mls, r.e - e0))
    && r.lits == Sum(lits) && r.mls == Sum(mls) && r.matches == Matches(mls)
  }

  function ZeroCodes(tokens: seq<byte>): (n: nat)
    ensures n <= |tokens|
  {
    if tokens == [] then 0 else ZeroCodes(tokens[..|tokens| - 1]) + Flag(MatchCode(tokens[|tokens| - 1]) == 0)
  }

  lemma {:induction false} MatchCount(tokens: seq<byte>, extras: seq<byte>, bias: nat, n: nat)
    requires n <= |tokens| && ReadFirst(tokens, extras, bias, n).Some?
    ensures Matches(ReadFirst(tokens, extras, bias, n).value.mls) + ZeroCodes(tokens[..n]) == n
  {
    hide ReadLengths, LitCode, MatchCode;
    if n > 0 {
      MatchCount(tokens, extras, bias, n - 1);
      var r := ReadFirst(tokens, extras, bias, n - 1).value;
      assert tokens[..n][..n - 1] == tokens[..n - 1];
      MatchLengthZero(tokens[n - 1], extras[r.used..], bias);
      var ml := ReadLengths(tokens[n - 1], extras[r.used..], bias).value.1;
      MatchesAppend(r.mls, [ml]);
      OneMatch(ml);
    }
  }

  lemma OneMatch(ml: nat)
    ensures Matches([ml]) == Flag(ml > 0)
  {
    assert [ml][1..] == [];
  }

  lemma MatchLengthZero(t: byte, extras: seq<byte>, bias: nat)
    requires ReadLengths(t, extras, bias).Ok?
    ensures ReadLengths(t, extras, bias).value.1 == 0 <==> MatchCode(t) == 0
  {
    hide LitCode, MatchCode;
  }

  method StoreLanes(a: array<u16>, at: nat, s: seq<nat>)
    requires at + |s| <= a.Length && forall i :: 0 <= i < |s| ==> s[i] < 0x1_0000
    modifies a
    ensures a[..at] == old(a[..at]) && a[at..at + |s|] == s
  {
    forall i | 0 <= i < |s| { a[at + i] := s[i]; }
    assert forall i :: at <= i < at + |s| ==> a[i] == s[i - at];
    SameLanes(a[at..at + |s|], s);
  }

  // Two vectors of 16-bit lanes added lane by lane, and one vector's lanes added together:
  // both wrap.
  function AddWords(a: seq<nat>, b: seq<nat>): (r: seq<nat>)
    requires |a| == |b|
    ensures |r| == |a| && forall i :: 0 <= i < |a| ==> r[i] == (a[i] + b[i]) % WORD16
  {
    seq(|a|, i requires 0 <= i < |a| => (a[i] + b[i]) % WORD16)
  }

  function Across(v: seq<nat>): nat {
    if v == [] then 0 else (v[0] + Across(v[1..])) % WORD16
  }

  // The total of 32 lengths held in four vectors of eight lanes.
  function LaneTotal(s: seq<nat>): nat
    requires |s| == LANES
  {
    Across(AddWords(AddWords(s[..8], s[8..16]), AddWords(s[16..24], s[24..])))
  }

  lemma {:induction false} AcrossIs(v: seq<nat>)
    ensures Sum(v) >= 0 && Across(v) == (Sum(v) as nat) % WORD16
  {
    if v != [] { AcrossIs(v[1..]); }
  }

  lemma {:induction false} AddWordsSum(a: seq<nat>, b: seq<nat>)
    requires |a| == |b| && forall i :: 0 <= i < |a| ==> a[i] + b[i] < WORD16
    ensures Sum(AddWords(a, b)) == Sum(a) + Sum(b)
  {
    if a != [] {
      AddWordsSum(a[1..], b[1..]);
      assert AddWords(a, b)[1..] == AddWords(a[1..], b[1..]);
    }
  }

  // Lanes each under 2^16 / 32 are added without a wrap.
  lemma LaneTotalIs(s: seq<nat>, bound: nat)
    requires |s| == LANES && bound * LANES < WORD16 && forall i :: 0 <= i < LANES ==> s[i] <= bound
    ensures LaneTotal(s) == Sum(s) <= bound * LANES
  {
    hide Across, Sum;
    var a, b, c, d := s[..8], s[8..16], s[16..24], s[24..];
    AddWordsSum(a, b);
    AddWordsSum(c, d);
    AddWordsSum(AddWords(a, b), AddWords(c, d));
    AcrossIs(AddWords(AddWords(a, b), AddWords(c, d)));
    assert s == a + (b + (c + d));
    SumAppend(a, b + (c + d));
    SumAppend(b, c + d);
    SumAppend(c, d);
    SumAtMost(s, bound);
  }

  lemma {:induction false} SumAtMost(s: seq<nat>, bound: nat)
    requires forall i :: 0 <= i < |s| ==> s[i] <= bound
    ensures 0 <= Sum(s) <= bound * |s|
  {
    if s != [] { SumAtMost(s[1..], bound); }
  }

  // A chunk none of whose fields continues: the 16-bit totals of its lengths are the
  // lengths' sums.
  lemma TotalsFit(tokens: seq<byte>, extras: seq<byte>, window: seq<byte>, f: seq<nat>, x: seq<nat>, bias: nat)
    requires Gathered(tokens, extras, window, f, x) && bias <= 240
    ensures LaneTotal(BlendLits(tokens, window, x)) == Sum(BlendLits(tokens, window, x)) <= 8352
    ensures LaneTotal(BlendMatches(tokens, window, x, bias)) == Sum(BlendMatches(tokens, window, x, bias)) <= 16288
  {
    hide LaneTotal, Sum, Before, FieldLanes;
    forall i | 0 <= i < LANES
      ensures BlendLits(tokens, window, x)[i] <= 261 && BlendMatches(tokens, window, x, bias)[i] <= 509
    {
      BlendSmall(tokens[i], window, x[i], bias);
    }
    LaneTotalIs(BlendLits(tokens, window, x), 261);
    LaneTotalIs(BlendMatches(tokens, window, x, bias), 509);
  }

  lemma BlendSmall(t: byte, window: seq<byte>, x: nat, bias: nat)
    requires !Continues(t, window, x) && bias <= 240
    ensures BlendLit(t, window, x) <= 261 && BlendMatch(t, window, x, bias) <= 509
  {
    hide LitCode, MatchCode;
  }

  // No field continues: every lane blends its code with the byte it gathered.
  method Blend(pp: Prepass, t: nat, e0: nat, ghost f: seq<nat>, x: seq<nat>, fields: nat, litl: array<u16>, mll: array<u16>,
               at: nat)
    returns (r: Totals)
    requires pp.Valid() && t + LANES <= |pp.tokens| && e0 <= pp.extrasLen && e0 + 64 <= |pp.memory|
    requires litl != mll && at + LANES <= litl.Length && at + LANES <= mll.Length
    requires Gathered(pp.tokens[t..t + LANES], pp.Extras()[e0..], pp.memory[e0..e0 + 64], f, x)
    requires |f| == LANES && fields == Before(f, LANES) && e0 + fields <= pp.extrasLen
    modifies litl, mll
    ensures litl[..at] == old(litl[..at]) && mll[..at] == old(mll[..at])
    ensures Chunked(pp, t, e0, litl[at..at + LANES], mll[at..at + LANES], r)
  {
    hide ReadFirst, Gathered, BlendLits, BlendMatches, BlendLit, BlendMatch, LaneTotal, Sum, Matches, ZeroCodes, Before;
    var chunk, window := pp.tokens[t..t + LANES], pp.memory[e0..e0 + 64];
    ghost var ex := pp.Extras()[e0..];
    GatheredShape(chunk, ex, window, f, x);
    GatherReads(chunk, ex, window, f, x, pp.bias, LANES);
    var lits, mls := BlendLits(chunk, window, x), BlendMatches(chunk, window, x, pp.bias);
    BlendsFit(chunk, window, x, pp.bias);
    TotalsFit(chunk, ex, window, f, x, pp.bias);
    StoreLanes(litl, at, lits);
    StoreLanes(mll, at, mls);
    MatchCount(chunk, ex, pp.bias, LANES);
    assert chunk[..LANES] == chunk && lits[..LANES] == lits && mls[..LANES] == mls;
    r := Totals(LaneTotal(lits), LaneTotal(mls), LANES - ZeroCodes(chunk), e0 + fields);
  }

  lemma NonNegative(s: seq<nat>)
    ensures Sum(s) >= 0
  {
    SumNonNegative(s);
  }

  lemma SameLanes(a: seq<nat>, b: seq<nat>)
    requires |a| == |b| && forall i :: 0 <= i < |a| ==> a[i] == b[i]
    ensures a == b
  {
  }

  lemma BlendsFit(chunk: seq<byte>, window: seq<byte>, x: seq<nat>, bias: nat)
    requires bias <= 240 && |chunk| == |x|
    ensures forall i :: 0 <= i < |x| ==>
      BlendLits(chunk, window, x)[i] < 0x1_0000 && BlendMatches(chunk, window, x, bias)[i] < 0x1_0000
  {
    hide LitCode, MatchCode;
  }

  function LitCodes(chunk: seq<byte>): (r: seq<nat>)
    ensures |r| == |chunk| && forall i :: 0 <= i < |chunk| ==> r[i] == LitCode(chunk[i])
  {
    seq(|chunk|, i requires 0 <= i < |chunk| => LitCode(chunk[i]))
  }

  function PlainMatches(chunk: seq<byte>, bias: nat): (r: seq<nat>)
    ensures |r| == |chunk| && forall i :: 0 <= i < |chunk| ==> r[i] == PlainMatch(chunk[i], bias)
  {
    seq(|chunk|, i requires 0 <= i < |chunk| => PlainMatch(chunk[i], bias))
  }

  // One escaped field: what it adds to its base, or None past 16 bits.
  method PatchField(pp: Prepass, e: nat, base: nat) returns (r: Option<nat>, next: nat)
    requires pp.Valid() && e + 3 <= pp.extrasLen && base <= 255
    ensures e <= next <= e + 3
    ensures r.Some? ==> base + r.value < 0x1_0000 && ReadEscape(pp.Extras()[e..], base) == Ok((base + r.value, next - e))
  {
    var v: nat := pp.memory[e];
    next := e + 1;
    if v == ESCAPE_CONT {
      v := v + Word(pp.memory[next], pp.memory[next + 1]);
      next := next + 2;
      if base + v > 0xFFFF { return None, next; }
    }
    r := Some(v);
  }

  // The escaped fields of one token; zero for a field that is not escaped.
  method PatchToken(pp: Prepass, t: byte, e: nat) returns (ok: bool, lit: nat, ml: nat, next: nat)
    requires pp.Valid() && e + 3 * Fields(t) <= pp.extrasLen
    ensures e <= next <= e + 3 * Fields(t)
    ensures ok ==> LitCode(t) + lit < 0x1_0000 && PlainMatch(t, pp.bias) + ml < 0x1_0000
    ensures ok ==> ReadLengths(t, pp.Extras()[e..], pp.bias) == Ok((LitCode(t) + lit, PlainMatch(t, pp.bias) + ml, next - e))
    ensures ok ==> (!LitEscaped(t) ==> lit == 0) && (!MatchEscaped(t) ==> ml == 0)
  {
    hide LitCode, MatchCode, ReadEscape;
    ok, lit, ml, next := true, 0, 0, e;
    if LitEscaped(t) {
      var v;
      v, next := PatchField(pp, next, ESCAPE_BASE_LIT);
      if v.None? { return false, 0, 0, next; }
      lit := v.value;
    }
    SliceSlice(pp.Extras(), e, next - e);
    if MatchEscaped(t) {
      var v;
      v, next := PatchField(pp, next, pp.bias + 15);
      if v.None? { return false, 0, 0, next; }
      ml := v.value;
    }
  }

  // Lane i of an array raised by v: the sum of the lanes rises with it.
  method Raise(a: array<u16>, at: nat, i: nat, v: nat, ghost was: seq<nat>)
    requires at + LANES <= a.Length && i < LANES && a[at..at + LANES] == was && was[i] + v < 0x1_0000
    modifies a
    ensures a[..at] == old(a[..at]) && a[at..at + LANES] == was[i := was[i] + v]
    ensures Sum(a[at..at + LANES]) == Sum(was) + v
  {
    hide Sum;
    assert was[i] == a[at + i];
    a[at + i] := a[at + i] + v;
    assert a[at..at + LANES] == was[i := was[i] + v];
    SumUpdate(was, i, was[i] + v);
  }

  ghost predicate Patched(pp: Prepass, chunk: seq<byte>, e0: nat, e: nat, i: nat, lits: seq<nat>, mls: seq<nat>)
    requires pp.Valid() && |chunk| == LANES && e0 <= pp.extrasLen
  {
    && i <= LANES && |lits| == |mls| == LANES && e0 <= e <= pp.extrasLen
    && lits[i..] == LitCodes(chunk)[i..] && mls[i..] == PlainMatches(chunk, pp.bias)[i..]
    && ReadFirst(chunk, pp.Extras()[e0..], pp.bias, i) == Some(Read(lits[..i], mls[..i], e - e0))
  }

  lemma PatchStarts(pp: Prepass, chunk: seq<byte>, e0: nat)
    requires pp.Valid() && |chunk| == LANES && e0 <= pp.extrasLen
    ensures Patched(pp, chunk, e0, e0, 0, LitCodes(chunk), PlainMatches(chunk, pp.bias))
  {
  }

  lemma PatchStep(pp: Prepass, chunk: seq<byte>, e0: nat, e: nat, next: nat, i: nat, lits: seq<nat>, mls: seq<nat>,
                  lit: nat, ml: nat)
    requires pp.Valid() && |chunk| == LANES && e0 <= pp.extrasLen && i < LANES
    requires Patched(pp, chunk, e0, e, i, lits, mls) && e <= next <= pp.extrasLen
    requires ReadLengths(chunk[i], pp.Extras()[e..], pp.bias)
      == Ok((LitCode(chunk[i]) + lit, PlainMatch(chunk[i], pp.bias) + ml, next - e))
    ensures lits[i] == LitCode(chunk[i]) && mls[i] == PlainMatch(chunk[i], pp.bias)
    ensures Patched(pp, chunk, e0, next, i + 1, lits[i := lits[i] + lit], mls[i := mls[i] + ml])
  {
    hide ReadLengths, LitCode, PlainMatch;
    assert lits[i..][0] == LitCodes(chunk)[i..][0] && mls[i..][0] == PlainMatches(chunk, pp.bias)[i..][0];
    var lits', mls' := lits[i := lits[i] + lit], mls[i := mls[i] + ml];
    SliceSlice(pp.Extras(), e0, e - e0);
    ReadLengthsLane(lits', i + 1);
    ReadLengthsLane(mls', i + 1);
    assert lits'[..i] == lits[..i] && mls'[..i] == mls[..i];
    assert lits'[i + 1..] == lits[i..][1..] && mls'[i + 1..] == mls[i..][1..];
  }

  // Some field continues: the plain lengths first, then the escaped lanes in order.
  method Patch(pp: Prepass, t: nat, e0: nat, ghost f: seq<nat>, fields: nat, litl: array<u16>, mll: array<u16>, at: nat)
    returns (r: Option<Totals>)
    requires pp.Valid() && t + LANES <= |pp.tokens| && e0 <= pp.extrasLen
    requires litl != mll && at + LANES <= litl.Length && at + LANES <= mll.Length
    requires f == FieldLanes(pp.tokens[t..t + LANES]) && fields == Before(f, LANES)
    modifies litl, mll
    ensures litl[..at] == old(litl[..at]) && mll[..at] == old(mll[..at])
    ensures r.Some? ==> Chunked(pp, t, e0, litl[at..at + LANES], mll[at..at + LANES], r.value)
  {
    hide ReadFirst, ReadLengths, Sum, Matches, ZeroCodes, Before, LitCode, PlainMatch, Fields, Patched, LitCodes, PlainMatches, FieldLanes;
    var chunk := pp.tokens[t..t + LANES];
    CodesFit(chunk, pp.bias);
    StoreLanes(litl, at, LitCodes(chunk));
    StoreLanes(mll, at, PlainMatches(chunk, pp.bias));
    NonNegative(LitCodes(chunk));
    NonNegative(PlainMatches(chunk, pp.bias));
    var ls: nat, ms: nat := Sum(LitCodes(chunk)), Sum(PlainMatches(chunk, pp.bias));
    var both := CountBoth(chunk);
    if e0 + 3 * (fields + both) > pp.extrasLen { return None; }
    PatchStarts(pp, chunk, e0);
    NothingBefore(f);
    var e: nat := e0;
    for i := 0 to LANES
      invariant litl[..at] == old(litl[..at]) && mll[..at] == old(mll[..at])
      invariant Patched(pp, chunk, e0, e, i, litl[at..at + LANES], mll[at..at + LANES])
      invariant ls == Sum(litl[at..at + LANES]) && ms == Sum(mll[at..at + LANES])
      invariant e0 <= e && e + 3 * (fields - Before(f, i)) <= pp.extrasLen
    {
      FieldLaneIs(chunk, i);
      BeforeStep(f, i);
      BeforeMonotone(f, i + 1, LANES);
      ghost var lits, mls := litl[at..at + LANES], mll[at..at + LANES];
      var ok, lit, ml, next := PatchToken(pp, chunk[i], e);
      if !ok { return None; }
      PatchStep(pp, chunk, e0, e, next, i, lits, mls, lit, ml);
      Raise(litl, at, i, lit, lits);
      Raise(mll, at, i, ml, mls);
      ls, ms, e := ls + lit, ms + ml, next;
    }
    PatchEnds(pp, t, e0, e, litl[at..at + LANES], mll[at..at + LANES]);
    return Some(Totals(ls, ms, LANES - ZeroCodes(chunk), e));
  }

  lemma PatchEnds(pp: Prepass, t: nat, e0: nat, e: nat, lits: seq<nat>, mls: seq<nat>)
    requires pp.Valid() && t + LANES <= |pp.tokens| && e0 <= pp.extrasLen
    requires Patched(pp, pp.tokens[t..t + LANES], e0, e, LANES, lits, mls)
    ensures e0 <= e <= pp.extrasLen && Matches(mls) == LANES - ZeroCodes(pp.tokens[t..t + LANES])
    ensures ReadFirst(pp.tokens[t..t + LANES], pp.Extras()[e0..], pp.bias, LANES) == Some(Read(lits, mls, e - e0))
  {
    hide ReadFirst, Matches, ZeroCodes;
    var chunk := pp.tokens[t..t + LANES];
    assert lits[..LANES] == lits && mls[..LANES] == mls && chunk[..LANES] == chunk;
    MatchCount(chunk, pp.Extras()[e0..], pp.bias, LANES);
  }

  lemma CodesFit(chunk: seq<byte>, bias: nat)
    requires bias <= 240
    ensures forall i :: 0 <= i < |chunk| ==> LitCodes(chunk)[i] < 0x1_0000 && PlainMatches(chunk, bias)[i] < 0x1_0000
  {
  }

  // Lanes with both fields escaped.
  function CountBoth(chunk: seq<byte>): nat {
    if chunk == [] then 0
    else CountBoth(chunk[..|chunk| - 1]) + Flag(LitEscaped(chunk[|chunk| - 1]) && MatchEscaped(chunk[|chunk| - 1]))
  }

  method Run(pp: Prepass, t: nat, e0: nat, litl: array<u16>, mll: array<u16>, at: nat) returns (r: Option<Totals>)
    requires pp.Valid() && t + LANES <= |pp.tokens| && e0 <= pp.extrasLen
    requires litl != mll && at + LANES <= litl.Length && at + LANES <= mll.Length
    modifies litl, mll
    ensures litl[..at] == old(litl[..at]) && mll[..at] == old(mll[..at])
    ensures r.Some? ==> Chunked(pp, t, e0, litl[at..at + LANES], mll[at..at + LANES], r.value)
  {
    hide ReadFirst, RunningFields, Fields, Continues, FieldLanes, Before, Chunked;
    var chunk := pp.tokens[t..t + LANES];
    if e0 + 64 > |pp.memory| { return None; }
    var f := FieldLanes(chunk);
    var p := RunningFields(f);
    RunningFieldsAre(f);
    BeforeBound(f, LANES);
    var fields := p[LANES - 1];
    if e0 + fields > pp.extrasLen { return None; }
    var x := SubtractLanes(p, f);
    StartsAre(f, p);
    var window := pp.memory[e0..e0 + 64];
    if AnyContinues(chunk, window, x) {
      r := Patch(pp, t, e0, f, fields, litl, mll, at);
    } else {
      var totals := Blend(pp, t, e0, f, x, fields, litl, mll, at);
      r := Some(totals);
    }
  }
}
