// src/neon_decompress.rs, the decoder: chunks whose totals fit are copied wild, with
// stores that run past their run's end; the rest goes token by token. Whatever the
// streams hold, the result is that of the reference decoder.

module VectorDecoder {
  import opened Common
  import opened ByteStrings
  import opened Tokens
  import opened VectorPrepass

  const WILD_MARGIN: nat := 96
  const SUPER: nat := 1024

  // ---------------------------------------------------------------- stores

  // Only the bytes from lo up to hi differ.
  ghost predicate OnlyWithin(b: seq<byte>, b': seq<byte>, lo: nat, hi: nat) {
    |b| == |b'| && forall i :: 0 <= i < |b| && !(lo <= i < hi) ==> b'[i] == b[i]
  }

  lemma OutsideKept(b: seq<byte>, b': seq<byte>, lo: nat, hi: nat, end: nat)
    requires OnlyWithin(b, b', lo, hi) && lo <= |b| && hi <= end <= |b|
    ensures b'[..lo] == b[..lo] && b'[end..] == b[end..]
  {
  }

  // A vector load from the literals and its store.
  method LoadStore(buffer: array<byte>, d: nat, literals: seq<byte>, s: nat, w: nat)
    requires d + w <= buffer.Length && s + w <= |literals|
    modifies buffer
    ensures OnlyWithin(old(buffer[..]), buffer[..], d, d + w)
    ensures forall i :: d <= i < d + w ==> buffer[i] == literals[s + i - d]
  {
    forall i | 0 <= i < w { buffer[d + i] := literals[s + i]; }
  }

  // A vector load from earlier output and its store.
  method Move(buffer: array<byte>, d: nat, dist: nat, w: nat)
    requires w <= dist <= d && d + w <= buffer.Length
    modifies buffer
    ensures OnlyWithin(old(buffer[..]), buffer[..], d, d + w)
    ensures forall i :: d <= i < d + w ==> buffer[i] == old(buffer[i - dist])
  {
    forall i | 0 <= i < w { buffer[d + i] := buffer[d + i - dist]; }
  }

  // ---------------------------------------------------------------- wild literal copies

  ghost predicate Laid(b: seq<byte>, literals: seq<byte>, at: nat, s: nat, k: nat) {
    at + k <= |b| && s + k <= |literals| && forall i :: at <= i < at + k ==> b[i] == literals[s + i - at]
  }

  method LayOne(buffer: array<byte>, literals: seq<byte>, at: nat, s: nat, k: nat)
    requires Laid(buffer[..], literals, at, s, k) && at + k + 32 <= buffer.Length && s + k + 32 <= |literals|
    modifies buffer
    ensures Laid(buffer[..], literals, at, s, k + 32)
    ensures OnlyWithin(old(buffer[..]), buffer[..], at + k, at + k + 32)
  {
    LoadStore(buffer, at + k, literals, s + k, 32);
  }

  // Stores of w bytes from k on until at least to are laid down.
  method Lay(buffer: array<byte>, literals: seq<byte>, at: nat, s: nat, w: nat, k: nat, to: nat) returns (ghost done: nat)
    requires Laid(buffer[..], literals, at, s, k) && w > 0
    requires at + to + w - 1 <= buffer.Length && s + to + w - 1 <= |literals|
    modifies buffer
    ensures k <= done && to <= done <= Max(k, to + w - 1) && Laid(buffer[..], literals, at, s, done)
    ensures OnlyWithin(old(buffer[..]), buffer[..], at + k, at + done)
  {
    var n := k;
    while n < to
      invariant k <= n <= Max(k, to + w - 1) && Laid(buffer[..], literals, at, s, n)
      invariant OnlyWithin(old(buffer[..]), buffer[..], at + k, at + n)
    {
      LoadStore(buffer, at + n, literals, s + n, w);
      n := n + w;
    }
    done := n;
  }

  lemma LaidIs(b: seq<byte>, b': seq<byte>, literals: seq<byte>, at: nat, s: nat, k: nat, lit: nat, hi: nat)
    requires Laid(b', literals, at, s, k) && lit <= k && OnlyWithin(b, b', at, hi)
    ensures b'[..at + lit] == b[..at] + literals[s..s + lit]
  {
  }

  // The literals of a run: 32 bytes at once, three more stores up to 128, then a loop.
  method RunLiterals(buffer: array<byte>, literals: seq<byte>, at: nat, s: nat, lit: nat)
    requires at + lit + WILD_MARGIN <= buffer.Length && s + lit + WILD_MARGIN <= |literals|
    modifies buffer
    ensures buffer[..at + lit] == old(buffer[..at]) + literals[s..s + lit]
    ensures OnlyWithin(old(buffer[..]), buffer[..], at, at + lit + WILD_MARGIN)
  {
    hide Laid;
    NothingLaid(buffer[..], literals, at, s);
    ghost var k := 32;
    LayOne(buffer, literals, at, s, 0);
    if lit > 32 {
      LayOne(buffer, literals, at, s, 32);
      LayOne(buffer, literals, at, s, 64);
      LayOne(buffer, literals, at, s, 96);
      k := 128;
      if lit > 128 { k := Lay(buffer, literals, at, s, 32, 128, lit); }
    }
    LaidIs(old(buffer[..]), buffer[..], literals, at, s, k, lit, at + lit + WILD_MARGIN);
    assert buffer[..][..at + lit] == buffer[..at + lit] && old(buffer[..])[..at] == old(buffer[..at]);
  }

  lemma NothingLaid(b: seq<byte>, literals: seq<byte>, at: nat, s: nat)
    requires at <= |b| && s <= |literals|
    ensures Laid(b, literals, at, s, 0)
  {
  }

  // ---------------------------------------------------------------- wild match copies

  // The k bytes from at on repeat the offset bytes before at, over and over.
  ghost predicate Pattern(b: seq<byte>, at: nat, offset: nat, k: nat) {
    0 < offset <= at && at + k <= |b| && forall i :: at <= i < at + k ==> b[i] == b[at - offset + (i - at) % offset]
  }

  lemma ModShift(x: int, m: int, n: nat)
    requires n > 0
    ensures (x - m * n) % n == x % n
  {
    var q := x / n;
    assert x == n * q + x % n;
    assert x - m * n == (q - m) * n + x % n;
    DivModIs(x - m * n, n, q - m, x % n);
  }

  // Copying from any multiple of the period back carries the pattern on.
  lemma PatternFurther(b: seq<byte>, b': seq<byte>, at: nat, offset: nat, k: nat, m: nat, dist: nat, w: nat)
    requires Pattern(b, at, offset, k) && OnlyWithin(b, b', at + k, at + k + w) && at + k + w <= |b|
    requires dist == m * offset && w <= dist <= k + offset
    requires forall i :: at + k <= i < at + k + w ==> b'[i] == b[i - dist]
    ensures Pattern(b', at, offset, k + w)
  {
    forall i | at <= i < at + (k + w) ensures b'[i] == b'[at - offset + (i - at) % offset] {
      var base := at - offset + (i - at) % offset;
      assert b'[base] == b[base];
      if i >= at + k {
        var j := i - dist;
        ModShift(i - at, m, offset);
        if j < at {
          DivModIs(j - at, offset, -1, j - at + offset);
          assert j == base;
        }
      }
    }
  }

  lemma NoPattern(b: seq<byte>, at: nat, offset: nat)
    requires 0 < offset <= at <= |b|
    ensures Pattern(b, at, offset, 0)
  {
  }

  method StrideOne(buffer: array<byte>, at: nat, offset: nat, ghost m: nat, dist: nat, w: nat, k: nat)
    requires Pattern(buffer[..], at, offset, k) && dist == m * offset && 0 < w <= dist <= k + offset
    requires at + k + w <= buffer.Length
    modifies buffer
    ensures Pattern(buffer[..], at, offset, k + w)
    ensures OnlyWithin(old(buffer[..]), buffer[..], at + k, at + k + w)
  {
    hide Pattern;
    PatternBase(buffer[..], at, offset, k);
    ghost var b := buffer[..];
    Move(buffer, at + k, dist, w);
    PatternFurther(b, buffer[..], at, offset, k, m, dist, w);
  }

  // Stores of w bytes, each from dist back, from k on until at least to.
  method Stride(buffer: array<byte>, at: nat, offset: nat, ghost m: nat, dist: nat, w: nat, k: nat, to: nat)
    returns (ghost done: nat)
    requires Pattern(buffer[..], at, offset, k) && dist == m * offset && 0 < w <= dist <= k + offset
    requires at + to + w - 1 <= buffer.Length
    modifies buffer
    ensures k <= done && to <= done <= Max(k, to + w - 1) && Pattern(buffer[..], at, offset, done)
    ensures OnlyWithin(old(buffer[..]), buffer[..], at + k, at + done)
  {
    hide Pattern;
    var n := k;
    while n < to
      invariant k <= n <= Max(k, to + w - 1) && Pattern(buffer[..], at, offset, n)
      invariant OnlyWithin(old(buffer[..]), buffer[..], at + k, at + n)
    {
      StrideOne(buffer, at, offset, m, dist, w, n);
      n := n + w;
    }
    done := n;
  }

  lemma PatternBase(b: seq<byte>, at: nat, offset: nat, k: nat)
    requires Pattern(b, at, offset, k)
    ensures 0 < offset <= at && at + k <= |b|
  {
  }

  // A pattern at least as long as the match is the byte-by-byte copy.
  lemma PatternRepeats(b: seq<byte>, b': seq<byte>, at: nat, offset: nat, k: nat, ml: nat, hi: nat)
    requires Pattern(b', at, offset, k) && ml <= k && OnlyWithin(b, b', at, hi)
    ensures 0 < offset <= at && at + ml <= |b'| && b'[..at + ml] == Repeat(b[..at], offset, ml)
  {
    hide Repeat;
    forall i | at <= i < at + ml ensures b'[i] == b'[i - offset] {
      if i - offset >= at {
        var j := i - offset;
        ModShift(i - at, 1, offset);
        assert (j - at) % offset == (i - at) % offset;
        assert b'[j] == b'[at - offset + (j - at) % offset];
      } else {
        DivModIs(i - at, offset, 0, i - at);
      }
    }
    RepeatExtends(b', at, offset, ml);
    assert b'[..at] == b[..at];
  }

  // short_match: offsets under 32.
  method ShortMatch(buffer: array<byte>, at: nat, offset: nat, ml: nat) returns (ghost done: nat)
    requires 0 < offset <= at && offset < 32 && ml > 0 && at + ml + 16 <= buffer.Length
    modifies buffer
    ensures ml <= done <= ml + 16 && Pattern(buffer[..], at, offset, done)
    ensures OnlyWithin(old(buffer[..]), buffer[..], at, at + done)
  {
    hide Pattern;
    NoPattern(buffer[..], at, offset);
    if offset >= 16 {
      done := Stride(buffer, at, offset, 1, offset, 16, 0, ml);
    } else if offset >= 8 {
      done := Stride(buffer, at, offset, 1, offset, 8, 0, ml);
    } else {
      for k := 0 to 8
        invariant Pattern(buffer[..], at, offset, k) && OnlyWithin(old(buffer[..]), buffer[..], at, at + k)
      {
        StrideOne(buffer, at, offset, 1, offset, 1, k);
      }
      var periods := (8 + offset - 1) / offset;
      StrideReaches(offset, periods);
      done := Stride(buffer, at, offset, periods, offset * periods, 8, 8, ml);
    }
  }

  // The stride is the least multiple of the period that is at least eight.
  lemma StrideReaches(offset: nat, periods: nat)
    requires 0 < offset < 8 && periods == (8 + offset - 1) / offset
    ensures 8 <= offset * periods < 8 + offset && offset * periods == periods * offset
  {
    assert 8 + offset - 1 == offset * periods + (8 + offset - 1) % offset;
  }

  // The match of a run.
  method RunMatch(buffer: array<byte>, at: nat, offset: nat, ml: nat)
    requires 0 < offset <= at && ml > 0 && at + ml + WILD_MARGIN <= buffer.Length
    modifies buffer
    ensures buffer[..at + ml] == Repeat(old(buffer[..at]), offset, ml)
    ensures OnlyWithin(old(buffer[..]), buffer[..], at, at + ml + WILD_MARGIN)
  {
    hide Pattern, Repeat;
    ghost var k;
    if offset >= 32 {
      NoPattern(buffer[..], at, offset);
      StrideOne(buffer, at, offset, 1, offset, 32, 0);
      k := 32;
      if ml > 32 {
        StrideOne(buffer, at, offset, 1, offset, 32, 32);
        StrideOne(buffer, at, offset, 1, offset, 32, 64);
        StrideOne(buffer, at, offset, 1, offset, 32, 96);
        k := 128;
        if ml > 128 { k := Stride(buffer, at, offset, 1, offset, 32, 128, ml); }
      }
    } else {
      k := ShortMatch(buffer, at, offset, ml);
    }
    PatternRepeats(old(buffer[..]), buffer[..], at, offset, k, ml, at + ml + WILD_MARGIN);
    assert buffer[..][..at + ml] == buffer[..at + ml] && old(buffer[..])[..at] == old(buffer[..at]);
  }

  // ---------------------------------------------------------------- one token's meaning, with its lengths known

  lemma TokenStep(s: Streams, ti: nat, oi: nat, ei: nat, li: nat, out: seq<byte>, end: nat, bias: nat,
                  lit: nat, ml: nat, used: nat)
    requires ti < |s.tokens| && oi <= |s.offsets| && ei + used <= |s.extras| && li + lit <= |s.literals|
    requires |out| + lit + ml <= end
    requires ReadLengths(s.tokens[ti], s.extras[ei..], bias) == Ok((lit, ml, used))
    ensures DecodeToken(Behind(s, ti, oi, ei, li), out, end, bias)
      == DecodeMatch(s.tokens[ti], Behind(s, ti + 1, oi, ei + used, li + lit), out + s.literals[li..li + lit], ml)
  {
    hide ReadLengths, DecodeMatch;
    var rest := Behind(s, ti, oi, ei, li);
    assert rest.tokens[0] == s.tokens[ti] && rest.tokens[1..] == s.tokens[ti + 1..];
    SliceSlice(s.extras, ei, used);
    SliceSlice(s.literals, li, lit);
    assert rest.literals[..lit] == s.literals[li..li + lit];
  }

  function OffsetAt(s: Streams, t: byte, oi: nat): nat
    requires oi + 2 <= |s.offsets|
  {
    Word(s.offsets[oi], s.offsets[oi + 1]) + 65536 * OffHi(t)
  }

  lemma MatchStep(s: Streams, t: byte, ti: nat, oi: nat, ei: nat, li: nat, out: seq<byte>, ml: nat)
    requires ti <= |s.tokens| && oi + 2 <= |s.offsets| && ei <= |s.extras| && li <= |s.literals| && ml > 0
    ensures var offset := OffsetAt(s, t, oi);
      DecodeMatch(t, Behind(s, ti, oi, ei, li), out, ml) ==
      if offset == 0 || offset > |out| then Err(OffsetOutOfBounds(offset, |out|))
      else Ok((Repeat(out, offset, ml), Behind(s, ti, oi + 2, ei, li)))
  {
    hide Repeat, OffHi;
    SliceSlice(s.offsets, oi, 2);
  }

  // What a decoding step did, against the reference: the error it found, or the output
  // and the streams behind it.
  ghost predicate Stepped(goal: Result<(seq<byte>, Streams)>, r: Result<(nat, nat, nat)>, s: Streams, ti: nat, ei: nat,
                          b: seq<byte>)
  {
    match goal
    case Err(e) => r == Err(e)
    case Ok((out, rest)) =>
      && r.Ok? && r.value.0 <= |b| && b[..r.value.0] == out
      && ti <= |s.tokens| && ei <= |s.extras| && r.value.1 <= |s.literals| && r.value.2 <= |s.offsets|
      && rest == Behind(s, ti, r.value.2, ei, r.value.1)
  }

  // One token of an accepted chunk: no check but the offset's.
  method CopyToken(s: Streams, ti: nat, oi: nat, ghost ei: nat, li: nat, lit: nat, ml: nat, ghost used: nat,
                   buffer: array<byte>, at: nat, end: nat, ghost bias: nat)
    returns (r: Result<(nat, nat, nat)>)
    requires ti < |s.tokens| && oi <= |s.offsets| && ei + used <= |s.extras|
    requires ReadLengths(s.tokens[ti], s.extras[ei..], bias) == Ok((lit, ml, used))
    requires at + lit + ml + WILD_MARGIN <= end <= buffer.Length && li + lit + WILD_MARGIN <= |s.literals|
    requires ml > 0 ==> oi + 2 <= |s.offsets|
    modifies buffer
    ensures Stepped(DecodeToken(Behind(s, ti, oi, ei, li), old(buffer[..at]), end, bias), r, s, ti + 1, ei + used, buffer[..])
    ensures OnlyWithin(old(buffer[..]), buffer[..], at, end)
    ensures r.Ok? ==> r.value == (at + lit + ml, li + lit, oi + (if ml > 0 then 2 else 0))
  {
    hide ReadLengths, DecodeToken, DecodeMatch, Repeat, OnlyWithin, OffsetAt, Behind;
    var t := s.tokens[ti];
    ghost var b := buffer[..];
    TokenStep(s, ti, oi, ei, li, buffer[..at], end, bias, lit, ml, used);
    RunLiterals(buffer, s.literals, at, li, lit);
    var mid := at + lit;
    ghost var b1 := buffer[..];
    ghost var out := buffer[..mid];
    OnlyWider(b, b1, at, mid + WILD_MARGIN, at, end);
    if ml == 0 {
      NoMatch(t, Behind(s, ti + 1, oi, ei + used, li + lit), out);
      return Ok((mid, li + lit, oi));
    }
    var offset := OffsetAt(s, t, oi);
    MatchStep(s, t, ti + 1, oi, ei + used, li + lit, out, ml);
    if offset == 0 || offset > mid { return Err(OffsetOutOfBounds(offset, mid)); }
    RunMatch(buffer, mid, offset, ml);
    OnlyWider(b1, buffer[..], mid, mid + ml + WILD_MARGIN, at, end);
    OnlyTwice(b, b1, buffer[..], at, end);
    return Ok((mid + ml, li + lit, oi + 2));
  }

  lemma OnlyWider(b: seq<byte>, b': seq<byte>, lo: nat, hi: nat, lo': nat, hi': nat)
    requires OnlyWithin(b, b', lo, hi) && lo' <= lo && hi <= hi'
    ensures OnlyWithin(b, b', lo', hi')
  {
  }

  lemma OnlyTwice(b: seq<byte>, b1: seq<byte>, b2: seq<byte>, lo: nat, hi: nat)
    requires OnlyWithin(b, b1, lo, hi) && OnlyWithin(b1, b2, lo, hi)
    ensures OnlyWithin(b, b2, lo, hi)
  {
  }

  lemma NoMatch(t: byte, rest: Streams, out: seq<byte>)
    ensures DecodeMatch(t, rest, out, 0) == Ok((out, rest))
  {
  }

  // ---------------------------------------------------------------- a run of tokens

  lemma {:induction false} ReadSplit(tokens: seq<byte>, extras: seq<byte>, bias: nat, n: nat, k: nat)
    requires n + k <= |tokens| && ReadFirst(tokens, extras, bias, n).Some?
    requires ReadFirst(tokens[n..], extras[ReadFirst(tokens, extras, bias, n).value.used..], bias, k).Some?
    ensures var a := ReadFirst(tokens, extras, bias, n).value;
      var b := ReadFirst(tokens[n..], extras[a.used..], bias, k).value;
      ReadFirst(tokens, extras, bias, n + k) == Some(Read(a.lits + b.lits, a.mls + b.mls, a.used + b.used))
  {
    hide ReadLengths;
    var a := ReadFirst(tokens, extras, bias, n).value;
    if k > 0 {
      ReadSplit(tokens, extras, bias, n, k - 1);
      var b := ReadFirst(tokens[n..], extras[a.used..], bias, k - 1).value;
      assert tokens[n..][k - 1] == tokens[n + k - 1];
      var c := ReadFirst(tokens[n..], extras[a.used..], bias, k).value;
      SliceSlice(extras, a.used, b.used);
      Assoc(a.lits, b.lits, [c.lits[k - 1]]);
      Assoc(a.mls, b.mls, [c.mls[k - 1]]);
    } else {
      assert a.lits + [] == a.lits && a.mls + [] == a.mls;
    }
  }

  // Token i of the ones read, by itself.
  lemma {:induction false} ReadAt(tokens: seq<byte>, extras: seq<byte>, bias: nat, n: nat, i: nat)
    requires i < n <= |tokens| && ReadFirst(tokens, extras, bias, n).Some?
    ensures ReadFirst(tokens, extras, bias, i).Some? && ReadFirst(tokens, extras, bias, i + 1).Some?
    ensures var all := ReadFirst(tokens, extras, bias, n).value;
      var a, b := ReadFirst(tokens, extras, bias, i).value, ReadFirst(tokens, extras, bias, i + 1).value;
      && a.used <= b.used
      && ReadLengths(tokens[i], extras[a.used..], bias) == Ok((all.lits[i], all.mls[i], b.used - a.used))
    decreases n
  {
    hide ReadLengths;
    if i < n - 1 { ReadAt(tokens, extras, bias, n - 1, i); }
  }

  // The room the rest of a run still needs.
  ghost predicate Room(lits: seq<nat>, mls: seq<nat>, at: nat, li: nat, oi: nat, end: nat, literals: nat, offsets: nat) {
    && at + Sum(lits) + Sum(mls) + WILD_MARGIN <= end
    && li + Sum(lits) + WILD_MARGIN <= literals
    && oi + 2 * Matches(mls) <= offsets
  }

  lemma RoomStep(lits: seq<nat>, mls: seq<nat>, i: nat, at: nat, li: nat, oi: nat, end: nat, literals: nat, offsets: nat)
    requires |lits| == |mls| && i < |lits| && Room(lits[i..], mls[i..], at, li, oi, end, literals, offsets)
    ensures at + lits[i] + mls[i] + WILD_MARGIN <= end && li + lits[i] + WILD_MARGIN <= literals
    ensures mls[i] > 0 ==> oi + 2 <= offsets
    ensures Room(lits[i + 1..], mls[i + 1..], at + lits[i] + mls[i], li + lits[i], oi + (if mls[i] > 0 then 2 else 0), end,
                 literals, offsets)
  {
    assert lits[i..][1..] == lits[i + 1..] && mls[i..][1..] == mls[i + 1..];
    NonNegative(lits[i + 1..]);
    NonNegative(mls[i + 1..]);
  }

  // Where the reference decoder stands after part of a run.
  ghost predicate Reached(s: Streams, ti: nat, oi: nat, ei: nat, li: nat, out: seq<byte>, end: nat, bias: nat,
                          goal: Result<seq<byte>>)
  {
    && ti <= |s.tokens| && oi <= |s.offsets| && ei <= |s.extras| && li <= |s.literals| && |out| <= end
    && Decode(Behind(s, ti, oi, ei, li), out, end, bias) == goal
  }

  lemma ReachedStep(s: Streams, ti: nat, oi: nat, ei: nat, li: nat, out: seq<byte>, end: nat, bias: nat,
                    goal: Result<seq<byte>>, r: Result<(nat, nat, nat)>, ei': nat, b: seq<byte>)
    requires Reached(s, ti, oi, ei, li, out, end, bias, goal) && ti < |s.tokens|
    requires Stepped(DecodeToken(Behind(s, ti, oi, ei, li), out, end, bias), r, s, ti + 1, ei', b)
    ensures r.Err? ==> goal == Err(r.error)
    ensures r.Ok? ==> r.value.0 <= |b| && Reached(s, ti + 1, r.value.2, ei', r.value.1, b[..r.value.0], end, bias, goal)
  {
    hide DecodeToken;
  }

  method CopyRun(s: Streams, ti: nat, oi: nat, ghost ei: nat, li: nat, litl: array<u16>, mll: array<u16>, n: nat,
                 ghost used: nat, buffer: array<byte>, at: nat, end: nat, ghost bias: nat, ghost goal: Result<seq<byte>>)
    returns (r: Result<(nat, nat, nat)>)
    requires n <= litl.Length && n <= mll.Length && end <= buffer.Length && at <= end
    requires ti + n <= |s.tokens| && ei <= |s.extras|
    requires ReadFirst(s.tokens[ti..], s.extras[ei..], bias, n) == Some(Read(litl[..n], mll[..n], used))
    requires Room(litl[..n], mll[..n], at, li, oi, end, |s.literals|, |s.offsets|)
    requires Reached(s, ti, oi, ei, li, buffer[..at], end, bias, goal)
    modifies buffer
    ensures OnlyWithin(old(buffer[..]), buffer[..], at, end)
    ensures r.Err? ==> goal == Err(r.error)
    ensures r.Ok? ==> at <= r.value.0 <= end
    ensures r.Ok? ==> Reached(s, ti + n, r.value.2, ei + used, r.value.1, buffer[..r.value.0], end, bias, goal)
  {
    hide ReadFirst, ReadLengths, DecodeToken, Behind, Reached, Stepped, Room, OnlyWithin;
    ghost var lits, mls, tokens, extras := litl[..n], mll[..n], s.tokens[ti..], s.extras[ei..];
    var at', li', oi' := at, li, oi;
    ReadNone(tokens, extras, bias);
    SameBuffer(buffer[..], at, end);
    for i := 0 to n
      invariant litl[..n] == lits && mll[..n] == mls && at <= at' <= end
      invariant ReadFirst(tokens, extras, bias, i).Some?
      invariant OnlyWithin(old(buffer[..]), buffer[..], at, end)
      invariant Room(lits[i..], mls[i..], at', li', oi', end, |s.literals|, |s.offsets|)
      invariant Reached(s, ti + i, oi', ei + ReadFirst(tokens, extras, bias, i).value.used, li', buffer[..at'], end, bias, goal)
    {
      ReadAt(tokens, extras, bias, n, i);
      ghost var a, b := ReadFirst(tokens, extras, bias, i).value, ReadFirst(tokens, extras, bias, i + 1).value;
      SliceSlice(s.extras, ei, a.used);
      RoomStep(lits, mls, i, at', li', oi', end, |s.literals|, |s.offsets|);
      ReachedBounds(s, ti + i, oi', ei + a.used, li', buffer[..at'], end, bias, goal);
      assert litl[i] == lits[i] && mll[i] == mls[i];
      ghost var was, out := buffer[..], buffer[..at'];
      var step := CopyToken(s, ti + i, oi', ei + a.used, li', litl[i], mll[i], b.used - a.used, buffer, at', end, bias);
      OnlyWider(was, buffer[..], at', end, at, end);
      OnlyTwice(old(buffer[..]), was, buffer[..], at, end);
      ReachedStep(s, ti + i, oi', ei + a.used, li', out, end, bias, goal, step, ei + b.used, buffer[..]);
      if step.Err? { return Err(step.error); }
      at', li', oi' := step.value.0, step.value.1, step.value.2;
      assert buffer[..][..at'] == buffer[..at'];
    }
    return Ok((at', li', oi'));
  }

  lemma ReadNone(tokens: seq<byte>, extras: seq<byte>, bias: nat)
    ensures ReadFirst(tokens, extras, bias, 0) == Some(Read([], [], 0))
  {
  }

  lemma SameBuffer(b: seq<byte>, lo: nat, hi: nat)
    ensures OnlyWithin(b, b, lo, hi)
  {
  }

  lemma ReachedBounds(s: Streams, ti: nat, oi: nat, ei: nat, li: nat, out: seq<byte>, end: nat, bias: nat,
                      goal: Result<seq<byte>>)
    requires Reached(s, ti, oi, ei, li, out, end, bias, goal)
    ensures ti <= |s.tokens| && oi <= |s.offsets| && ei <= |s.extras| && li <= |s.literals| && |out| <= end
  {
  }

  // ---------------------------------------------------------------- the careful step

  // The decode table's entry for a token byte.
  datatype Entry = Entry(lit: nat, ml: nat, litEscape: bool, matchEscape: bool, hi: nat)

  function TokenEntry(t: byte, bias: nat): Entry {
    var lc, mc, ow := t % 8, t / 8 % 16, t / 128;
    Entry(if lc == LIT_CODE_ESCAPE then 0 else lc, if mc == MATCH_CODE_ESCAPE || mc == 0 then 0 else mc + bias,
          lc == LIT_CODE_ESCAPE, mc == MATCH_CODE_ESCAPE, if mc == 0 then 0 else ow)
  }

  method TableLengths(t: byte, extras: seq<byte>, at: nat, bias: nat) returns (r: Result<(nat, nat)>, next: nat)
    requires at <= |extras|
    ensures at <= next <= |extras|
    ensures match ReadLengths(t, extras[at..], bias)
      case Err(e) => r == Err(e)
      case Ok((litLen, matchLen, used)) => r == Ok((litLen, matchLen)) && next == at + used
  {
    hide ReadEscape;
    var entry := TokenEntry(t, bias);
    var lit, ml := entry.lit, entry.ml;
    next := at;
    if entry.litEscape {
      var v;
      v, next := ReadEscapeAt(extras, next, ESCAPE_BASE_LIT);
      if v.Err? { return Err(v.error), next; }
      lit := v.value;
    }
    SliceSlice(extras, at, next - at);
    if entry.matchEscape {
      var v;
      v, next := ReadEscapeAt(extras, next, bias + 15);
      if v.Err? { return Err(v.error), next; }
      ml := v.value;
    }
    return Ok((lit, ml)), next;
  }

  method CarefulLiterals(buffer: array<byte>, literals: seq<byte>, at: nat, s: nat, lit: nat, end: nat)
    requires at + lit <= end <= buffer.Length && s + lit <= |literals| && lit > 0
    modifies buffer
    ensures buffer[..at + lit] == old(buffer[..at]) + literals[s..s + lit]
    ensures OnlyWithin(old(buffer[..]), buffer[..], at, end)
  {
    hide Laid;
    NothingLaid(buffer[..], literals, at, s);
    ghost var k;
    if s + lit + 32 <= |literals| && end - at >= lit + 32 {
      k := Lay(buffer, literals, at, s, 32, 0, lit);
    } else {
      k := Lay(buffer, literals, at, s, 1, 0, lit);
    }
    LaidIs(old(buffer[..]), buffer[..], literals, at, s, k, lit, end);
    assert buffer[..][..at + lit] == buffer[..at + lit] && old(buffer[..])[..at] == old(buffer[..at]);
  }

  method CarefulMatch(buffer: array<byte>, at: nat, offset: nat, ml: nat, end: nat)
    requires 0 < offset <= at && ml > 0 && at + ml <= end <= buffer.Length
    modifies buffer
    ensures buffer[..at + ml] == Repeat(old(buffer[..at]), offset, ml)
    ensures OnlyWithin(old(buffer[..]), buffer[..], at, end)
  {
    hide Pattern, Repeat;
    NoPattern(buffer[..], at, offset);
    var room := end - at;
    ghost var k;
    if room >= ml + 32 && offset >= 32 {
      k := Stride(buffer, at, offset, 1, offset, 32, 0, ml);
    } else if room >= ml + 16 && offset >= 16 {
      k := Stride(buffer, at, offset, 1, offset, 16, 0, ml);
    } else if room >= ml + 8 && offset >= 8 {
      k := Stride(buffer, at, offset, 1, offset, 8, 0, ml);
    } else {
      k := Stride(buffer, at, offset, 1, offset, 1, 0, ml);
    }
    PatternRepeats(old(buffer[..]), buffer[..], at, offset, k, ml, end);
    assert buffer[..][..at + ml] == buffer[..at + ml] && old(buffer[..])[..at] == old(buffer[..at]);
  }

  method CarefulToken(s: Streams, ti: nat, oi: nat, ei: nat, li: nat, buffer: array<byte>, at: nat, end: nat, bias: nat)
    returns (r: Result<(nat, nat, nat)>, next: nat)
    requires ti < |s.tokens| && oi <= |s.offsets| && ei <= |s.extras| && li <= |s.literals|
    requires at <= end <= buffer.Length
    modifies buffer
    ensures Stepped(DecodeToken(Behind(s, ti, oi, ei, li), old(buffer[..at]), end, bias), r, s, ti + 1, next, buffer[..])
    ensures OnlyWithin(old(buffer[..]), buffer[..], at, end)
    ensures r.Ok? ==> at <= r.value.0 <= end
  {
    hide ReadLengths, DecodeToken, DecodeMatch, Repeat, OnlyWithin, OffsetAt, Behind;
    var t := s.tokens[ti];
    ghost var b := buffer[..];
    SameBuffer(b, at, end);
    var lengths;
    lengths, next := TableLengths(t, s.extras, ei, bias);
    LengthsFail(s, ti, oi, ei, li, buffer[..at], end, bias);
    if lengths.Err? { return Err(lengths.error), next; }
    var lit, ml := lengths.value.0, lengths.value.1;
    if lit + ml > end - at { return Err(ExceedsBlock), next; }
    if lit > 0 && li + lit > |s.literals| { return Err(LiteralOverrun), next; }
    TokenStep(s, ti, oi, ei, li, buffer[..at], end, bias, lit, ml, next - ei);
    if lit > 0 { CarefulLiterals(buffer, s.literals, at, li, lit, end); }
    var mid := at + lit;
    ghost var b1 := buffer[..];
    ghost var out := buffer[..mid];
    assert out == old(buffer[..at]) + s.literals[li..li + lit];
    if ml == 0 {
      NoMatch(t, Behind(s, ti + 1, oi, next, li + lit), out);
      return Ok((mid, li + lit, oi)), next;
    }
    NoOffset(s, t, ti + 1, oi, next, li + lit, out, ml);
    if oi + 2 > |s.offsets| { return Err(InsufficientOffsets), next; }
    var offset := OffsetAt(s, t, oi);
    MatchStep(s, t, ti + 1, oi, next, li + lit, out, ml);
    if offset == 0 || offset > mid { return Err(OffsetOutOfBounds(offset, mid)), next; }
    CarefulMatch(buffer, mid, offset, ml, end);
    OnlyWider(b1, buffer[..], mid, end, at, end);
    OnlyTwice(b, b1, buffer[..], at, end);
    return Ok((mid + ml, li + lit, oi + 2)), next;
  }

  lemma LengthsFail(s: Streams, ti: nat, oi: nat, ei: nat, li: nat, out: seq<byte>, end: nat, bias: nat)
    requires ti < |s.tokens| && oi <= |s.offsets| && ei <= |s.extras| && li <= |s.literals| && |out| <= end
    ensures match ReadLengths(s.tokens[ti], s.extras[ei..], bias)
      case Err(e) => DecodeToken(Behind(s, ti, oi, ei, li), out, end, bias) == Err(e)
      case Ok((lit, ml, used)) =>
        && (lit + ml > end - |out| ==> DecodeToken(Behind(s, ti, oi, ei, li), out, end, bias) == Err(ExceedsBlock))
        && (lit + ml <= end - |out| && li + lit > |s.literals| ==>
              DecodeToken(Behind(s, ti, oi, ei, li), out, end, bias) == Err(LiteralOverrun))
  {
    hide ReadLengths, DecodeMatch;
    var rest := Behind(s, ti, oi, ei, li);
    assert rest.tokens[0] == s.tokens[ti];
  }

  lemma NoOffset(s: Streams, t: byte, ti: nat, oi: nat, ei: nat, li: nat, out: seq<byte>, ml: nat)
    requires ti <= |s.tokens| && oi <= |s.offsets| && ei <= |s.extras| && li <= |s.literals| && ml > 0
    ensures oi + 2 > |s.offsets| ==> DecodeMatch(t, Behind(s, ti, oi, ei, li), out, ml) == Err(InsufficientOffsets)
  {
  }

  // ---------------------------------------------------------------- pass 1

  lemma {:induction false} ReadPrefix(tokens: seq<byte>, m: nat, extras: seq<byte>, bias: nat, n: nat)
    requires n <= m <= |tokens|
    ensures ReadFirst(tokens[..m], extras, bias, n) == ReadFirst(tokens, extras, bias, n)
  {
    hide ReadLengths;
    if n > 0 { ReadPrefix(tokens, m, extras, bias, n - 1); }
  }

  // One more chunk behind n tokens.
  lemma ChunkReads(pp: Prepass, ti: nat, ei: nat, n: nat, e: nat, lits: seq<nat>, mls: seq<nat>, lits': seq<nat>, mls': seq<nat>,
                   c: Totals)
    requires pp.Valid() && ti + n + LANES <= |pp.tokens| && ei <= e <= pp.extrasLen
    requires ReadFirst(pp.tokens[ti..], pp.Extras()[ei..], pp.bias, n) == Some(Read(lits, mls, e - ei))
    requires Chunked(pp, ti + n, e, lits', mls', c)
    ensures e <= c.e <= pp.extrasLen
    ensures ReadFirst(pp.tokens[ti..], pp.Extras()[ei..], pp.bias, n + LANES)
      == Some(Read(lits + lits', mls + mls', c.e - ei))
    ensures Sum(lits + lits') == Sum(lits) + c.lits && Sum(mls + mls') == Sum(mls) + c.mls
    ensures Matches(mls + mls') == Matches(mls) + c.matches
  {
    hide ReadFirst, Sum, Matches;
    var tokens, extras := pp.tokens[ti..], pp.Extras()[ei..];
    assert tokens[n..][..LANES] == pp.tokens[ti + n..ti + n + LANES];
    SliceSlice(pp.Extras(), ei, e - ei);
    ReadPrefix(tokens[n..], LANES, extras[e - ei..], pp.bias, LANES);
    ReadSplit(tokens, extras, pp.bias, n, LANES);
    SumAppend(lits, lits');
    SumAppend(mls, mls');
    MatchesAppend(mls, mls');
  }

  method PassOne(pp: Prepass, ti: nat, ei: nat, litl: array<u16>, mll: array<u16>, at: nat, li: nat, oi: nat, end: nat,
                 literals: nat, offsets: nat)
    returns (n: nat, e: nat)
    requires pp.Valid() && ti <= |pp.tokens| && ei <= pp.extrasLen && at <= end && li <= literals
    requires litl != mll && litl.Length == mll.Length == SUPER
    modifies litl, mll
    ensures n <= SUPER && ti + n <= |pp.tokens| && ei <= e <= pp.extrasLen
    ensures ReadFirst(pp.tokens[ti..], pp.Extras()[ei..], pp.bias, n) == Some(Read(litl[..n], mll[..n], e - ei))
    ensures n > 0 ==> Room(litl[..n], mll[..n], at, li, oi, end, literals, offsets)
  {
    hide ReadFirst, Sum, Matches, Chunked;
    var remaining, litRoom := end - at, literals - li;
    var ls, ms, nm := 0, 0, 0;
    n, e := 0, ei;
    ReadNone(pp.tokens[ti..], pp.Extras()[ei..], pp.bias);
    NoSums();
    while n + LANES <= SUPER && ti + n + LANES <= |pp.tokens|
      invariant n <= SUPER && ti + n <= |pp.tokens| && ei <= e <= pp.extrasLen
      invariant ReadFirst(pp.tokens[ti..], pp.Extras()[ei..], pp.bias, n) == Some(Read(litl[..n], mll[..n], e - ei))
      invariant ls == Sum(litl[..n]) && ms == Sum(mll[..n]) && nm == Matches(mll[..n])
      invariant n > 0 ==> Room(litl[..n], mll[..n], at, li, oi, end, literals, offsets)
      decreases SUPER - n
    {
      ghost var lits, mls := litl[..n], mll[..n];
      var c := Run(pp, ti + n, e, litl, mll, n);
      if c.None? { break; }
      var k := c.value;
      ChunkReads(pp, ti, ei, n, e, lits, mls, litl[n..n + LANES], mll[n..n + LANES], k);
      if ls + k.lits + ms + k.mls + WILD_MARGIN > remaining || ls + k.lits + WILD_MARGIN > litRoom
        || oi + (nm + k.matches) * 2 > offsets {
        break;
      }
      assert litl[..n + LANES] == lits + litl[n..n + LANES] && mll[..n + LANES] == mls + mll[n..n + LANES];
      ls, ms, nm, e, n := ls + k.lits, ms + k.mls, nm + k.matches, k.e, n + LANES;
    }
  }

  lemma NoSums()
    ensures Sum([]) == 0 && Matches([]) == 0
  {
  }

  // ---------------------------------------------------------------- the decoder

  // The same contract as the reference decoder's. The escape bytes are readable for a
  // while behind their end, as far as memory goes.
  method Decompress(s: Streams, memory: seq<byte>, buffer: array<byte>, start: nat, dstLen: nat, len: nat, minMatch: nat)
    returns (r: Result<nat>)
    requires start + dstLen <= buffer.Length && 1 <= minMatch <= 241
    requires |s.extras| <= |memory| && memory[..|s.extras|] == s.extras
    modifies buffer
    ensures len > dstLen ==> r == Err(OutputBufferTooSmall(len, dstLen)) && buffer[..] == old(buffer[..])
    ensures len <= dstLen ==>
      match Decode(s, old(buffer[..start]), start + len, minMatch - 1)
      case Err(e) => r == Err(e)
      case Ok(out) => r == Ok(len) && buffer[..start + len] == out
    ensures buffer[..start] == old(buffer[..start])
    ensures len <= dstLen ==> buffer[start + len..] == old(buffer[start + len..])
  {
    hide ReadFirst, Reached, Room, OnlyWithin, DecodeToken, Stepped;
    if len > dstLen { return Err(OutputBufferTooSmall(len, dstLen)); }
    var bias, end := minMatch - 1, start + len;
    var safeLimit := if len >= WILD_MARGIN then end - WILD_MARGIN else start;
    var pp := Prepass(s.tokens, memory, |s.extras|, bias);
    var litl, mll := new u16[SUPER], new u16[SUPER];
    var at: nat, oi: nat, ei: nat, li: nat, ti: nat, careful: nat := start, 0, 0, 0, 0, 0;
    ghost var b0 := buffer[..];
    ghost var goal := Decode(s, buffer[..start], end, bias);
    ReachedStart(s, buffer[..start], end, bias);
    SameBuffer(b0, start, end);
    while true
      invariant start <= at <= end && ti <= |s.tokens| && OnlyWithin(b0, buffer[..], start, end)
      invariant Reached(s, ti, oi, ei, li, buffer[..at], end, bias, goal)
      decreases |s.tokens| - ti
    {
      ghost var b := buffer[..];
      OutsideKept(b0, b, start, end, end);
      ReachedBounds(s, ti, oi, ei, li, buffer[..at], end, bias, goal);
      var n, e := 0, ei;
      if careful > 0 {
        careful := careful - 1;
      } else if ti + LANES <= |s.tokens| && at <= safeLimit {
        n, e := PassOne(pp, ti, ei, litl, mll, at, li, oi, end, |s.literals|, |s.offsets|);
        if n == 0 { careful := LANES - 1; }
      }
      if n > 0 {
        var step := CopyRun(s, ti, oi, ei, li, litl, mll, n, e - ei, buffer, at, end, bias, goal);
        OnlyWider(b, buffer[..], at, end, start, end);
        OnlyTwice(b0, b, buffer[..], start, end);
        OutsideKept(b0, buffer[..], start, end, end);
        if step.Err? { return Err(step.error); }
        at, li, oi, ti, ei := step.value.0, step.value.1, step.value.2, ti + n, e;
      } else {
        if ti >= |s.tokens| { break; }
        ghost var out := buffer[..at];
        var step, next := CarefulToken(s, ti, oi, ei, li, buffer, at, end, bias);
        ReachedStep(s, ti, oi, ei, li, out, end, bias, goal, step, next, buffer[..]);
        OnlyWider(b, buffer[..], at, end, start, end);
        OnlyTwice(b0, b, buffer[..], start, end);
        OutsideKept(b0, buffer[..], start, end, end);
        if step.Err? { return Err(step.error); }
        at, li, oi, ti, ei := step.value.0, step.value.1, step.value.2, ti + 1, next;
        assert buffer[..][..at] == buffer[..at];
      }
    }
    ReachedEnd(s, ti, oi, ei, li, buffer[..at], end, bias, goal);
    if at != end { return Err(LengthMismatch); }
    return Ok(len);
  }

  lemma ReachedStart(s: Streams, out: seq<byte>, end: nat, bias: nat)
    requires |out| <= end
    ensures Reached(s, 0, 0, 0, 0, out, end, bias, Decode(s, out, end, bias))
  {
    assert Behind(s, 0, 0, 0, 0) == s;
  }

  lemma ReachedEnd(s: Streams, ti: nat, oi: nat, ei: nat, li: nat, out: seq<byte>, end: nat, bias: nat,
                   goal: Result<seq<byte>>)
    requires Reached(s, ti, oi, ei, li, out, end, bias, goal) && ti >= |s.tokens|
    ensures goal == if |out| == end then Ok(out) else Err(LengthMismatch)
  {
  }
}
