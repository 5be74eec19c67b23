// The token streams of src/format.rs and their reference decoder, src/fallback.rs.
//
// A block is four streams: one byte per token, two bytes per match offset, the
// escapes of long lengths, and the literals. Decode is the meaning of four streams;
// Encode is what a list of tokens looks like in them.

module Tokens {
  import opened Common
  import opened ByteStrings

  const LIT_DIRECT_MAX: nat := 6
  const LIT_CODE_ESCAPE: nat := 7
  const MATCH_CODE_ESCAPE: nat := 15
  const ESCAPE_BASE_LIT: nat := LIT_DIRECT_MAX + 1
  const ESCAPE_CONT: nat := 255
  const ESCAPE_MAX: nat := 255 + 65535
  const MAX_LIT_LEN: nat := ESCAPE_BASE_LIT + ESCAPE_MAX
  const WINDOW_SIZE: nat := 0x2_0000

  datatype Streams = Streams(tokens: seq<byte>, offsets: seq<byte>, extras: seq<byte>, literals: seq<byte>)

  datatype Error =
    | OutputBufferTooSmall(required: nat, provided: nat)
    | InsufficientExtras
    | ExceedsBlock
    | LiteralOverrun
    | InsufficientOffsets
    | OffsetOutOfBounds(offset: nat, available: nat)
    | LengthMismatch

  datatype Result<+T> = Ok(value: T) | Err(error: Error)

  // ---------------------------------------------------------------- the token byte

  function FromCodes(lit: nat, match_: nat, hi: nat): byte
    requires lit < 8 && match_ < 16 && hi < 2
  {
    lit + 8 * match_ + 128 * hi
  }

  function LitCode(t: byte): (c: nat)
    ensures c < 8
  {
    t % 8
  }

  function MatchCode(t: byte): (c: nat)
    ensures c < 16
  {
    t / 8 % 16
  }

  function OffHi(t: byte): (h: nat)
    ensures h < 2
  {
    t / 128
  }

  // The three fields of a token byte do not overlap.
  lemma CodesRoundTrip(lit: nat, match_: nat, hi: nat)
    requires lit < 8 && match_ < 16 && hi < 2
    ensures var t := FromCodes(lit, match_, hi); LitCode(t) == lit && MatchCode(t) == match_ && OffHi(t) == hi
  {
    var t := FromCodes(lit, match_, hi);
    DivModIs(t, 8, match_ + 16 * hi, lit);
    DivModIs(match_ + 16 * hi, 16, hi, match_);
    DivModIs(t, 128, hi, lit + 8 * match_);
  }

  // ---------------------------------------------------------------- what four streams mean

  // An escaped length, and the bytes it takes.
  function ReadEscape(extras: seq<byte>, base: nat): (r: Result<(nat, nat)>)
    ensures r.Ok? ==> r.value.1 <= |extras| && r.value.0 >= base
  {
    if extras == [] then Err(InsufficientExtras)
    else if extras[0] != ESCAPE_CONT then Ok((base + extras[0], 1))
    else if |extras| < 3 then Err(InsufficientExtras)
    else Ok((base + 255 + Word(extras[1], extras[2]), 3))
  }

  function ReadLiteralLength(t: byte, extras: seq<byte>): (r: Result<(nat, nat)>)
    ensures r.Ok? ==> r.value.1 <= |extras|
  {
    if LitCode(t) == LIT_CODE_ESCAPE then ReadEscape(extras, ESCAPE_BASE_LIT) else Ok((LitCode(t), 0))
  }

  function ReadMatchLength(t: byte, extras: seq<byte>, bias: nat): (r: Result<(nat, nat)>)
    ensures r.Ok? ==> r.value.1 <= |extras|
  {
    if MatchCode(t) == 0 then Ok((0, 0))
    else if MatchCode(t) == MATCH_CODE_ESCAPE then ReadEscape(extras, bias + 15)
    else Ok((MatchCode(t) + bias, 0))
  }

  // Both lengths of a token, and the escape bytes they take together.
  function ReadLengths(t: byte, extras: seq<byte>, bias: nat): (r: Result<(nat, nat, nat)>)
    ensures r.Ok? ==> r.value.2 <= |extras|
  {
    match ReadLiteralLength(t, extras)
    case Err(e) => Err(e)
    case Ok((litLen, a)) =>
      match ReadMatchLength(t, extras[a..], bias)
      case Err(e) => Err(e)
      case Ok((matchLen, b)) => Ok((litLen, matchLen, a + b))
  }

  // The match of one token onto out.
  function DecodeMatch(t: byte, rest: Streams, out: seq<byte>, length: nat): (r: Result<(seq<byte>, Streams)>)
    ensures r.Ok? ==> |r.value.0| == |out| + length && r.value.1.tokens == rest.tokens
  {
    if length == 0 then Ok((out, rest))
    else if |rest.offsets| < 2 then Err(InsufficientOffsets)
    else
      var offset := Word(rest.offsets[0], rest.offsets[1]) + 65536 * OffHi(t);
      if offset == 0 || offset > |out| then Err(OffsetOutOfBounds(offset, |out|))
      else Ok((Repeat(out, offset, length), rest.(offsets := rest.offsets[2..])))
  }

  // One token: the output after it and the streams behind it. The output may grow to end.
  function DecodeToken(s: Streams, out: seq<byte>, end: nat, bias: nat): (r: Result<(seq<byte>, Streams)>)
    requires s.tokens != [] && |out| <= end
    ensures r.Ok? ==> |out| <= |r.value.0| <= end && r.value.1.tokens == s.tokens[1..]
  {
    var t := s.tokens[0];
    match ReadLengths(t, s.extras, bias)
    case Err(e) => Err(e)
    case Ok((litLen, matchLen, used)) =>
      if litLen + matchLen > end - |out| then Err(ExceedsBlock)
      else if litLen > |s.literals| then Err(LiteralOverrun)
      else
        var rest := Streams(s.tokens[1..], s.offsets, s.extras[used..], s.literals[litLen..]);
        DecodeMatch(t, rest, out + s.literals[..litLen], matchLen)
  }

  function Decode(s: Streams, out: seq<byte>, end: nat, bias: nat): (r: Result<seq<byte>>)
    requires |out| <= end
    ensures r.Ok? ==> |r.value| == end
    decreases |s.tokens|
  {
    if s.tokens == [] then
      if |out| == end then Ok(out) else Err(LengthMismatch)
    else
      match DecodeToken(s, out, end, bias)
      case Err(e) => Err(e)
      case Ok((out', rest)) => Decode(rest, out', end, bias)
  }

  // ---------------------------------------------------------------- a list of tokens in the streams

  // Literals, then a match of length bytes from offset back; no match if length is 0.
  datatype Token = Token(lits: seq<byte>, length: nat, offset: nat)

  ghost predicate Codable(t: Token, bias: nat) {
    && |t.lits| <= MAX_LIT_LEN
    && (t.length > 0 ==> bias < t.length <= bias + 15 + ESCAPE_MAX && 0 < t.offset < WINDOW_SIZE)
  }

  ghost predicate AllCodable(ts: seq<Token>, bias: nat) {
    forall i :: 0 <= i < |ts| ==> Codable(ts[i], bias)
  }

  function Escape(value: nat, base: nat): (s: seq<byte>)
    requires base <= value <= base + ESCAPE_MAX
  {
    var v := value - base;
    if v < 255 then [v] else [255, (v - 255) % 256, (v - 255) / 256]
  }

  function ExtrasOf(lc: nat, rc: nat, bias: nat): (s: seq<byte>)
    requires lc <= MAX_LIT_LEN && rc <= bias + 15 + ESCAPE_MAX
  {
    (if lc > LIT_DIRECT_MAX then Escape(lc, ESCAPE_BASE_LIT) else [])
    + (if rc > bias + 14 then Escape(rc, bias + 15) else [])
  }

  function OffsetsOf(rc: nat, offset: nat): seq<byte>
    requires offset < WINDOW_SIZE
  {
    if rc > 0 then [offset % 256, offset / 256 % 256] else []
  }

  function CodeOf(lc: nat, rc: nat, offset: nat, bias: nat): byte
    requires rc > 0 ==> rc > bias && offset < WINDOW_SIZE
  {
    FromCodes(Min(lc, LIT_CODE_ESCAPE), if rc == 0 then 0 else Min(rc - bias, MATCH_CODE_ESCAPE),
              if rc > 0 then offset / 65536 else 0)
  }

  function Join(a: Streams, b: Streams): Streams {
    Streams(a.tokens + b.tokens, a.offsets + b.offsets, a.extras + b.extras, a.literals + b.literals)
  }

  function EncodeToken(t: Token, bias: nat): Streams
    requires Codable(t, bias)
  {
    Streams([CodeOf(|t.lits|, t.length, t.offset, bias)], if t.length > 0 then OffsetsOf(t.length, t.offset) else [],
            ExtrasOf(|t.lits|, t.length, bias), t.lits)
  }

  function Encode(ts: seq<Token>, bias: nat): (s: Streams)
    requires AllCodable(ts, bias)
  {
    if ts == [] then Streams([], [], [], []) else Join(EncodeToken(ts[0], bias), Encode(ts[1..], bias))
  }

  ghost predicate TokenFits(t: Token, out: seq<byte>) {
    t.length > 0 ==> 0 < t.offset <= |out| + |t.lits|
  }

  function PlayToken(t: Token, out: seq<byte>): (r: seq<byte>)
    requires TokenFits(t, out)
    ensures |r| == |out| + |t.lits| + t.length
  {
    if t.length == 0 then out + t.lits else Repeat(out + t.lits, t.offset, t.length)
  }

  // Every match of the list reaches back into what stands before it.
  ghost predicate Playable(ts: seq<Token>, out: seq<byte>)
    decreases |ts|
  {
    ts == [] || (TokenFits(ts[0], out) && Playable(ts[1..], PlayToken(ts[0], out)))
  }

  ghost function Play(ts: seq<Token>, out: seq<byte>): (r: seq<byte>)
    requires Playable(ts, out)
    ensures |r| >= |out|
    decreases |ts|
  {
    if ts == [] then out else Play(ts[1..], PlayToken(ts[0], out))
  }

  // ---------------------------------------------------------------- encoding, then decoding

  lemma EscapeReads(value: nat, base: nat, rest: seq<byte>)
    requires base <= value <= base + ESCAPE_MAX
    ensures ReadEscape(Escape(value, base) + rest, base) == Ok((value, |Escape(value, base)|))
  {
    if value - base >= 255 {
      var v := value - base - 255;
      assert v == v % 256 + 256 * (v / 256);
    }
  }

  lemma LengthsRead(lc: nat, rc: nat, offset: nat, bias: nat, rest: seq<byte>)
    requires lc <= MAX_LIT_LEN && rc <= bias + 15 + ESCAPE_MAX && (rc > 0 ==> rc > bias && offset < WINDOW_SIZE)
    ensures ReadLengths(CodeOf(lc, rc, offset, bias), ExtrasOf(lc, rc, bias) + rest, bias)
      == Ok((lc, rc, |ExtrasOf(lc, rc, bias)|))
  {
    hide ReadEscape, Escape, FromCodes, LitCode, MatchCode;
    var t, e := CodeOf(lc, rc, offset, bias), ExtrasOf(lc, rc, bias) + rest;
    var first := if lc > LIT_DIRECT_MAX then Escape(lc, ESCAPE_BASE_LIT) else [];
    var second := if rc > bias + 14 then Escape(rc, bias + 15) else [];
    CodesRoundTrip(Min(lc, LIT_CODE_ESCAPE), if rc == 0 then 0 else Min(rc - bias, MATCH_CODE_ESCAPE),
                   if rc > 0 then offset / 65536 else 0);
    assert e == first + (second + rest);
    if lc > LIT_DIRECT_MAX { EscapeReads(lc, ESCAPE_BASE_LIT, second + rest); }
    assert ReadLiteralLength(t, e) == Ok((lc, |first|));
    assert e[|first|..] == second + rest;
    if rc > bias + 14 { EscapeReads(rc, bias + 15, rest); }
    assert ReadMatchLength(t, e[|first|..], bias) == Ok((rc, |second|));
  }

  lemma OffsetSplit(offset: nat)
    requires offset < WINDOW_SIZE
    ensures offset == offset % 256 + 256 * (offset / 256 % 256) + 65536 * (offset / 65536)
  {
    DivDiv(offset, 256, 256);
    assert offset / 256 == 256 * (offset / 256 / 256) + offset / 256 % 256;
  }

  lemma MatchDecodes(t: Token, rest: Streams, out: seq<byte>, bias: nat)
    requires Codable(t, bias) && TokenFits(t, out)
    ensures var s := rest.(offsets := EncodeToken(t, bias).offsets + rest.offsets);
      DecodeMatch(EncodeToken(t, bias).tokens[0], s, out + t.lits, t.length) == Ok((PlayToken(t, out), rest))
  {
    hide FromCodes, OffHi, Repeat;
    if t.length > 0 {
      CodesRoundTrip(Min(|t.lits|, LIT_CODE_ESCAPE), Min(t.length - bias, MATCH_CODE_ESCAPE), t.offset / 65536);
      OffsetSplit(t.offset);
      assert (EncodeToken(t, bias).offsets + rest.offsets)[2..] == rest.offsets;
    } else {
      assert EncodeToken(t, bias).offsets + rest.offsets == rest.offsets;
    }
  }

  lemma TokenDecodes(t: Token, rest: Streams, out: seq<byte>, end: nat, bias: nat)
    requires Codable(t, bias) && TokenFits(t, out) && |PlayToken(t, out)| <= end
    ensures DecodeToken(Join(EncodeToken(t, bias), rest), out, end, bias) == Ok((PlayToken(t, out), rest))
  {
    hide CodeOf, ExtrasOf, OffsetsOf, ReadLengths, DecodeMatch, PlayToken;
    var e := EncodeToken(t, bias);
    var s := Join(e, rest);
    LengthsRead(|t.lits|, t.length, t.offset, bias, rest.extras);
    assert s.tokens[1..] == rest.tokens;
    assert s.extras[|e.extras|..] == rest.extras;
    assert s.literals[..|t.lits|] == t.lits && s.literals[|t.lits|..] == rest.literals;
    MatchDecodes(t, rest, out, bias);
  }

  // Decoding the streams of a token list plays the list.
  lemma {:induction false} EncodedDecodes(ts: seq<Token>, out: seq<byte>, end: nat, bias: nat)
    requires AllCodable(ts, bias) && Playable(ts, out) && |Play(ts, out)| == end
    ensures |out| <= end && Decode(Encode(ts, bias), out, end, bias) == Ok(Play(ts, out))
    decreases |ts|
  {
    hide Codable, EncodeToken, DecodeToken, PlayToken;
    if ts != [] {
      TokenDecodes(ts[0], Encode(ts[1..], bias), out, end, bias);
      EncodedDecodes(ts[1..], PlayToken(ts[0], out), end, bias);
      assert Join(EncodeToken(ts[0], bias), Encode(ts[1..], bias)).tokens != [] by { OneTokenByte(ts[0], bias); }
    }
  }

  lemma OneTokenByte(t: Token, bias: nat)
    requires Codable(t, bias)
    ensures |EncodeToken(t, bias).tokens| == 1
  {
  }

  // ---------------------------------------------------------------- lists end to end

  lemma JoinAssoc(a: Streams, b: Streams, c: Streams)
    ensures Join(Join(a, b), c) == Join(a, Join(b, c))
  {
    Assoc(a.tokens, b.tokens, c.tokens);
    Assoc(a.offsets, b.offsets, c.offsets);
    Assoc(a.extras, b.extras, c.extras);
    Assoc(a.literals, b.literals, c.literals);
  }

  lemma {:induction false} EncodeAppend(a: seq<Token>, b: seq<Token>, bias: nat)
    requires AllCodable(a, bias) && AllCodable(b, bias)
    ensures AllCodable(a + b, bias) && Encode(a + b, bias) == Join(Encode(a, bias), Encode(b, bias))
  {
    hide Codable, EncodeToken;
    if a == [] {
      assert a + b == b;
    } else {
      assert (a + b)[1..] == a[1..] + b;
      EncodeAppend(a[1..], b, bias);
      JoinAssoc(EncodeToken(a[0], bias), Encode(a[1..], bias), Encode(b, bias));
    }
  }

  lemma {:induction false} PlayAppend(a: seq<Token>, b: seq<Token>, out: seq<byte>)
    requires Playable(a, out) && Playable(b, Play(a, out))
    ensures Playable(a + b, out) && Play(a + b, out) == Play(b, Play(a, out))
    decreases |a|
  {
    hide TokenFits, PlayToken;
    if a == [] {
      assert a + b == b;
    } else {
      assert (a + b)[1..] == a[1..] + b;
      PlayAppend(a[1..], b, PlayToken(a[0], out));
    }
  }

  // ---------------------------------------------------------------- the portable decoder

  method ReadEscapeAt(extras: seq<byte>, at: nat, base: nat) returns (r: Result<nat>, next: nat)
    requires at <= |extras|
    ensures at <= next <= |extras|
    ensures match ReadEscape(extras[at..], base)
      case Err(e) => r == Err(e)
      case Ok((v, n)) => r == Ok(v) && next == at + n
  {
    next := at;
    if at >= |extras| { return Err(InsufficientExtras), next; }
    var v := extras[at];
    next := at + 1;
    if v != ESCAPE_CONT { return Ok(base + v), next; }
    if next + 2 > |extras| { return Err(InsufficientExtras), next; }
    var w := Word(extras[next], extras[next + 1]);
    next := next + 2;
    return Ok(base + 255 + w), next;
  }

  // One match, byte by byte: the source may overlap what is being written.
  method CopyMatch(buffer: array<byte>, at: nat, offset: nat, length: nat)
    requires 0 < offset <= at && at + length <= buffer.Length
    modifies buffer
    ensures buffer[..at + length] == Repeat(old(buffer[..at]), offset, length)
    ensures buffer[at + length..] == old(buffer[at + length..])
  {
    hide Repeat;
    ghost var goal := Repeat(buffer[..at], offset, length);
    for k := 0 to length
      invariant Repeat(buffer[..at + k], offset, length - k) == goal
      invariant buffer[at + k..] == old(buffer[at + k..])
    {
      ghost var before := buffer[..at + k];
      buffer[at + k] := buffer[at + k - offset];
      RepeatStep(before, offset, length - k);
      assert buffer[..at + k + 1] == before + [before[|before| - offset]];
      assert buffer[at + k + 1..] == old(buffer[at + k + 1..]);
    }
    RepeatNone(buffer[..at + length], offset);
  }

  method CopyLiterals(buffer: array<byte>, at: nat, literals: seq<byte>, from: nat, length: nat)
    requires from + length <= |literals| && at + length <= buffer.Length
    modifies buffer
    ensures buffer[..at + length] == old(buffer[..at]) + literals[from..from + length]
    ensures buffer[at + length..] == old(buffer[at + length..])
  {
    for k := 0 to length
      invariant buffer[..at + k] == old(buffer[..at]) + literals[from..from + k]
      invariant buffer[at + k..] == old(buffer[at + k..])
    {
      ghost var before := buffer[..at + k];
      buffer[at + k] := literals[from + k];
      assert buffer[..at + k + 1] == before + [literals[from + k]];
      assert literals[from..from + k + 1] == literals[from..from + k] + [literals[from + k]];
      assert buffer[at + k + 1..] == old(buffer[at + k + 1..]);
    }
  }

  // What is left of the streams behind four positions.
  function Behind(s: Streams, ti: nat, oi: nat, ei: nat, li: nat): Streams
    requires ti <= |s.tokens| && oi <= |s.offsets| && ei <= |s.extras| && li <= |s.literals|
  {
    Streams(s.tokens[ti..], s.offsets[oi..], s.extras[ei..], s.literals[li..])
  }

  method ReadLengthsAt(t: byte, extras: seq<byte>, at: nat, bias: nat)
    returns (r: Result<(nat, nat)>, next: nat)
    requires at <= |extras|
    ensures at <= next <= |extras|
    ensures match ReadLengths(t, extras[at..], bias)
      case Err(e) => r == Err(e)
      case Ok((litLen, matchLen, used)) => r == Ok((litLen, matchLen)) && next == at + used
  {
    hide LitCode, MatchCode, ReadEscape;
    var lc, mc := LitCode(t), MatchCode(t);
    var lit, match_: Result<nat>;
    if lc == LIT_CODE_ESCAPE { lit, next := ReadEscapeAt(extras, at, ESCAPE_BASE_LIT); } else { lit, next := Ok(lc), at; }
    if lit.Err? { return Err(lit.error), next; }
    SliceSlice(extras, at, next - at);
    if mc == 0 {
      match_ := Ok(0);
    } else if mc == MATCH_CODE_ESCAPE {
      match_, next := ReadEscapeAt(extras, next, bias + 15);
    } else {
      match_ := Ok(mc + bias);
    }
    if match_.Err? { return Err(match_.error), next; }
    return Ok((lit.value, match_.value)), next;
  }

  lemma SliceSlice(s: seq<byte>, a: nat, b: nat)
    requires a + b <= |s|
    ensures s[a..][b..] == s[a + b..]
  {
  }

  // A token's match onto the first at bytes.
  method ApplyMatch(t: byte, offsets: seq<byte>, oi: nat, buffer: array<byte>, at: nat, end: nat, length: nat, ghost rest: Streams)
    returns (r: Result<nat>, oi': nat)
    requires oi <= |offsets| && at + length <= end <= buffer.Length && rest.offsets == offsets[oi..]
    modifies buffer
    ensures oi' <= |offsets|
    ensures match DecodeMatch(t, rest, old(buffer[..at]), length)
      case Err(e) => r == Err(e)
      case Ok((out, after)) =>
        r == Ok(|out|) && |out| <= buffer.Length && buffer[..|out|] == out && after == rest.(offsets := offsets[oi'..])
    ensures buffer[..at] == old(buffer[..at]) && buffer[end..] == old(buffer[end..])
  {
    hide OffHi, Repeat;
    oi' := oi;
    if length == 0 { return Ok(at), oi'; }
    if oi + 2 > |offsets| { return Err(InsufficientOffsets), oi'; }
    var offset := Word(offsets[oi], offsets[oi + 1]) + 65536 * OffHi(t);
    if offset == 0 || offset > at { return Err(OffsetOutOfBounds(offset, at)), oi'; }
    ghost var was, tail := buffer[..at], buffer[at + length..];
    CopyMatch(buffer, at, offset, length);
    RepeatFront(was, offset, length, buffer[..at + length]);
    assert buffer[..at] == buffer[..at + length][..at];
    TailKept(buffer[at + length..], tail, end - (at + length));
    oi' := oi + 2;
    SliceSlice(offsets, oi, 2);
    return Ok(at + length), oi';
  }

  lemma RepeatFront(out: seq<byte>, offset: nat, length: nat, r: seq<byte>)
    requires 0 < offset <= |out| && r == Repeat(out, offset, length)
    ensures |r| == |out| + length && r[..|out|] == out
  {
  }

  method ApplyToken(s: Streams, ti: nat, oi: nat, ei: nat, li: nat, buffer: array<byte>, at: nat, end: nat, bias: nat)
    returns (r: Result<nat>, oi': nat, ei': nat, li': nat)
    requires ti < |s.tokens| && oi <= |s.offsets| && ei <= |s.extras| && li <= |s.literals|
    requires at <= end <= buffer.Length
    modifies buffer
    ensures oi' <= |s.offsets| && ei' <= |s.extras| && li' <= |s.literals|
    ensures match DecodeToken(Behind(s, ti, oi, ei, li), old(buffer[..at]), end, bias)
      case Err(e) => r == Err(e)
      case Ok((out, rest)) =>
        r == Ok(|out|) && |out| <= buffer.Length && buffer[..|out|] == out && rest == Behind(s, ti + 1, oi', ei', li')
    ensures buffer[..at] == old(buffer[..at]) && buffer[end..] == old(buffer[end..])
  {
    hide ReadLengths, DecodeMatch;
    oi', ei', li' := oi, ei, li;
    var t := s.tokens[ti];
    ghost var behind, out, tail := Behind(s, ti, oi, ei, li), buffer[..at], buffer[end..];
    assert behind.tokens[0] == t && behind.tokens[1..] == s.tokens[ti + 1..];
    var lengths;
    lengths, ei' := ReadLengthsAt(t, s.extras, ei, bias);
    if lengths.Err? { return Err(lengths.error), oi', ei', li'; }
    var litLen, matchLen := lengths.value.0, lengths.value.1;
    SliceSlice(s.extras, ei, ei' - ei);
    if litLen + matchLen > end - at { return Err(ExceedsBlock), oi', ei', li'; }
    if litLen > 0 {
      if li + litLen > |s.literals| { return Err(LiteralOverrun), oi', ei', li'; }
      ghost var kept := buffer[at + litLen..];
      CopyLiterals(buffer, at, s.literals, li, litLen);
      TailKept(buffer[at + litLen..], kept, end - (at + litLen));
      li' := li + litLen;
    }
    var at' := at + litLen;
    assert behind.literals[..litLen] == s.literals[li..li'] && behind.literals[litLen..] == s.literals[li'..];
    assert buffer[..at'] == out + s.literals[li..li'] && buffer[end..] == tail;
    ghost var rest := Behind(s, ti + 1, oi, ei', li');
    ghost var mid := buffer[..at'];
    r, oi' := ApplyMatch(t, s.offsets, oi, buffer, at', end, matchLen, rest);
    assert buffer[..at] == mid[..at] == out by { assert buffer[..at] == buffer[..at'][..at]; }
  }

  lemma TailKept(a: seq<byte>, b: seq<byte>, k: nat)
    requires a == b && k <= |a|
    ensures a[k..] == b[k..]
  {
  }

  // The portable decoder. The buffer's first start bytes are the history matches may
  // reach into; the block's own region is dstLen bytes behind it.
  method Decompress(s: Streams, buffer: array<byte>, start: nat, dstLen: nat, len: nat, minMatch: nat)
    returns (r: Result<nat>)
    requires start + dstLen <= buffer.Length && minMatch >= 1
    modifies buffer
    ensures len > dstLen ==> r == Err(OutputBufferTooSmall(len, dstLen)) && buffer[..] == old(buffer[..])
    ensures len <= dstLen ==>
      match Decode(s, old(buffer[..start]), start + len, minMatch - 1)
      case Err(e) => r == Err(e)
      case Ok(out) => r == Ok(len) && buffer[..start + len] == out
    ensures buffer[..start] == old(buffer[..start])
    ensures len <= dstLen ==> buffer[start + len..] == old(buffer[start + len..])
  {
    hide DecodeToken;
    var bias := minMatch - 1;
    if len > dstLen { return Err(OutputBufferTooSmall(len, dstLen)); }
    var end := start + len;
    var at: nat, oi: nat, ei: nat, li: nat := start, 0, 0, 0;
    ghost var goal := Decode(s, buffer[..start], end, bias);
    assert Behind(s, 0, 0, 0, 0) == s;
    for ti := 0 to |s.tokens|
      invariant oi <= |s.offsets| && ei <= |s.extras| && li <= |s.literals| && start <= at <= end
      invariant buffer[..start] == old(buffer[..start]) && buffer[end..] == old(buffer[end..])
      invariant Decode(Behind(s, ti, oi, ei, li), buffer[..at], end, bias) == goal
    {
      ghost var before := buffer[..at];
      var step;
      step, oi, ei, li := ApplyToken(s, ti, oi, ei, li, buffer, at, end, bias);
      assert buffer[..start] == buffer[..at][..start] == before[..start];
      if step.Err? { return Err(step.error); }
      at := step.value;
    }
    if at != end { return Err(LengthMismatch); }
    return Ok(len);
  }
}
