// Cursors of src/finder.rs: the four output streams of one block, written through
// cursors that never check a capacity. The reservation of the constructor is what
// makes every store, conditional or not, land inside it.

module TokenWriter {
  import opened Common
  import opened ByteStrings
  import opened Tokens

  // Literal runs longer than one escape go out as leading literal-only tokens.
  ghost function Cut(lits: seq<byte>, rc: nat, offset: nat): (ts: seq<Token>)
    decreases |lits|
  {
    if |lits| > MAX_LIT_LEN then [Token(lits[..MAX_LIT_LEN], 0, 0)] + Cut(lits[MAX_LIT_LEN..], rc, offset)
    else [Token(lits, rc, offset)]
  }

  // No run is cut into more tokens than its length needs.
  lemma {:induction false} CutFewest(lits: seq<byte>, rc: nat, offset: nat)
    ensures |Cut(lits, rc, offset)| == 1 + (if lits == [] then 0 else (|lits| - 1) / MAX_LIT_LEN)
    ensures forall i :: 0 <= i < |Cut(lits, rc, offset)| ==> |Cut(lits, rc, offset)[i].lits| <= MAX_LIT_LEN
    decreases |lits|
  {
    if |lits| > MAX_LIT_LEN {
      CutFewest(lits[MAX_LIT_LEN..], rc, offset);
      var q := (|lits| - 1 - MAX_LIT_LEN) / MAX_LIT_LEN;
      DivModIs(|lits| - 1, MAX_LIT_LEN, q + 1, (|lits| - 1 - MAX_LIT_LEN) % MAX_LIT_LEN);
    } else if lits != [] {
      DivModIs(|lits| - 1, MAX_LIT_LEN, 0, |lits| - 1);
    }
  }

  // However a run is cut, playing the tokens adds the run and then the match.
  lemma {:induction false} CutPlays(lits: seq<byte>, rc: nat, offset: nat, out: seq<byte>)
    requires TokenFits(Token(lits, rc, offset), out)
    ensures Playable(Cut(lits, rc, offset), out)
    ensures Play(Cut(lits, rc, offset), out) == PlayToken(Token(lits, rc, offset), out)
    decreases |lits|
  {
    hide Repeat;
    if |lits| > MAX_LIT_LEN {
      var head, tail := lits[..MAX_LIT_LEN], lits[MAX_LIT_LEN..];
      CutPlays(tail, rc, offset, out + head);
      assert (out + head) + tail == out + lits by { Assoc(out, head, tail); }
      assert ([Token(head, 0, 0)] + Cut(tail, rc, offset))[1..] == Cut(tail, rc, offset);
    } else {
      assert [Token(lits, rc, offset)][1..] == [];
    }
  }

  // The matches a finder may emit: of its minimum length at least, far enough back and
  // inside the window, never longer than the offset where copies must not overlap.
  datatype Rule = Rule(minLength: nat, maxLength: nat, minOffset: nat, window: nat, capped: bool)

  predicate Obeys(r: Rule, length: nat, offset: nat) {
    r.minLength <= length <= r.maxLength && r.minOffset <= offset < r.window && (r.capped ==> length <= offset)
  }

  ghost predicate EveryMatch(ts: seq<Token>, r: Rule) {
    forall i :: 0 <= i < |ts| && ts[i].length > 0 ==> Obeys(r, ts[i].length, ts[i].offset)
  }

  lemma {:induction false} CutMatches(lits: seq<byte>, rc: nat, offset: nat, r: Rule)
    requires rc > 0 ==> Obeys(r, rc, offset)
    ensures EveryMatch(Cut(lits, rc, offset), r)
    decreases |lits|
  {
    if |lits| > MAX_LIT_LEN { CutMatches(lits[MAX_LIT_LEN..], rc, offset, r); }
  }

  lemma MatchesAppend(a: seq<Token>, b: seq<Token>, r: Rule)
    requires EveryMatch(a, r) && EveryMatch(b, r)
    ensures EveryMatch(a + b, r)
  {
  }

  method CopyBytes(dst: array<byte>, at: nat, src: seq<byte>, from: nat, n: nat)
    requires at + n <= dst.Length && from + n <= |src|
    modifies dst
    ensures dst[..at + n] == old(dst[..at]) + src[from..from + n]
  {
    forall i | 0 <= i < n { dst[at + i] := src[from + i]; }
    SliceIs(dst[..], at, src, from, n);
    assert dst[..at] == old(dst[..at]);
    assert dst[..at + n] == dst[..][..at + n] && dst[..][..at] == dst[..at];
  }

  class Cursors {
    const minMatch: nat
    const blockLen: nat
    const tok: array<byte>
    const off: array<byte>
    const ext: array<byte>
    const lit: array<byte>
    var tokAt: nat
    var offAt: nat
    var extAt: nat
    var litAt: nat
    // What has been written, and how many input bytes it stands for.
    ghost var tokens: seq<Token>
    ghost var span: nat

    // Each token stands for at least as many input bytes as it takes of the token and
    // of the escape stream, and for half of what it takes of the offset stream.
    ghost predicate Reserved()
      reads this
    {
      && minMatch >= 1 && span <= blockLen
      && tok.Length == ext.Length == lit.Length == blockLen + 64 && off.Length == 2 * blockLen + 64
      && tok != off && tok != ext && tok != lit && off != ext && off != lit && ext != lit
      && tokAt <= span && offAt <= 2 * span && extAt <= span && litAt <= span
    }

    ghost function Written(): Streams
      requires Reserved()
      reads this, tok, off, ext, lit
    {
      Streams(tok[..tokAt], off[..offAt], ext[..extAt], lit[..litAt])
    }

    ghost predicate Valid()
      reads this, tok, off, ext, lit
    {
      Reserved() && AllCodable(tokens, minMatch - 1) && Written() == Encode(tokens, minMatch - 1)
    }

    constructor (minMatch: nat, blockLen: nat)
      requires minMatch >= 1
      ensures Valid() && tokens == [] && span == 0
      ensures this.minMatch == minMatch && this.blockLen == blockLen
      ensures fresh(tok) && fresh(off) && fresh(ext) && fresh(lit)
    {
      this.minMatch, this.blockLen := minMatch, blockLen;
      tok, off := new byte[blockLen + 64], new byte[2 * blockLen + 64];
      ext, lit := new byte[blockLen + 64], new byte[blockLen + 64];
      tokAt, offAt, extAt, litAt := 0, 0, 0, 0;
      tokens, span := [], 0;
    }

    method Finish() returns (s: Streams)
      requires Valid()
      ensures s == Encode(tokens, minMatch - 1)
      ensures |s.tokens| <= blockLen && |s.offsets| <= 2 * blockLen && |s.extras| <= blockLen && |s.literals| <= blockLen
    {
      s := Streams(tok[..tokAt], off[..offAt], ext[..extAt], lit[..litAt]);
    }

    method PushEscape(value: nat, base: nat)
      requires base <= value <= base + ESCAPE_MAX && extAt + 3 <= ext.Length
      modifies this`extAt, ext
      ensures extAt <= old(extAt) + 3 <= ext.Length
      ensures ext[..extAt] == old(ext[..extAt]) + Escape(value, base)
    {
      var v := value - base;
      if v < 255 {
        ext[extAt] := v;
        extAt := extAt + 1;
      } else {
        var rest := (v - 255) % 65536;
        ext[extAt] := ESCAPE_CONT;
        ext[extAt + 1], ext[extAt + 2] := rest % 256, rest / 256;
        extAt := extAt + 3;
      }
    }

    // The escapes of one token. Below the continuation both bytes go out in one
    // unconditional 16-bit store, and the cursor moves by how many are meant.
    method PutExtras(lc: nat, rc: nat)
      requires lc <= MAX_LIT_LEN && minMatch >= 1 && rc <= minMatch + 14 + ESCAPE_MAX && extAt + 6 <= ext.Length
      modifies this`extAt, ext
      ensures extAt <= ext.Length
      ensures ext[..extAt] == old(ext[..extAt]) + ExtrasOf(lc, rc, minMatch - 1)
    {
      hide Escape;
      var bias := minMatch - 1;
      var nl := lc > LIT_DIRECT_MAX;
      var nm := rc > bias + 14;
      if lc >= ESCAPE_BASE_LIT + 255 || rc >= bias + 15 + 255 {
        if nl { PushEscape(lc, ESCAPE_BASE_LIT); }
        if nm { PushEscape(rc, bias + 15); }
      } else {
        PutShortExtras(lc, rc);
      }
    }

    method PutShortExtras(lc: nat, rc: nat)
      requires minMatch >= 1 && lc < ESCAPE_BASE_LIT + 255 && rc < minMatch + 14 + 255 && extAt + 2 <= ext.Length
      modifies this`extAt, ext
      ensures extAt <= ext.Length
      ensures ext[..extAt] == old(ext[..extAt]) + ExtrasOf(lc, rc, minMatch - 1)
    {
      hide ExtrasOf;
      var bias := minMatch - 1;
      var nl := if lc > LIT_DIRECT_MAX then 1 else 0;
      var nm := if rc > bias + 14 then 1 else 0;
      var lb := if nl == 1 then (lc - ESCAPE_BASE_LIT) % 256 else 0;
      var mb := (rc - (bias + 15)) % 256;
      StorePair(if nl == 1 then Word(lb, mb) else mb);
      ShortEscapes(lc, rc, bias);
      assert ext[..extAt + nl + nm] == ext[..extAt] + ext[extAt..extAt + nl + nm];
      extAt := extAt + nl + nm;
    }

    method StorePair(w: nat)
      requires w < 65536 && extAt + 2 <= ext.Length
      modifies ext
      ensures ext[..extAt] == old(ext[..extAt]) && ext[extAt] == w % 256 && ext[extAt + 1] == w / 256
    {
      ext[extAt], ext[extAt + 1] := w % 256, w / 256;
    }

    method PutToken(lc: nat, rc: nat, offset: nat)
      requires minMatch >= 1 && (rc > 0 ==> rc >= minMatch && offset < WINDOW_SIZE) && tokAt < tok.Length
      modifies this`tokAt, tok
      ensures tokAt <= tok.Length
      ensures tok[..tokAt] == old(tok[..tokAt]) + [CodeOf(lc, rc, offset, minMatch - 1)]
    {
      var bias := minMatch - 1;
      var lcode := Min(lc, LIT_CODE_ESCAPE);
      var mcode := if rc == 0 then 0 else Min(rc - bias, MATCH_CODE_ESCAPE);
      var hi := if rc > 0 then offset / 65536 else 0;
      tok[tokAt] := FromCodes(lcode, mcode, hi);
      tokAt := tokAt + 1;
    }

    // The offset goes out unconditionally; the cursor moves only when there is a match.
    method PutOffset(rc: nat, offset: nat)
      requires offset < WINDOW_SIZE && offAt + 2 <= off.Length
      modifies this`offAt, off
      ensures offAt <= off.Length
      ensures off[..offAt] == old(off[..offAt]) + OffsetsOf(rc, offset)
    {
      var w := offset % 65536;
      LowHalf(offset);
      off[offAt], off[offAt + 1] := w % 256, w / 256;
      offAt := offAt + (if rc > 0 then 2 else 0);
    }

    // Sixteen bytes unconditionally, more in steps of 32, unless that over-reads the input.
    method WildCopy(input: seq<byte>, from: nat, lc: nat)
      requires from + lc <= |input| && litAt + lc + 32 <= lit.Length
      modifies this`litAt, lit
      ensures litAt <= lit.Length
      ensures lit[..litAt] == old(lit[..litAt]) + input[from..from + lc]
    {
      if from + lc + 32 <= |input| {
        ghost var before := lit[..litAt];
        CopyBytes(lit, litAt, input, from, 16);
        ghost var done := 16;
        if lc > 16 { done := WildTail(before, input, from, lc); }
        Prefix(lit[..litAt + done], before, input, from, done, lc);
        assert lit[..litAt + done][..litAt + lc] == lit[..litAt + lc];
      } else {
        CopyBytes(lit, litAt, input, from, lc);
      }
      litAt := litAt + lc;
    }

    method WildTail(ghost before: seq<byte>, input: seq<byte>, from: nat, lc: nat) returns (ghost done: nat)
      requires from + lc + 32 <= |input| && litAt + lc + 32 <= lit.Length && lc > 16 && |before| == litAt
      requires lit[..litAt + 16] == before + input[from..from + 16]
      modifies lit
      ensures lc <= done < lc + 32 && lit[..litAt + done] == before + input[from..from + done]
    {
      var k := 16;
      while k < lc
        invariant 16 <= k < lc + 32 && lit[..litAt + k] == before + input[from..from + k]
      {
        CopyBytes(lit, litAt + k, input, from + k, 32);
        Assoc(before, input[from..from + k], input[from + k..from + k + 32]);
        assert input[from..from + k] + input[from + k..from + k + 32] == input[from..from + k + 32];
        k := k + 32;
      }
      done := k;
    }

    // A literal-only token of the longest run one escape can say.
    method EmitRun(input: seq<byte>, from: nat)
      requires Valid() && from + MAX_LIT_LEN <= |input| && span + MAX_LIT_LEN <= blockLen
      modifies this, tok, off, ext, lit
      ensures Valid()
      ensures tokens == old(tokens) + [Token(input[from..from + MAX_LIT_LEN], 0, 0)]
      ensures span == old(span) + MAX_LIT_LEN
    {
      hide Encode, Codable, Escape, CodeOf;
      ghost var was, t := Written(), Token(input[from..from + MAX_LIT_LEN], 0, 0);
      PushEscape(MAX_LIT_LEN, ESCAPE_BASE_LIT);
      PutToken(MAX_LIT_LEN, 0, 0);
      CopyBytes(lit, litAt, input, from, MAX_LIT_LEN);
      litAt := litAt + MAX_LIT_LEN;
      RunEncodes(t, minMatch - 1);
      span := span + MAX_LIT_LEN;
      Appended(tokens, t, minMatch - 1, was, Written());
      tokens := tokens + [t];
    }

    // The four stores of one token.
    method Put(input: seq<byte>, from: nat, lc: nat, rc: nat, offset: nat)
      requires Reserved() && from + lc <= |input| && 0 < lc + rc && span + lc + rc <= blockLen
      requires lc <= MAX_LIT_LEN && offset < WINDOW_SIZE
      requires rc > 0 ==> minMatch <= rc <= minMatch + 14 + ESCAPE_MAX
      modifies `tokAt, `offAt, `extAt, `litAt, tok, off, ext, lit
      ensures tokAt <= tok.Length && offAt <= off.Length && extAt <= ext.Length && litAt <= lit.Length
      ensures tok[..tokAt] == old(tok[..tokAt]) + [CodeOf(lc, rc, offset, minMatch - 1)]
      ensures off[..offAt] == old(off[..offAt]) + OffsetsOf(rc, offset)
      ensures ext[..extAt] == old(ext[..extAt]) + ExtrasOf(lc, rc, minMatch - 1)
      ensures lit[..litAt] == old(lit[..litAt]) + input[from..from + lc]
    {
      hide CodeOf, OffsetsOf, ExtrasOf;
      PutExtras(lc, rc);
      PutToken(lc, rc, offset);
      PutOffset(rc, offset);
      WildCopy(input, from, lc);
    }

    method EmitToken(input: seq<byte>, from: nat, lc: nat, rc: nat, offset: nat)
      requires Valid() && from + lc <= |input| && 0 < lc + rc && span + lc + rc <= blockLen
      requires lc <= MAX_LIT_LEN && offset < WINDOW_SIZE
      requires rc > 0 ==> minMatch <= rc <= minMatch + 14 + ESCAPE_MAX && offset > 0
      modifies this, tok, off, ext, lit
      ensures Valid()
      ensures tokens == old(tokens) + [Token(input[from..from + lc], rc, offset)]
      ensures span == old(span) + lc + rc
    {
      hide Encode, Codable, Escape, CodeOf, ExtrasOf;
      ghost var was, t := Written(), Token(input[from..from + lc], rc, offset);
      Amortised(lc, rc, minMatch - 1);
      Put(input, from, lc, rc, offset);
      TokenEncodes(t, minMatch - 1);
      span := span + lc + rc;
      Appended(tokens, t, minMatch - 1, was, Written());
      tokens := tokens + [t];
    }

    // One token: lc literals, then a match of rc bytes at offset (rc == 0: none).
    method Emit(input: seq<byte>, litSrc: nat, litLen: nat, rc: nat, offset: nat)
      requires Valid() && litSrc + litLen <= |input| && 0 < litLen + rc && span + litLen + rc <= blockLen
      requires offset < WINDOW_SIZE
      requires rc > 0 ==> minMatch <= rc <= minMatch + 14 + ESCAPE_MAX && offset > 0
      modifies this, tok, off, ext, lit
      ensures Valid()
      ensures tokens == old(tokens) + Cut(input[litSrc..litSrc + litLen], rc, offset)
      ensures span == old(span) + litLen + rc
    {
      hide Cut, Encode, AllCodable;
      var from: nat, lc: nat := litSrc, litLen;
      ghost var goal := tokens + Cut(input[litSrc..litSrc + litLen], rc, offset);
      while lc > MAX_LIT_LEN
        invariant Valid() && from + lc == litSrc + litLen && 0 < lc + rc
        invariant span + lc + rc == old(span) + litLen + rc
        invariant tokens + Cut(input[from..from + lc], rc, offset) == goal
      {
        CutFront(input, from, lc, rc, offset);
        TokensAssoc(tokens, [Token(input[from..from + MAX_LIT_LEN], 0, 0)],
                    Cut(input[from + MAX_LIT_LEN..from + lc], rc, offset));
        EmitRun(input, from);
        from, lc := from + MAX_LIT_LEN, lc - MAX_LIT_LEN;
      }
      CutLast(input[from..from + lc], rc, offset);
      EmitToken(input, from, lc, rc, offset);
    }
  }

  lemma CutFront(input: seq<byte>, from: nat, lc: nat, rc: nat, offset: nat)
    requires from + lc <= |input| && lc > MAX_LIT_LEN
    ensures Cut(input[from..from + lc], rc, offset)
         == [Token(input[from..from + MAX_LIT_LEN], 0, 0)] + Cut(input[from + MAX_LIT_LEN..from + lc], rc, offset)
  {
    var lits := input[from..from + lc];
    assert lits[..MAX_LIT_LEN] == input[from..from + MAX_LIT_LEN];
    assert lits[MAX_LIT_LEN..] == input[from + MAX_LIT_LEN..from + lc];
  }

  lemma CutLast(lits: seq<byte>, rc: nat, offset: nat)
    requires |lits| <= MAX_LIT_LEN
    ensures Cut(lits, rc, offset) == [Token(lits, rc, offset)]
  {
  }

  lemma Prefix(written: seq<byte>, before: seq<byte>, input: seq<byte>, from: nat, k: nat, lc: nat)
    requires from + k <= |input| && written == before + input[from..from + k]
    ensures lc <= k ==> written[..|before| + lc] == before + input[from..from + lc]
  {
  }

  lemma LowHalf(offset: nat)
    ensures offset % 65536 % 256 == offset % 256 && offset % 65536 / 256 == offset / 256 % 256
  {
    DivDiv(offset, 256, 256);
    var q, m, l := offset / 65536, offset / 256 % 256, offset % 256;
    assert offset == 256 * (offset / 256) + l && offset / 256 == 256 * q + m;
    DivModIs(offset, 65536, q, 256 * m + l);
    DivModIs(256 * m + l, 256, m, l);
  }

  // Below the continuation the escapes of a token are the plain differences.
  lemma ShortEscapes(lc: nat, rc: nat, bias: nat)
    requires lc < ESCAPE_BASE_LIT + 255 && rc < bias + 15 + 255
    ensures ExtrasOf(lc, rc, bias) ==
      (if lc > LIT_DIRECT_MAX then [lc - ESCAPE_BASE_LIT] else []) + (if rc > bias + 14 then [rc - (bias + 15)] else [])
  {
  }

  // The escape bytes of a token never outnumber the input bytes it stands for.
  lemma Amortised(lc: nat, rc: nat, bias: nat)
    requires lc <= MAX_LIT_LEN && rc <= bias + 15 + ESCAPE_MAX
    ensures |ExtrasOf(lc, rc, bias)| <= lc + rc && |ExtrasOf(lc, rc, bias)| <= 6
  {
  }

  lemma TokenEncodes(t: Token, bias: nat)
    requires |t.lits| <= MAX_LIT_LEN && t.offset < WINDOW_SIZE
    requires t.length > 0 ==> bias < t.length <= bias + 15 + ESCAPE_MAX && t.offset > 0
    ensures Codable(t, bias)
    ensures EncodeToken(t, bias) == Streams([CodeOf(|t.lits|, t.length, t.offset, bias)], OffsetsOf(t.length, t.offset),
                                            ExtrasOf(|t.lits|, t.length, bias), t.lits)
  {
  }

  lemma RunEncodes(t: Token, bias: nat)
    requires |t.lits| == MAX_LIT_LEN && t.length == 0 && t.offset == 0
    ensures Codable(t, bias)
    ensures EncodeToken(t, bias) == Streams([CodeOf(MAX_LIT_LEN, 0, 0, bias)], [], Escape(MAX_LIT_LEN, ESCAPE_BASE_LIT), t.lits)
  {
  }

  lemma Appended(ts: seq<Token>, t: Token, bias: nat, was: Streams, now: Streams)
    requires AllCodable(ts, bias) && was == Encode(ts, bias) && Codable(t, bias)
    requires now == Join(was, EncodeToken(t, bias))
    ensures AllCodable(ts + [t], bias) && now == Encode(ts + [t], bias)
  {
    hide Codable, EncodeToken;
    EncodeAppend(ts, [t], bias);
    assert [t][1..] == [];
    JoinNothing(EncodeToken(t, bias));
  }

  lemma JoinNothing(a: Streams)
    ensures Join(a, Streams([], [], [], [])) == a
  {
  }

  lemma TokensAssoc(a: seq<Token>, b: seq<Token>, c: seq<Token>)
    ensures (a + b) + c == a + (b + c)
  {
  }
}
