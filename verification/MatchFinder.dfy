// src/finder.rs: the hash-table match finder with two (word, position) tuples a bucket,
// and the fast finder with one position a slot. The hash is any function. What makes
// a parse right is that every stored word is the word at the stored position, as long
// as that position is within reach.

module MatchFinder {
  import opened Common
  import opened ByteStrings
  import opened Tokens
  import opened TokenWriter

  const MAX_REF_LEN: nat := 530
  const NO_UPDATE_OFFSET: nat := 273
  const BACK_MATCH_MAX: nat := 16
  const PROVEN: nat := 8
  // A Rust slice is at most isize::MAX bytes long.
  const MAX_INPUT: nat := 0x7fff_ffff_ffff_ffff

  datatype Bucket = Bucket(w1: nat, p1: nat, w2: nat, p2: nat)

  datatype Mode = Mode(minMatch: nat, skip: bool, capByOffset: bool, minOffset: nat)

  const LZAV: Mode := Mode(7, true, true, 8)
  const TURBO: Mode := Mode(10, true, true, 8)
  const DENSE: Mode := Mode(5, true, true, 8)

  // Bytes from position + 4 on that a candidate must confirm: the verify mask's width.
  function VerifyBytes(m: Mode): (n: nat)
    ensures n <= 4
  {
    if m.minMatch <= 4 then 0 else Min(m.minMatch - 4, 4)
  }

  // How many bytes the word and the mask prove together.
  function ProvenBytes(m: Mode): nat {
    Min(m.minMatch, PROVEN)
  }

  // What the parse needs of a mode. A length capped at the offset must still leave the
  // proven bytes.
  predicate Sound(m: Mode) {
    m.minMatch >= 1 && m.minOffset >= 1 && (m.capByOffset ==> m.minOffset >= ProvenBytes(m))
  }

  lemma ModesSound()
    ensures Sound(LZAV) && Sound(TURBO) && Sound(DENSE)
  {
  }

  // The matches a mode emits.
  function RuleOf(m: Mode, window: nat): Rule {
    Rule(m.minMatch, MAX_REF_LEN, m.minOffset, window, m.capByOffset)
  }

  // ---------------------------------------------------------------- words

  function Low(input: seq<byte>, at: nat, n: nat): nat
    requires at + 4 <= |input| && n <= 4
  {
    Load32(input, at) % Pow2(8 * n)
  }

  lemma LowInjective(input: seq<byte>, a: nat, b: nat, n: nat)
    requires a + 4 <= |input| && b + 4 <= |input| && n <= 4 && Low(input, a, n) == Low(input, b, n)
    ensures input[a..a + n] == input[b..b + n]
  {
    hide Number, Pow2;
    var s, t := input[a..a + 4], input[b..b + 4];
    LowIs(s, n);
    LowIs(t, n);
    NumberInjective(s[..n], t[..n]);
    assert s[..n] == input[a..a + n] && t[..n] == input[b..b + n];
  }

  // ---------------------------------------------------------------- the table's invariant

  // A tuple is readable, and holds the word at its position unless the position was cut
  // to 32 bits; then it lies too far back of any position from at on to be matched.
  ghost predicate Truthful(w: nat, p: nat, input: seq<byte>, at: nat) {
    p + 8 <= |input| && (w == Load32(input, p) || p + WINDOW_SIZE <= at)
  }

  // The positions a finder at pos may still count on a table for: those from start on,
  // unless the block is so long that cut positions come into reach.
  function Floor(start: nat, pos: nat): (at: nat)
    ensures at >= start && (pos >= start ==> at <= pos)
  {
    Max(start, pos - (0x1_0000_0000 - WINDOW_SIZE))
  }

  ghost predicate TruthfulBucket(b: Bucket, input: seq<byte>, at: nat) {
    Truthful(b.w1, b.p1, input, at) && Truthful(b.w2, b.p2, input, at)
  }

  // Shorter inputs are never probed.
  ghost predicate TruthfulTable(t: seq<Bucket>, input: seq<byte>, at: nat) {
    |input| >= 12 ==> forall i :: 0 <= i < |t| ==> TruthfulBucket(t[i], input, at)
  }

  function Cut32(pos: nat): nat {
    pos % 0x1_0000_0000
  }

  // A tuple for pos, as stored: the position cut to 32 bits.
  lemma StoredTruthful(input: seq<byte>, pos: nat, at: nat)
    requires pos + WINDOW_SIZE <= at + 0x1_0000_0000 && pos + 8 <= |input|
    ensures Truthful(Load32(input, pos), Cut32(pos), input, at)
  {
    assert Cut32(pos) == pos || Cut32(pos) + 0x1_0000_0000 <= pos;
  }

  lemma StillTruthful(t: seq<Bucket>, input: seq<byte>, at: nat, later: nat)
    requires TruthfulTable(t, input, at) && at <= later
    ensures TruthfulTable(t, input, later)
  {
  }

  // init_table: the table claims the first word for every tuple.
  method InitTable(table: array<Bucket>, src: seq<byte>)
    modifies table
    ensures forall input, at :: |src| >= 4 && src <= input ==> TruthfulTable(table[..], input, at)
    ensures forall at :: TruthfulTable(table[..], src, at)
  {
    var w := if |src| >= 4 then Load32(src, 0) else 0;
    forall i | 0 <= i < table.Length { table[i] := Bucket(w, 0, w, 0); }
    forall input: seq<byte>, at: nat | |src| >= 4 && src <= input ensures TruthfulTable(table[..], input, at) {
      assert src[0..4] == input[0..4];
    }
  }

  // A table filled from a prefix under four bytes claims a first word of zero. For an
  // input long enough to be probed that is truthful just when its first word is zero. No
  // caller passes such a prefix: each fills the table from the very input it then parses
  // (src/lib.rs:353, 369, 399; src/fallback.rs:181; src/x86_compress.rs:79), where the table
  // is truthful at every size, as InitTable states.
  lemma ShortPrefixTruthful(input: seq<byte>, size: nat, at: nat)
    requires size > 0 && |input| >= 12 && at < WINDOW_SIZE
    ensures TruthfulTable(Filled(size, Bucket(0, 0, 0, 0)), input, at) <==> Load32(input, 0) == 0
    ensures !TruthfulTable(Filled(size, Bucket(0, 0, 0, 0)), [1, 0, 0, 0, 0, 0, 0, 0, 0, 0, 0, 0], at)
  {
    var t := Filled(size, Bucket(0, 0, 0, 0));
    var one: seq<byte> := [1, 0, 0, 0, 0, 0, 0, 0, 0, 0, 0, 0];
    assert t[0] == Bucket(0, 0, 0, 0);
    assert one[0..4][0] == 1;
  }

  function Filled(size: nat, b: Bucket): (t: seq<Bucket>)
    ensures |t| == size && forall i :: 0 <= i < size ==> t[i] == b
  {
    seq(size, _ => b)
  }

  // ---------------------------------------------------------------- probing

  // The tuple whose word and confirmed bytes are those at pos, the newer first.
  function Candidate(input: seq<byte>, b: Bucket, iw1: nat, iw2: nat, n: nat): Option<nat>
    requires n <= 4 && b.p1 + 8 <= |input| && b.p2 + 8 <= |input|
  {
    if iw1 == b.w1 && Low(input, b.p1 + 4, n) == iw2 then Some(b.p1)
    else if iw1 == b.w2 && Low(input, b.p2 + 4, n) == iw2 then Some(b.p2)
    else None
  }

  method Probe(input: seq<byte>, b: Bucket, iw1: nat, iw2: nat, n: nat) returns (cand: Option<nat>)
    requires n <= 4 && b.p1 + 8 <= |input| && b.p2 + 8 <= |input| && (n == 0 ==> iw2 == 0)
    ensures cand == Candidate(input, b, iw1, iw2, n)
  {
    cand := None;
    if iw1 == b.w1 {
      if n == 0 || Low(input, b.p1 + 4, n) == iw2 {
        cand := Some(b.p1);
      } else if iw1 == b.w2 {
        if Low(input, b.p2 + 4, n) == iw2 { cand := Some(b.p2); }
      }
    } else if iw1 == b.w2 {
      if n == 0 || Low(input, b.p2 + 4, n) == iw2 { cand := Some(b.p2); }
    }
  }

  // data[from..to] repeats what lies d back.
  ghost predicate Repeats(input: seq<byte>, from: nat, to: nat, d: nat) {
    d <= from && to <= |input| && forall k :: from <= k < to ==> input[k] == input[k - d]
  }

  // A candidate within reach proves the minimum, or eight bytes of it.
  lemma CandidateProves(input: seq<byte>, b: Bucket, at: nat, pos: nat, m: Mode, cand: nat)
    requires at <= pos && pos + 8 <= |input| && TruthfulBucket(b, input, at)
    requires Candidate(input, b, Load32(input, pos), Low(input, pos + 4, VerifyBytes(m)), VerifyBytes(m)) == Some(cand)
    requires cand <= pos < cand + WINDOW_SIZE && m.minMatch >= 1
    ensures Repeats(input, pos, pos + ProvenBytes(m), pos - cand)
  {
    hide Load32, Low;
    var n, d := VerifyBytes(m), pos - cand;
    Load32Injective(input, cand, pos);
    LowInjective(input, cand + 4, pos + 4, n);
    forall k | pos <= k < pos + ProvenBytes(m) ensures input[k] == input[k - d] {
      if k < pos + 4 {
        assert input[pos..pos + 4][k - pos] == input[cand..cand + 4][k - pos];
      } else {
        assert input[pos + 4..pos + 4 + n][k - pos - 4] == input[cand + 4..cand + 4 + n][k - pos - 4];
      }
    }
  }

  predicate Agree(input: seq<byte>, a: nat, b: nat, n: nat)
    requires a + n <= |input| && b + n <= |input|
  {
    input[a..a + n] == input[b..b + n]
  }

  lemma AgreeFurther(input: seq<byte>, a: nat, b: nat, n: nat, k: nat)
    requires a + n + k <= |input| && b + n + k <= |input|
    requires Agree(input, a, b, n) && Agree(input, a + n, b + n, k)
    ensures Agree(input, a, b, n + k)
  {
    assert input[a..a + (n + k)] == input[a..a + n] + input[a + n..a + n + k];
    assert input[b..b + (n + k)] == input[b..b + n] + input[b + n..b + n + k];
  }

  // The index of the first byte in which two words differ: the trailing zeros of their
  // exclusive or, over eight.
  function FirstDifference(input: seq<byte>, a: nat, b: nat, width: nat): (n: nat)
    requires a + width <= |input| && b + width <= |input|
    ensures n <= width && Agree(input, a, b, n)
    ensures n < width ==> input[a + n] != input[b + n]
    decreases width
  {
    if width == 0 || input[a] != input[b] then 0 else
      var n := FirstDifference(input, a + 1, b + 1, width - 1);
      AgreeFurther(input, a, b, 1, n);
      n + 1
  }

  // The bytes two places have in common, eight at a time and then singly.
  method CommonPrefix(input: seq<byte>, a: nat, b: nat, max: nat) returns (n: nat)
    requires a + max <= |input| && b + max <= |input|
    ensures n <= max && Agree(input, a, b, n)
    ensures n < max ==> input[a + n] != input[b + n]
  {
    hide Agree, FirstDifference;
    n := 0;
    AgreeNone(input, a, b);
    while n + 8 <= max
      invariant n <= max && Agree(input, a, b, n)
    {
      var differ := FirstDifference(input, a + n, b + n, 8);
      AgreeFurther(input, a, b, n, differ);
      n := n + differ;
      if differ < 8 { return; }
    }
    while n < max && input[a + n] == input[b + n]
      invariant n <= max && Agree(input, a, b, n)
    {
      AgreeOne(input, a + n, b + n);
      AgreeFurther(input, a, b, n, 1);
      n := n + 1;
    }
  }

  lemma AgreeNone(input: seq<byte>, a: nat, b: nat)
    requires a <= |input| && b <= |input|
    ensures Agree(input, a, b, 0)
  {
  }

  lemma AgreeOne(input: seq<byte>, a: nat, b: nat)
    requires a < |input| && b < |input| && input[a] == input[b]
    ensures Agree(input, a, b, 1)
  {
  }

  // Back into pending literals, byte by byte.
  method BackMatch(input: seq<byte>, pos: nat, cand: nat, max: nat) returns (n: nat)
    requires cand <= pos <= |input| && max <= cand
    ensures n <= max && Repeats(input, pos - n, pos, pos - cand)
    ensures n < max ==> input[pos - 1 - n] != input[cand - 1 - n]
  {
    n := 0;
    var room := max;
    while room > 0 && input[pos - 1 - n] == input[cand - 1 - n]
      invariant n + room == max && Repeats(input, pos - n, pos, pos - cand)
      decreases room
    {
      n := n + 1;
      room := room - 1;
    }
  }

  // ---------------------------------------------------------------- what a block's tokens rebuild

  // The tokens so far rebuild the input up to anchor out of the history up to start.
  ghost predicate Rebuilds(ts: seq<Token>, input: seq<byte>, start: nat, anchor: nat) {
    start <= anchor <= |input| && Playable(ts, input[..start]) && Play(ts, input[..start]) == input[..anchor]
  }

  lemma NothingRebuilds(input: seq<byte>, start: nat)
    requires start <= |input|
    ensures Rebuilds([], input, start, start)
  {
  }

  // One more emission carries the rebuilt part to the end of its match.
  lemma EmissionRebuilds(ts: seq<Token>, input: seq<byte>, start: nat, anchor: nat, mpos: nat, rc: nat, d: nat)
    requires Rebuilds(ts, input, start, anchor) && anchor <= mpos && mpos + rc <= |input|
    requires rc > 0 ==> d > 0 && Repeats(input, mpos, mpos + rc, d)
    ensures Rebuilds(ts + Cut(input[anchor..mpos], rc, d), input, start, mpos + rc)
  {
    hide Playable, Play, Cut, Repeat;
    var lits := input[anchor..mpos];
    assert input[..anchor] + lits == input[..mpos];
    CutPlays(lits, rc, d, input[..anchor]);
    if rc > 0 { RepeatExtends(input, mpos, d, rc); }
    PlayAppend(ts, Cut(lits, rc, d), input[..start]);
  }

  // What a finished block promises.
  ghost predicate Parsed(s: Streams, ts: seq<Token>, input: seq<byte>, start: nat, end: nat, r: Rule) {
    && r.minLength >= 1 && AllCodable(ts, r.minLength - 1) && s == Encode(ts, r.minLength - 1)
    && Rebuilds(ts, input, start, end) && EveryMatch(ts, r)
  }

  lemma ParsedDecodes(s: Streams, ts: seq<Token>, input: seq<byte>, start: nat, end: nat, r: Rule)
    requires Parsed(s, ts, input, start, end, r)
    ensures start <= end <= |input| && Decode(s, input[..start], end, r.minLength - 1) == Ok(input[..end])
  {
    hide Decode, Encode, Playable, Play;
    EncodedDecodes(ts, input[..start], end, r.minLength - 1);
  }

  // ---------------------------------------------------------------- growing a match

  // Extending a proven match forward carries the repetition along.
  lemma Lengthened(input: seq<byte>, pos: nat, proven: nat, d: nat, n: nat)
    requires Repeats(input, pos, pos + proven, d) && pos + proven + n <= |input| && d <= pos
    requires Agree(input, pos + proven, pos - d + proven, n)
    ensures Repeats(input, pos, pos + proven + n, d)
  {
    forall k | pos + proven <= k < pos + proven + n ensures input[k] == input[k - d] {
      var i := k - pos - proven;
      assert input[pos + proven..pos + proven + n][i] == input[pos - d + proven..pos - d + proven + n][i];
    }
  }

  lemma RepeatsJoin(input: seq<byte>, from: nat, mid: nat, to: nat, d: nat)
    requires Repeats(input, from, mid, d) && Repeats(input, mid, to, d)
    ensures Repeats(input, from, to, d)
  {
  }

  // A back-match of pending literals onto a match found: where the match now starts, and
  // its length.
  method TakeBack(input: seq<byte>, anchor: nat, pos: nat, cand: nat, found: nat, ml: nat) returns (mpos: nat, rc: nat)
    requires anchor <= pos && cand <= pos && found <= ml && Repeats(input, pos, pos + found, pos - cand)
    ensures anchor <= mpos <= pos && pos - mpos <= BACK_MATCH_MAX && mpos + rc == pos + found && found <= rc <= ml
    ensures Repeats(input, mpos, mpos + rc, pos - cand)
  {
    var lc := pos - anchor;
    mpos, rc := pos, found;
    if lc != 0 {
      var room := Min(Min(Min(ml - rc, lc), cand), BACK_MATCH_MAX);
      var bmc := BackMatch(input, pos, cand, room);
      RepeatsJoin(input, pos - bmc, pos, pos + found, pos - cand);
      rc := rc + bmc;
      mpos := mpos - bmc;
    }
  }

  // What a finder keeps between two positions.
  ghost predicate Going(cur: Cursors, input: seq<byte>, start: nat, end: nat, anchor: nat, r: Rule)
    reads cur, cur.tok, cur.off, cur.ext, cur.lit
  {
    && cur.Valid() && cur.minMatch == r.minLength && cur.blockLen == end - start
    && start <= anchor <= end <= |input| && cur.span == anchor - start
    && Rebuilds(cur.tokens, input, start, anchor) && EveryMatch(cur.tokens, r)
  }

  predicate Writable(r: Rule) {
    r.minOffset >= 1 && r.window <= WINDOW_SIZE && 1 <= r.minLength && r.maxLength <= ESCAPE_MAX
  }

  method StartBlock(input: seq<byte>, start: nat, end: nat, r: Rule) returns (cur: Cursors)
    requires start <= end <= |input| && Writable(r)
    ensures Going(cur, input, start, end, start, r)
    ensures fresh(cur) && fresh(cur.tok) && fresh(cur.off) && fresh(cur.ext) && fresh(cur.lit)
  {
    cur := new Cursors(r.minLength, end - start);
    NothingRebuilds(input, start);
  }

  // Emitting the pending literals and a match moves the anchor past the match.
  method EmitMatch(cur: Cursors, input: seq<byte>, start: nat, end: nat, anchor: nat, mpos: nat, rc: nat, d: nat, r: Rule)
    requires Going(cur, input, start, end, anchor, r) && Writable(r)
    requires anchor <= mpos && mpos + rc <= end && Obeys(r, rc, d) && Repeats(input, mpos, mpos + rc, d)
    modifies cur, cur.tok, cur.off, cur.ext, cur.lit
    ensures Going(cur, input, start, end, mpos + rc, r)
  {
    hide Rebuilds, Repeats, Cut, EveryMatch;
    ghost var was := cur.tokens;
    CutMatches(input[anchor..mpos], rc, d, r);
    MatchesAppend(was, Cut(input[anchor..mpos], rc, d), r);
    EmissionRebuilds(was, input, start, anchor, mpos, rc, d);
    cur.Emit(input, anchor, mpos - anchor, rc, d);
  }

  // The literals left at the end of the block, and the streams.
  method EndBlock(cur: Cursors, input: seq<byte>, start: nat, end: nat, anchor: nat, r: Rule)
    returns (s: Streams, ghost ts: seq<Token>)
    requires Going(cur, input, start, end, anchor, r) && Writable(r)
    modifies cur, cur.tok, cur.off, cur.ext, cur.lit
    ensures Parsed(s, ts, input, start, end, r)
  {
    hide Rebuilds, Repeats, Cut, EveryMatch;
    ghost var was := cur.tokens;
    var trailing := end - anchor;
    if trailing > 0 {
      CutMatches(input[anchor..end], 0, 0, r);
      MatchesAppend(was, Cut(input[anchor..end], 0, 0), r);
      EmissionRebuilds(was, input, start, anchor, end, 0, 0);
      cur.Emit(input, anchor, trailing, 0, 0);
    }
    s := cur.Finish();
    ts := cur.tokens;
  }

  // ---------------------------------------------------------------- the default finder

  // pos - cand as the machine computes it: negative differences wrap to huge ones.
  function WrappingSub(pos: nat, cand: nat): nat
    requires cand <= MAX_INPUT
  {
    if cand <= pos then pos - cand else 0x1_0000_0000_0000_0000 + pos - cand
  }

  // How far a miss moves on, and the next dither bit. On poor data steps grow.
  function MissStep(m: Mode, mavg: int, rndb: nat, pos: nat, anchor: nat): (r: (nat, nat))
    ensures r.0 >= 1
  {
    if m.skip && mavg < 200 * 16384 && pos != anchor then
      (1 + rndb + (if mavg < 130 * 16384 then 1 + (if mavg < 100 * 16384 then 100 - mavg / 16384 else 0) else 0) + 1, pos % 2)
    else (1, rndb)
  }

  // A miss: the new word takes tuple 2.
  function Missed(b: Bucket, iw1: nat, pos: nat): Bucket {
    b.(w2 := iw1, p2 := Cut32(pos))
  }

  // A hit out of the window: the position replaces the one of the tuple it hit.
  function Refreshed(b: Bucket, iw1: nat, pos: nat): Bucket {
    if iw1 == b.w1 then b.(p1 := Cut32(pos)) else b.(p2 := Cut32(pos))
  }

  // A hit in the window.
  function Referenced(b: Bucket, iw1: nat, pos: nat): Bucket {
    if iw1 == b.w1 then b.(p1 := Cut32(pos)) else Bucket(iw1, Cut32(pos), b.w1, b.p1)
  }

  lemma UpdatesTruthful(b: Bucket, input: seq<byte>, at: nat, pos: nat)
    requires pos + WINDOW_SIZE <= at + 0x1_0000_0000 && pos + 8 <= |input| && TruthfulBucket(b, input, at)
    ensures var iw1 := Load32(input, pos);
      && TruthfulBucket(Missed(b, iw1, pos), input, at)
      && TruthfulBucket(Referenced(b, iw1, pos), input, at)
      && (iw1 == b.w1 || iw1 == b.w2 ==> TruthfulBucket(Refreshed(b, iw1, pos), input, at))
  {
    hide Load32, Truthful;
    StoredTruthful(input, pos, at);
  }

  lemma TablePut(t: seq<Bucket>, h: nat, b: Bucket, input: seq<byte>, at: nat)
    requires h < |t| && TruthfulTable(t, input, at) && TruthfulBucket(b, input, at)
    ensures TruthfulTable(t[h := b], input, at)
  {
  }

  lemma TableGet(t: seq<Bucket>, h: nat, input: seq<byte>, at: nat)
    requires h < |t| && TruthfulTable(t, input, at) && |input| >= 12
    ensures TruthfulBucket(t[h], input, at) && t[h].p1 + 8 <= |input| && t[h].p2 + 8 <= |input|
  {
  }

  // What the finder does with one bucket: the table afterwards, and what it found.
  datatype Found = Miss | Skip | Hit(cand: nat)

  ghost predicate UsableHit(input: seq<byte>, pos: nat, cand: nat, m: Mode, window: nat) {
    cand <= pos && m.minOffset <= pos - cand < window && Repeats(input, pos, pos + ProvenBytes(m), pos - cand)
  }

  method Visit(input: seq<byte>, pos: nat, table: array<Bucket>, hash: (nat, nat) -> nat, m: Mode, window: nat,
               ghost at: nat)
    returns (f: Found)
    requires pos + 12 <= |input| <= MAX_INPUT && Sound(m) && 1 <= window <= WINDOW_SIZE
    requires table.Length > 0 && TruthfulTable(table[..], input, at)
    requires at <= pos && pos + WINDOW_SIZE <= at + 0x1_0000_0000
    modifies table
    ensures TruthfulTable(table[..], input, at)
    ensures f.Hit? ==> UsableHit(input, pos, f.cand, m, window)
  {
    hide Truthful, TruthfulTable, TruthfulBucket, Load32, Low, Candidate, Repeats;
    var n := VerifyBytes(m);
    var iw1 := Load32(input, pos);
    var iw2 := if n == 0 then 0 else Low(input, pos + 4, n);
    NothingMasked(input, pos + 4);
    var h := hash(iw1, iw2) % table.Length;
    var bucket := table[h];
    TableGet(table[..], h, input, at);
    UpdatesTruthful(bucket, input, at, pos);
    var cand := Probe(input, bucket, iw1, iw2, n);
    CandidateIs(input, bucket, iw1, iw2, n);
    var put := bucket;
    if cand.None? {
      put := Missed(bucket, iw1, pos);
      f := Miss;
    } else {
      var d := WrappingSub(pos, cand.value);
      if d < m.minOffset || d >= window {
        if d >= window { put := Refreshed(bucket, iw1, pos); }
        f := Skip;
      } else {
        if d > NO_UPDATE_OFFSET { put := Referenced(bucket, iw1, pos); }
        CandidateProves(input, bucket, at, pos, m, cand.value);
        f := Hit(cand.value);
      }
    }
    TablePut(table[..], h, put, input, at);
    ghost var t := table[..];
    table[h] := put;
    assert table[..] == t[h := put];
  }

  lemma NothingMasked(input: seq<byte>, at: nat)
    requires at + 4 <= |input|
    ensures Low(input, at, 0) == 0
  {
  }

  lemma CandidateIs(input: seq<byte>, b: Bucket, iw1: nat, iw2: nat, n: nat)
    requires n <= 4 && b.p1 + 8 <= |input| && b.p2 + 8 <= |input|
    ensures Candidate(input, b, iw1, iw2, n).Some? ==>
      && Candidate(input, b, iw1, iw2, n).value <= |input|
      && (iw1 == b.w1 || iw1 == b.w2)
  {
  }

  // A usable hit as a match of at least the minimum, or None where the bytes the word
  // and mask do not prove fall short of it.
  method Extend(input: seq<byte>, end: nat, anchor: nat, pos: nat, cand: nat, m: Mode, window: nat)
    returns (r: Option<(nat, nat)>)
    requires anchor <= pos && pos + 12 <= end <= |input| && Sound(m) && UsableHit(input, pos, cand, m, window)
    ensures r.Some? ==>
      var (mpos, rc) := r.value;
      && anchor <= mpos <= pos < mpos + rc <= end
      && Obeys(RuleOf(m, window), rc, pos - cand) && Repeats(input, mpos, mpos + rc, pos - cand)
  {
    hide Repeats;
    var d := pos - cand;
    var ml := if m.capByOffset then Min(d, MAX_REF_LEN) else MAX_REF_LEN;
    if pos + ml > end { ml := end - pos; }
    var proven := ProvenBytes(m);
    var more := CommonPrefix(input, pos + proven, cand + proven, ml - proven);
    Lengthened(input, pos, proven, d, more);
    var found := proven + more;
    if m.minMatch > PROVEN && found < m.minMatch { return None; }
    var mpos, rc := TakeBack(input, anchor, pos, cand, found, ml);
    return Some((mpos, rc));
  }

  method FindMatches(input: seq<byte>, start: nat, blockLen: nat, table: array<Bucket>, hash: (nat, nat) -> nat,
                     m: Mode, window: nat)
    returns (s: Streams, ghost ts: seq<Token>)
    requires start + blockLen <= |input| <= MAX_INPUT && Sound(m) && 1 <= window <= WINDOW_SIZE
    requires table.Length > 0 && TruthfulTable(table[..], input, start)
    modifies table
    ensures Parsed(s, ts, input, start, start + blockLen, RuleOf(m, window))
    ensures Decode(s, input[..start], start + blockLen, m.minMatch - 1) == Ok(input[..start + blockLen])
    // The table serves the next block, and a second parse of this one.
    ensures TruthfulTable(table[..], input, Floor(start, start + blockLen))
  {
    hide TruthfulTable, Repeats, Going, Parsed, Decode;
    var end := start + blockLen;
    var rule := RuleOf(m, window);
    var cur := StartBlock(input, start, end, rule);
    var hashLimit := Max(end - (Max(m.minMatch, 8) + 3), start);
    var anchor: nat, pos: nat, rndb: nat := start, start, 0;
    var mavg: int := 100 * 0x20_0000;
    while pos < hashLimit
      invariant anchor <= pos && Going(cur, input, start, end, anchor, rule)
      invariant TruthfulTable(table[..], input, Floor(start, Min(pos, end)))
      decreases hashLimit - pos
    {
      ghost var at := Floor(start, pos);
      var found := Visit(input, pos, table, hash, m, window, at);
      if found.Miss? {
        mavg := mavg - mavg / 2048;
        var (step, bit) := MissStep(m, mavg, rndb, pos, anchor);
        pos, rndb := pos + step, bit;
      } else if found.Skip? {
        pos := pos + 1;
      } else {
        var r := Extend(input, end, anchor, pos, found.cand, m, window);
        if r.None? {
          pos := pos + 1;
        } else {
          var (mpos, rc) := r.value;
          EmitMatch(cur, input, start, end, anchor, mpos, rc, pos - found.cand, rule);
          pos := mpos + rc;
          anchor := pos;
          mavg := mavg + (rc * 0x20_0000 - mavg) / 1024;
        }
      }
      StillTruthful(table[..], input, at, Floor(start, Min(pos, end)));
    }
    s, ts := EndBlock(cur, input, start, end, anchor, rule);
    ParsedDecodes(s, ts, input, start, end, rule);
    StillTruthful(table[..], input, Floor(start, Min(pos, end)), Floor(start, end));
  }

  // ---------------------------------------------------------------- the fast finder

  const SKIP_STRENGTH: nat := 64
  const FAST_EXTRA: nat := MAX_REF_LEN + BACK_MATCH_MAX

  // The fast parse takes any offset in the window, and lets a match grow backwards
  // beyond the longest forward match.
  function FastRule(m: Mode, window: nat): Rule {
    Rule(m.minMatch, FAST_EXTRA, 1, window, false)
  }

  // Eight bytes that agree whole are extended to the block's end at most.
  method GrowForward(input: seq<byte>, end: nat, pos: nat, cand: nat, len: nat) returns (rc: nat)
    requires cand < pos && pos + 8 < end <= |input| && len <= 8 && Agree(input, pos, cand, len)
    ensures len <= rc <= MAX_REF_LEN && pos + rc <= end && Repeats(input, pos, pos + rc, pos - cand)
  {
    var ml := Min(end - pos, MAX_REF_LEN);
    rc := len;
    Lengthened(input, pos, 0, pos - cand, len);
    if rc == 8 && ml > 8 {
      var more := CommonPrefix(input, pos + 8, cand + 8, ml - 8);
      Lengthened(input, pos, 8, pos - cand, more);
      rc := 8 + more;
    }
    rc := Min(rc, ml);
  }

  method Grow(input: seq<byte>, end: nat, anchor: nat, pos: nat, cand: nat, len: nat) returns (mpos: nat, rc: nat)
    requires anchor <= pos && cand < pos && pos + 8 < end <= |input| && len <= 8 && Agree(input, pos, cand, len)
    ensures anchor <= mpos <= pos && mpos + rc <= end && len <= rc <= FAST_EXTRA
    ensures pos + len <= mpos + rc && Repeats(input, mpos, mpos + rc, pos - cand)
  {
    hide Agree;
    rc := GrowForward(input, end, pos, cand, len);
    mpos := pos;
    var lc := pos - anchor;
    if lc != 0 {
      var room := Min(Min(lc, cand), BACK_MATCH_MAX);
      var bmc := BackMatch(input, pos, cand, room);
      RepeatsJoin(input, pos - bmc, pos, pos + rc, pos - cand);
      rc := rc + bmc;
      mpos := mpos - bmc;
    }
  }

  // Search from pos on for a place whose eight bytes share at least the minimum with the
  // candidate of its slot. The table may hold anything: the bytes are compared.
  method FindNext(input: seq<byte>, first: nat, limit: nat, table: array<nat>, hash: nat -> nat, m: Mode, window: nat)
    returns (pos: nat, found: Option<(nat, nat)>)
    requires limit + 8 <= |input| <= MAX_INPUT || limit <= first
    requires 1 <= window <= WINDOW_SIZE
    requires table.Length > 0 && forall i :: 0 <= i < table.Length ==> table[i] < 0x1_0000_0000
    modifies table
    ensures forall i :: 0 <= i < table.Length ==> table[i] < 0x1_0000_0000
    ensures first <= pos
    ensures found.Some? ==>
      var (cand, len) := found.value;
      && pos < limit && cand < pos < cand + window && m.minMatch <= len <= 8
      && Agree(input, pos, cand, len)
  {
    hide Number, Agree, FirstDifference;
    pos := first;
    var searchNb := SKIP_STRENGTH;
    while pos < limit
      invariant first <= pos && searchNb >= SKIP_STRENGTH
      invariant forall i :: 0 <= i < table.Length ==> table[i] < 0x1_0000_0000
      decreases limit - pos
    {
      var h := hash(Number(input[pos..pos + 8])) % table.Length;
      var c := table[h];
      table[h] := Cut32(pos);
      var step := searchNb / SKIP_STRENGTH;
      searchNb := searchNb + 1;
      var d := WrappingSub(pos, c);
      if 1 <= d < window {
        var len := FirstDifference(input, pos, c, 8);
        if len >= m.minMatch { return pos, Some((c, len)); }
      }
      pos := pos + step;
    }
    found := None;
  }

  method FindMatchesFast(input: seq<byte>, start: nat, blockLen: nat, table: array<nat>, hash: nat -> nat,
                         m: Mode, window: nat)
    returns (s: Streams, ghost ts: seq<Token>)
    requires start + blockLen <= |input| <= MAX_INPUT && 1 <= m.minMatch <= 8 && 1 <= window <= WINDOW_SIZE
    requires table.Length > 0 && forall i :: 0 <= i < table.Length ==> table[i] < 0x1_0000_0000
    modifies table
    ensures Parsed(s, ts, input, start, start + blockLen, FastRule(m, window))
    ensures Decode(s, input[..start], start + blockLen, m.minMatch - 1) == Ok(input[..start + blockLen])
    ensures forall i :: 0 <= i < table.Length ==> table[i] < 0x1_0000_0000
  {
    hide Repeats, Going, Parsed, Decode, Agree;
    var end := start + blockLen;
    var rule := FastRule(m, window);
    var cur := StartBlock(input, start, end, rule);
    var limit := Max(end - 8, start);
    var anchor: nat, pos: nat := start, start;
    while true
      invariant anchor <= pos && Going(cur, input, start, end, anchor, rule)
      invariant forall i :: 0 <= i < table.Length ==> table[i] < 0x1_0000_0000
      decreases limit - pos
    {
      var found;
      pos, found := FindNext(input, pos, limit, table, hash, m, window);
      if found.None? { break; }
      var (cand, len) := found.value;
      var mpos, rc := Grow(input, end, anchor, pos, cand, len);
      EmitMatch(cur, input, start, end, anchor, mpos, rc, pos - cand, rule);
      pos := mpos + rc;
      anchor := pos;
      if pos >= 2 && pos < limit {
        table[hash(Number(input[pos - 2..pos + 6])) % table.Length] := Cut32(pos - 2);
      }
    }
    s, ts := EndBlock(cur, input, start, end, anchor, rule);
    ParsedDecodes(s, ts, input, start, end, rule);
  }
}
