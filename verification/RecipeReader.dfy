// src/deflate.rs, Reader and segments_with: cursors into a recipe body, the content and
// the side data, moved in step.

module RecipeReader {
  import opened Common
  import opened ByteStrings
  import opened Varints
  import opened Recipes

  class Reader {
    const body: seq<byte>
    const content: seq<byte>
    const side: seq<byte>
    // The base object, empty without one.
    const base: seq<byte>
    var pos: nat
    var at: nat
    var sideAt: nat

    ghost predicate Valid()
      reads this
    {
      pos <= |body| && at <= |content| && sideAt <= |side|
    }

    // What is still to be read.
    ghost function Left(): Rest
      requires Valid()
      reads this
    {
      Rest(body[pos..], content[at..], side[sideAt..])
    }

    constructor (inner: Inner, base: seq<byte>)
      ensures Valid() && Left() == Rest(inner.body, inner.content, inner.side) && this.base == base
    {
      body, content, side, this.base := inner.body, inner.content, inner.side, base;
      pos, at, sideAt := 0, 0, 0;
    }

    // A number: groups of seven bits, the lowest first. Numbers of up to three bytes that
    // do not stand at the very end come from one load.
    method Varint() returns (r: Option<nat>)
      requires Valid()
      modifies `pos
      ensures Valid()
      ensures match Num(old(Left()))
        case None => r == None
        case Some((v, rest)) => r == Some(v) && Left() == rest
    {
      hide LongVarint;
      if pos + 8 <= |body| {
        ShortVarints(body[pos..]);
        if body[pos] < 128 {
          r := Some(body[pos]);
          pos := pos + 1;
          return;
        }
        if body[pos + 1] < 128 {
          r := Some(body[pos] % 128 + body[pos + 1] as nat * 128);
          assert body[pos..][2..] == body[pos + 2..];
          pos := pos + 2;
          return;
        }
        if body[pos + 2] < 128 {
          r := Some(body[pos] % 128 + body[pos + 1] as nat % 128 * 128 + body[pos + 2] as nat * 16384);
          assert body[pos..][3..] == body[pos + 3..];
          pos := pos + 3;
          return;
        }
      }
      r := VarintBytewise();
    }

    method VarintBytewise() returns (r: Option<nat>)
      requires Valid()
      modifies `pos
      ensures Valid()
      ensures match Num(old(Left()))
        case None => r == None
        case Some((v, rest)) => r == Some(v) && Left() == rest
    {
      hide LongVarint, Pow2;
      ghost var start, whole := pos, LongVarint(body[pos..], 0);
      var v: nat, shift: nat := 0, 0;
      while pos < |body|
        invariant start <= pos <= |body| && shift <= 63
        invariant whole ==
          match LongVarint(body[pos..], shift) case None => None case Some((x, n)) => Some((v + x, pos - start + n))
        decreases |body| - pos
      {
        LongVarintStep(body[pos..], shift);
        var b := body[pos];
        assert body[pos..][1..] == body[pos + 1..];
        pos := pos + 1;
        if b < 128 {
          assert body[start..][pos - start..] == body[pos..];
          return Some(v + b * Pow2(shift) % WORD64);
        }
        v := v + b % 128 * Pow2(shift);
        shift := shift + 7;
        if shift > 63 { return None; }
      }
      LongVarintStep(body[pos..], shift);
      return None;
    }

    method FixedBytes(n: nat) returns (r: Option<seq<byte>>)
      requires Valid()
      modifies `pos
      ensures Valid()
      ensures match Fixed(old(Left()), n)
        case None => r == None
        case Some((s, rest)) => r == Some(s) && Left() == rest
    {
      if pos + n > |body| { return None; }
      r := Some(body[pos..pos + n]);
      Taken(body, pos, n);
      pos := pos + n;
    }

    method ContentBytes(n: nat) returns (r: Option<seq<byte>>)
      requires Valid()
      modifies `at
      ensures Valid()
      ensures match Content(old(Left()), n)
        case None => r == None
        case Some((s, rest)) => r == Some(s) && Left() == rest
    {
      if at + n > |content| { return None; }
      r := Some(content[at..at + n]);
      Taken(content, at, n);
      at := at + n;
    }

    method SideBytes(n: nat) returns (r: Option<seq<byte>>)
      requires Valid()
      modifies `sideAt
      ensures Valid()
      ensures match Side(old(Left()), n)
        case None => r == None
        case Some((s, rest)) => r == Some(s) && Left() == rest
    {
      if sideAt + n > |side| { return None; }
      r := Some(side[sideAt..sideAt + n]);
      Taken(side, sideAt, n);
      sideAt := sideAt + n;
    }

    method TwoVarints() returns (r: Option<(nat, nat)>)
      requires Valid()
      modifies this
      ensures Valid()
      ensures match TwoNums(old(Left()))
        case None => r == None
        case Some((a, b, rest)) => r == Some((a, b)) && Left() == rest
    {
      hide Num;
      var a := Varint();
      if a.None? { return None; }
      var b := Varint();
      if b.None? { return None; }
      return Some((a.value, b.value));
    }

    method InnerContainer() returns (r: Option<Inner>)
      requires Valid()
      modifies this
      ensures Valid()
      ensures match ReadInner(old(Left()))
        case None => r == None
        case Some((i, rest)) => r == Some(i) && Left() == rest
    {
      hide TwoNums, Fixed, Content, Side;
      var head := TwoVarints();
      if head.None? { return None; }
      var b := FixedBytes(head.value.1);
      if b.None? { return None; }
      var sizes := TwoVarints();
      if sizes.None? { return None; }
      var c := ContentBytes(sizes.value.0);
      if c.None? { return None; }
      var s := SideBytes(sizes.value.1);
      if s.None? { return None; }
      return Some(Inner(head.value.0, b.value, c.value, s.value));
    }

    method ChunkList(k: nat) returns (r: Option<seq<(nat, seq<byte>)>>)
      requires Valid()
      modifies this
      ensures Valid()
      ensures match ReadChunks(old(Left()), k)
        case None => r == None
        case Some((chunks, rest)) => r == Some(chunks) && Left() == rest
    {
      hide Num, Fixed, ReadChunks, Goes;
      ghost var whole := ReadChunks(Left(), k);
      var chunks: seq<(nat, seq<byte>)> := [];
      GoesStart(whole);
      for i := 0 to k
        invariant Valid() && Goes(whole, chunks, ReadChunks(Left(), k - i))
      {
        ChunksStep(Left(), k - i);
        var len := Varint();
        if len.None? {
          GoesNowhere(whole, chunks);
          return None;
        }
        var crc := FixedBytes(4);
        if crc.None? {
          GoesNowhere(whole, chunks);
          return None;
        }
        GoesOn(whole, chunks, (len.value, crc.value), ReadChunks(Left(), k - i - 1));
        chunks := chunks + [(len.value, crc.value)];
      }
      NoneLeft(base, Left());
      GoesEnd(whole, chunks, Left());
      return Some(chunks);
    }

    method SideContentBytes(c: nat, t: nat) returns (r: Option<(seq<byte>, seq<byte>)>)
      requires Valid()
      modifies this
      ensures Valid()
      ensures match SideThenContent(old(Left()), c, t)
        case None => r == None
        case Some((a, b, rest)) => r == Some((a, b)) && Left() == rest
    {
      hide Side, Content;
      var a := SideBytes(c);
      if a.None? { return None; }
      var b := ContentBytes(t);
      if b.None? { return None; }
      return Some((a.value, b.value));
    }

    method SizedSideBytes() returns (r: Option<seq<byte>>)
      requires Valid()
      modifies this
      ensures Valid()
      ensures match SizedSide(old(Left()))
        case None => r == None
        case Some((a, rest)) => r == Some(a) && Left() == rest
    {
      hide Num, Side;
      var n := Varint();
      if n.None? { return None; }
      r := SideBytes(n.value);
    }

    method SizedContentBytes() returns (r: Option<seq<byte>>)
      requires Valid()
      modifies this
      ensures Valid()
      ensures match SizedContent(old(Left()))
        case None => r == None
        case Some((a, rest)) => r == Some(a) && Left() == rest
    {
      hide Num, Content;
      var n := Varint();
      if n.None? { return None; }
      r := ContentBytes(n.value);
    }

    method OnePiece() returns (r: Option<Piece>)
      requires Valid()
      modifies this
      ensures Valid()
      ensures match ReadPiece(old(Left()))
        case None => r == None
        case Some((p, rest)) => r == Some(p) && Left() == rest
    {
      hide TwoNums, Fixed, Side;
      var sizes := TwoVarints();
      if sizes.None? { return None; }
      var bit := FixedBytes(1);
      if bit.None? { return None; }
      var corrections := SideBytes(sizes.value.1);
      if corrections.None? { return None; }
      return Some(Piece(sizes.value.0, corrections.value, bit.value[0]));
    }

    // The pieces of a stream opened in pieces.
    method Pieces() returns (r: Option<seq<Piece>>)
      requires Valid()
      modifies this
      ensures Valid()
      ensures match PieceList(old(Left()))
        case None => r == None
        case Some((pieces, rest)) => r == Some(pieces) && Left() == rest
    {
      hide Num, ReadPiece, ReadPieces, Goes;
      var k := Varint();
      if k.None? { return None; }
      ghost var whole := ReadPieces(Left(), k.value);
      var pieces: seq<Piece> := [];
      GoesStart(whole);
      for i := 0 to k.value
        invariant Valid() && Goes(whole, pieces, ReadPieces(Left(), k.value - i))
      {
        PiecesStep(Left(), k.value - i);
        var p := OnePiece();
        if p.None? {
          GoesNowhere(whole, pieces);
          return None;
        }
        GoesOn(whole, pieces, p.value, ReadPieces(Left(), k.value - i - 1));
        pieces := pieces + [p.value];
      }
      NoneLeft(base, Left());
      GoesEnd(whole, pieces, Left());
      return Some(pieces);
    }

    // The kinds opened in pieces, and the one against the base object.
    method PiecedSegment(tag: byte) returns (r: Option<Seg>)
      requires Valid() && (tag == DEFLATE_CHUNKED || tag == DEFLATE_NESTED_CHUNKED || tag == TENSOR_DELTA)
      modifies this
      ensures Valid()
      ensures match ReadFields(tag, base, old(Left()))
        case None => r == None
        case Some((s, rest)) => r == Some(s) && Left() == rest
    {
      hide PieceList, SizedContent, ReadInner, Fixed, TwoNums, Content;
      if tag == TENSOR_DELTA {
        var width := FixedBytes(1);
        if width.None? { return None; }
        var sizes := TwoVarints();
        if sizes.None? { return None; }
        var (t, from) := sizes.value;
        if from + t > |base| { return None; }
        var text := ContentBytes(t);
        if text.None? { return None; }
        return Some(Delta(width.value[0], from, base[from..from + t], text.value));
      }
      var pieces := Pieces();
      if pieces.None? { return None; }
      if tag == DEFLATE_CHUNKED {
        var text := SizedContentBytes();
        if text.None? { return None; }
        return Some(Chunked(pieces.value, text.value));
      }
      var inner := InnerContainer();
      if inner.None? { return None; }
      return Some(WrappedChunked(pieces.value, inner.value));
    }

    method ImageSegment(tag: byte) returns (r: Option<Seg>)
      requires Valid()
      modifies this
      ensures Valid()
      ensures match ReadImage(tag, old(Left()))
        case None => r == None
        case Some((s, rest)) => r == Some(s) && Left() == rest
    {
      hide Num, Fixed, TwoNums, ReadChunks, SideThenContent;
      var header := FixedBytes(2);
      if header.None? { return None; }
      var sizes := TwoVarints();
      if sizes.None? { return None; }
      var adler := FixedBytes(4);
      if adler.None? { return None; }
      var k := Varint();
      if k.None? { return None; }
      var chunks := ChunkList(k.value);
      if chunks.None? { return None; }
      var both := SideContentBytes(sizes.value.0, sizes.value.1);
      if both.None? { return None; }
      return Some(Image(tag, header.value, both.value.0, both.value.1, adler.value, chunks.value));
    }

    // The fields of the kinds that start with a build byte.
    method BuildSegment(tag: byte) returns (r: Option<Seg>)
      requires Valid() && (IsFrame(tag) || IsModeled(tag) || tag == ZSTD_NESTED)
      modifies this
      ensures Valid()
      ensures match ReadFields(tag, base, old(Left()))
        case None => r == None
        case Some((s, rest)) => r == Some(s) && Left() == rest
    {
      hide Num, Fixed, TwoNums, SideThenContent, SizedContent, ReadInner;
      var build := FixedBytes(1);
      if build.None? { return None; }
      if tag == ZSTD_NESTED {
        var inner := InnerContainer();
        if inner.None? { return None; }
        return Some(FrameHeld(build.value[0], inner.value));
      }
      if IsFrame(tag) {
        var text := SizedContentBytes();
        if text.None? { return None; }
        return Some(Frame(tag, build.value[0], text.value));
      }
      var sizes := TwoVarints();
      if sizes.None? { return None; }
      var both := SideContentBytes(sizes.value.0, sizes.value.1);
      if both.None? { return None; }
      return Some(Modeled(tag, build.value[0], both.value.0, both.value.1));
    }

    method Segment() returns (r: Option<Seg>)
      requires Valid()
      modifies this
      ensures Valid()
      ensures match ReadSeg(base, old(Left()))
        case None => r == None
        case Some((s, rest)) => r == Some(s) && Left() == rest
    {
      hide Num, Fixed, TwoNums, SideThenContent, SizedSide, SizedContent, Side, Content, ReadInner, ReadImage, PieceList, ReadDelta;
      if pos >= |body| { return None; }
      var tag := body[pos];
      assert body[pos..][1..] == body[pos + 1..];
      pos := pos + 1;
      if IsFrame(tag) || IsModeled(tag) || tag == ZSTD_NESTED {
        r := BuildSegment(tag);
      } else if IsImage(tag) {
        r := ImageSegment(tag);
      } else if IsWhole(tag) {
        var data := SizedSideBytes();
        if data.None? { return None; }
        r := Some(Whole(tag, data.value));
      } else if IsStream(tag) {
        var sizes := TwoVarints();
        if sizes.None? { return None; }
        var both := SideContentBytes(sizes.value.0, sizes.value.1);
        if both.None? { return None; }
        r := Some(Stream(tag, both.value.0, both.value.1));
      } else {
        r := OtherSegment(tag);
      }
    }

    method OtherSegment(tag: byte) returns (r: Option<Seg>)
      requires Valid() && !IsFrame(tag) && !IsModeled(tag) && tag != ZSTD_NESTED
      requires !IsImage(tag) && !IsWhole(tag) && !IsStream(tag)
      modifies this
      ensures Valid()
      ensures match ReadFields(tag, base, old(Left()))
        case None => r == None
        case Some((s, rest)) => r == Some(s) && Left() == rest
    {
      hide Num, Fixed, TwoNums, SizedSide, SizedContent, Side, Content, ReadInner, PieceList, ReadDelta;
      if IsPicture(tag) {
        var sizes := TwoVarints();
        if sizes.None? { return None; }
        var recipe := SideBytes(sizes.value.0);
        if recipe.None? { return None; }
        var lepton := SideBytes(sizes.value.1);
        if lepton.None? { return None; }
        r := Some(Picture(tag, recipe.value, lepton.value));
      } else if IsWrapped(tag) {
        var recipe := SizedSideBytes();
        if recipe.None? { return None; }
        var inner := InnerContainer();
        if inner.None? { return None; }
        r := Some(Wrapped(tag, recipe.value, inner.value));
      } else if tag == NESTED {
        var inner := InnerContainer();
        if inner.None? { return None; }
        r := Some(Held(inner.value));
      } else if tag == DEFLATE_CHUNKED || tag == DEFLATE_NESTED_CHUNKED || tag == TENSOR_DELTA {
        r := PiecedSegment(tag);
      } else {
        r := None;
      }
    }
  }

  lemma Taken(s: seq<byte>, at: nat, n: nat)
    requires at + n <= |s|
    ensures s[at..][..n] == s[at..at + n] && s[at..][n..] == s[at + n..]
  {
  }

  // What the first bytes say when the number ends with them.
  lemma ShortVarints(s: seq<byte>)
    requires |s| >= 3
    ensures s[0] < 128 ==> LongVarint(s, 0) == Some((s[0], 1))
    ensures s[0] >= 128 && s[1] < 128 ==> LongVarint(s, 0) == Some((s[0] % 128 + s[1] as nat * 128, 2))
    ensures s[0] >= 128 && s[1] >= 128 && s[2] < 128 ==>
      LongVarint(s, 0) == Some((s[0] % 128 + s[1] as nat % 128 * 128 + s[2] as nat * 16384, 3))
  {
    hide LongVarint, Pow2;
    GroupScales();
    LongVarintStep(s, 0);
    LongVarintStep(s[1..], 7);
    LongVarintStep(s[2..], 14);
    assert s[1..][1..] == s[2..];
  }

  lemma GroupScales()
    ensures Pow2(0) == 1 && Pow2(7) == 128 && Pow2(14) == 16384
  {
    Pow2Add(7, 7);
    SevenBits();
  }

  // What the whole list reads as, when done is read and rest is how the others read.
  ghost predicate Goes<T>(whole: Option<(seq<T>, Rest)>, done: seq<T>, rest: Option<(seq<T>, Rest)>) {
    whole == match rest case None => None case Some((xs, r)) => Some((done + xs, r))
  }

  lemma GoesStart<T>(whole: Option<(seq<T>, Rest)>)
    ensures Goes(whole, [], whole)
  {
    if whole.Some? { assert [] + whole.value.0 == whole.value.0; }
  }

  lemma GoesOn<T>(whole: Option<(seq<T>, Rest)>, done: seq<T>, x: T, rest: Option<(seq<T>, Rest)>)
    requires Goes(whole, done, match rest case None => None case Some((xs, r)) => Some(([x] + xs, r)))
    ensures Goes(whole, done + [x], rest)
  {
    if rest.Some? { Assoc(done, [x], rest.value.0); }
  }

  lemma GoesNowhere<T>(whole: Option<(seq<T>, Rest)>, done: seq<T>)
    ensures Goes(whole, done, None) ==> whole == None
  {
  }

  lemma GoesEnd<T>(whole: Option<(seq<T>, Rest)>, done: seq<T>, r: Rest)
    ensures Goes(whole, done, Some(([], r))) ==> whole == Some((done, r))
  {
    assert done + [] == done;
  }

  lemma NoneLeft(base: seq<byte>, r: Rest)
    ensures ReadChunks(r, 0) == Some(([], r)) && ReadPieces(r, 0) == Some(([], r)) && ReadSegs(base, r, 0) == Some(([], r))
  {
  }

  lemma ChunksStep(r: Rest, k: nat)
    requires k > 0
    ensures ReadChunks(r, k) ==
      match Num(r)
      case None => None
      case Some((len, r)) =>
        match Fixed(r, 4)
        case None => None
        case Some((crc, r)) =>
          match ReadChunks(r, k - 1)
          case None => None
          case Some((chunks, r)) => Some(([(len, crc)] + chunks, r))
  {
  }

  lemma PiecesStep(r: Rest, k: nat)
    requires k > 0
    ensures ReadPieces(r, k) ==
      match ReadPiece(r)
      case None => None
      case Some((p, r)) =>
        match ReadPieces(r, k - 1)
        case None => None
        case Some((pieces, r)) => Some(([p] + pieces, r))
  {
  }

  lemma SegsStep(base: seq<byte>, r: Rest, n: nat)
    requires n > 0
    ensures ReadSegs(base, r, n) ==
      match ReadSeg(base, r)
      case None => None
      case Some((s, r)) =>
        match ReadSegs(base, r, n - 1)
        case None => None
        case Some((ss, r)) => Some(([s] + ss, r))
  {
  }

  // All segments of a container; None unless body, content and side are used up together.
  method ReadSegments(inner: Inner, base: seq<byte>) returns (r: Option<seq<Seg>>)
    ensures r == Segments(inner, base)
  {
    hide ReadSeg, ReadSegs, Goes;
    var reader := new Reader(inner, base);
    var out: seq<Seg> := [];
    ghost var whole := ReadSegs(base, reader.Left(), inner.segments);
    GoesStart(whole);
    for i := 0 to inner.segments
      invariant reader.Valid() && reader.base == base
      invariant Goes(whole, out, ReadSegs(base, reader.Left(), inner.segments - i))
    {
      SegsStep(base, reader.Left(), inner.segments - i);
      var s := reader.Segment();
      if s.None? {
        GoesNowhere(whole, out);
        return None;
      }
      GoesOn(whole, out, s.value, ReadSegs(base, reader.Left(), inner.segments - i - 1));
      out := out + [s.value];
    }
    NoneLeft(base, reader.Left());
    GoesEnd(whole, out, reader.Left());
    if reader.pos == |reader.body| && reader.at == |reader.content| && reader.sideAt == |reader.side| { return Some(out); }
    return None;
  }
}
