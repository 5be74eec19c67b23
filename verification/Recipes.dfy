// src/deflate.rs, the recipe: segments as bytes of a recipe body, of the content and of
// the side data, and the reader that takes them off the three in step.

module Recipes {
  import opened Common
  import opened ByteStrings
  import opened Varints

  const KEEP: byte := 0
  const DEFLATE: byte := 1
  const PNG_IMAGE: byte := 2
  const JPEG: byte := 3
  const DEFLATE_JPEG: byte := 4
  const DEFLATE_NESTED: byte := 5
  const NESTED: byte := 6
  const DEFLATE_CHUNKED: byte := 7
  const DEFLATE_NESTED_CHUNKED: byte := 8
  const REFLATE: byte := 9
  const REFLATE_NESTED: byte := 10
  const PNG_REFLATE: byte := 11
  const REFLATE_JPEG: byte := 12
  const SNAPPY_PAGE: byte := 13
  const SNAPPY_MODELED: byte := 14
  const ZSTD_FRAME: byte := 15
  const ZSTD_MODELED: byte := 16
  const ZSTD_NESTED: byte := 17
  const TENSOR_PLANES: byte := 18
  const TENSOR_DELTA: byte := 19

  // A container of a recipe: its segments' count and bytes, its content and its side.
  datatype Inner = Inner(segments: nat, body: seq<byte>, content: seq<byte>, side: seq<byte>)

  // A piece of a stream opened in pieces: the length of its text, its corrections, and the
  // bit of a byte it starts at.
  datatype Piece = Piece(plain: nat, corrections: seq<byte>, bit: byte)

  // A parsed segment. Kinds with the same fields share a constructor.
  datatype Seg =
    | Whole(tag: byte, data: seq<byte>)
    | Stream(tag: byte, recipe: seq<byte>, text: seq<byte>)
    | Picture(tag: byte, recipe: seq<byte>, lepton: seq<byte>)
    | Wrapped(tag: byte, recipe: seq<byte>, inner: Inner)
    | Held(inner: Inner)
    | Image(tag: byte, header: seq<byte>, recipe: seq<byte>, text: seq<byte>, adler: seq<byte>, chunks: seq<(nat, seq<byte>)>)
    | Frame(tag: byte, build: byte, text: seq<byte>)
    | Modeled(tag: byte, build: byte, recipe: seq<byte>, text: seq<byte>)
    | FrameHeld(build: byte, inner: Inner)
    | Chunked(pieces: seq<Piece>, text: seq<byte>)
    | WrappedChunked(pieces: seq<Piece>, inner: Inner)
    | Delta(width: byte, at: nat, against: seq<byte>, text: seq<byte>)

  predicate IsWhole(tag: byte) { tag == KEEP || tag == JPEG }
  predicate IsStream(tag: byte) { tag == DEFLATE || tag == REFLATE }
  predicate IsPicture(tag: byte) { tag == DEFLATE_JPEG || tag == REFLATE_JPEG }
  predicate IsWrapped(tag: byte) { tag == DEFLATE_NESTED || tag == REFLATE_NESTED }
  predicate IsImage(tag: byte) { tag == PNG_IMAGE || tag == PNG_REFLATE }
  predicate IsFrame(tag: byte) { tag == SNAPPY_PAGE || tag == ZSTD_FRAME || tag == TENSOR_PLANES }
  predicate IsModeled(tag: byte) { tag == SNAPPY_MODELED || tag == ZSTD_MODELED }

  // A number a varint can say.
  predicate Fits(n: nat) { n < WORD64 }

  predicate InnerFits(i: Inner) {
    Fits(i.segments) && Fits(|i.body|) && Fits(|i.content|) && Fits(|i.side|)
  }

  ghost predicate PiecesFit(pieces: seq<Piece>) {
    Fits(|pieces|) && forall i :: 0 <= i < |pieces| ==> Fits(pieces[i].plain) && Fits(|pieces[i].corrections|)
  }

  ghost predicate ChunksFit(chunks: seq<(nat, seq<byte>)>) {
    Fits(|chunks|) && forall i :: 0 <= i < |chunks| ==> Fits(chunks[i].0) && |chunks[i].1| == 4
  }

  // The segments there are, over a base object: their tags, and numbers a varint can say.
  ghost predicate WellFormed(s: Seg, base: seq<byte>) {
    match s
    case Whole(tag, data) => IsWhole(tag) && Fits(|data|)
    case Stream(tag, recipe, text) => IsStream(tag) && Fits(|recipe|) && Fits(|text|)
    case Picture(tag, recipe, lepton) => IsPicture(tag) && Fits(|recipe|) && Fits(|lepton|)
    case Wrapped(tag, recipe, inner) => IsWrapped(tag) && Fits(|recipe|) && InnerFits(inner)
    case Held(inner) => InnerFits(inner)
    case Image(tag, header, recipe, text, adler, chunks) =>
      IsImage(tag) && |header| == 2 && |adler| == 4 && Fits(|recipe|) && Fits(|text|) && ChunksFit(chunks)
    case Frame(tag, _, text) => IsFrame(tag) && Fits(|text|)
    case Modeled(tag, _, recipe, text) => IsModeled(tag) && Fits(|recipe|) && Fits(|text|)
    case FrameHeld(_, inner) => InnerFits(inner)
    case Chunked(pieces, text) => PiecesFit(pieces) && Fits(|text|)
    case WrappedChunked(pieces, inner) => PiecesFit(pieces) && InnerFits(inner)
    case Delta(_, at, against, text) =>
      Fits(at) && Fits(|text|) && at + |text| <= |base| && against == base[at..at + |text|]
  }

  // ---------------------------------------------------------------- reading

  // What is left of the three.
  datatype Rest = Rest(body: seq<byte>, content: seq<byte>, side: seq<byte>)

  function Num(r: Rest): (o: Option<(nat, Rest)>)
    ensures o.Some? ==> |o.value.1.body| < |r.body|
  {
    match LongVarint(r.body, 0)
    case None => None
    case Some((v, n)) => Some((v, r.(body := r.body[n..])))
  }

  function Fixed(r: Rest, n: nat): (o: Option<(seq<byte>, Rest)>)
    ensures o.Some? ==> |o.value.0| == n && |o.value.1.body| + n == |r.body|
  {
    if n > |r.body| then None else Some((r.body[..n], r.(body := r.body[n..])))
  }

  function Content(r: Rest, n: nat): (o: Option<(seq<byte>, Rest)>)
    ensures o.Some? ==> o.value.1.body == r.body
  {
    if n > |r.content| then None else Some((r.content[..n], r.(content := r.content[n..])))
  }

  function Side(r: Rest, n: nat): (o: Option<(seq<byte>, Rest)>)
    ensures o.Some? ==> o.value.1.body == r.body
  {
    if n > |r.side| then None else Some((r.side[..n], r.(side := r.side[n..])))
  }

  function TwoNums(r: Rest): (o: Option<(nat, nat, Rest)>)
    ensures o.Some? ==> |o.value.2.body| < |r.body|
  {
    match Num(r)
    case None => None
    case Some((a, r)) =>
      match Num(r)
      case None => None
      case Some((b, r)) => Some((a, b, r))
  }

  function ReadInner(r: Rest): (o: Option<(Inner, Rest)>)
    ensures o.Some? ==> |o.value.0.body| + |o.value.1.body| < |r.body|
  {
    match TwoNums(r)
    case None => None
    case Some((segments, len, r)) =>
      match Fixed(r, len)
      case None => None
      case Some((body, r)) =>
        match TwoNums(r)
        case None => None
        case Some((clen, slen, r)) =>
          match Content(r, clen)
          case None => None
          case Some((content, r)) =>
            match Side(r, slen)
            case None => None
            case Some((side, r)) => Some((Inner(segments, body, content, side), r))
  }

  function ReadChunks(r: Rest, k: nat): (o: Option<(seq<(nat, seq<byte>)>, Rest)>)
    ensures o.Some? ==> |o.value.1.body| <= |r.body|
    decreases k
  {
    if k == 0 then Some(([], r))
    else
      match Num(r)
      case None => None
      case Some((len, r)) =>
        match Fixed(r, 4)
        case None => None
        case Some((crc, r)) =>
          match ReadChunks(r, k - 1)
          case None => None
          case Some((chunks, r)) => Some(([(len, crc)] + chunks, r))
  }

  function ReadPieces(r: Rest, k: nat): (o: Option<(seq<Piece>, Rest)>)
    ensures o.Some? ==> |o.value.1.body| <= |r.body|
    decreases k
  {
    if k == 0 then Some(([], r))
    else
      match ReadPiece(r)
      case None => None
      case Some((piece, r)) =>
        match ReadPieces(r, k - 1)
        case None => None
        case Some((pieces, r)) => Some(([piece] + pieces, r))
  }

  function ReadPiece(r: Rest): (o: Option<(Piece, Rest)>)
    ensures o.Some? ==> |o.value.1.body| < |r.body|
  {
    match TwoNums(r)
    case None => None
    case Some((plain, c, r)) =>
      match Fixed(r, 1)
      case None => None
      case Some((bit, r)) =>
        match Side(r, c)
        case None => None
        case Some((corrections, r)) => Some((Piece(plain, corrections, bit[0]), r))
  }

  function PieceList(r: Rest): (o: Option<(seq<Piece>, Rest)>)
    ensures o.Some? ==> |o.value.1.body| < |r.body|
  {
    match Num(r)
    case None => None
    case Some((k, r)) => ReadPieces(r, k)
  }

  // A length, and as much content.
  function SizedContent(r: Rest): (o: Option<(seq<byte>, Rest)>)
    ensures o.Some? ==> |o.value.1.body| < |r.body|
  {
    match Num(r)
    case None => None
    case Some((t, r)) => Content(r, t)
  }

  // A length, and as much side data.
  function SizedSide(r: Rest): (o: Option<(seq<byte>, Rest)>)
    ensures o.Some? ==> |o.value.1.body| < |r.body|
  {
    match Num(r)
    case None => None
    case Some((n, r)) => Side(r, n)
  }

  // Two lengths, then side data and content.
  function SideThenContent(r: Rest, c: nat, t: nat): (o: Option<(seq<byte>, seq<byte>, Rest)>)
    ensures o.Some? ==> o.value.2.body == r.body
  {
    match Side(r, c)
    case None => None
    case Some((a, r)) =>
      match Content(r, t)
      case None => None
      case Some((b, r)) => Some((a, b, r))
  }

  function ReadImage(tag: byte, r: Rest): (o: Option<(Seg, Rest)>)
    ensures o.Some? ==> |o.value.1.body| < |r.body| && o.value.0.Image?
  {
    match Fixed(r, 2)
    case None => None
    case Some((header, r)) =>
      match TwoNums(r)
      case None => None
      case Some((c, t, r)) =>
        match Fixed(r, 4)
        case None => None
        case Some((adler, r)) =>
          match Num(r)
          case None => None
          case Some((k, r)) =>
            match ReadChunks(r, k)
            case None => None
            case Some((chunks, r)) =>
              match SideThenContent(r, c, t)
              case None => None
              case Some((side, text, r)) => Some((Image(tag, header, side, text, adler, chunks), r))
  }

  function ReadDelta(base: seq<byte>, r: Rest): (o: Option<(Seg, Rest)>)
    ensures o.Some? ==> |o.value.1.body| < |r.body| && o.value.0.Delta?
  {
    match Fixed(r, 1)
    case None => None
    case Some((width, r)) =>
      match TwoNums(r)
      case None => None
      case Some((t, at, r)) =>
        if at + t > |base| then None
        else
          match Content(r, t)
          case None => None
          case Some((text, r)) => Some((Delta(width[0], at, base[at..at + t], text), r))
  }

  // The size of a segment's inner container; zero without one.
  function InnerSize(s: Seg): nat {
    match s
    case Wrapped(_, _, inner) => |inner.body|
    case Held(inner) => |inner.body|
    case FrameHeld(_, inner) => |inner.body|
    case WrappedChunked(_, inner) => |inner.body|
    case _ => 0
  }

  // The fields behind a tag.
  function ReadFields(tag: byte, base: seq<byte>, r: Rest): (o: Option<(Seg, Rest)>)
    ensures o.Some? ==> InnerSize(o.value.0) + |o.value.1.body| <= |r.body|
  {
    if IsWhole(tag) then
      match SizedSide(r)
      case None => None
      case Some((data, r)) => Some((Whole(tag, data), r))
    else if IsStream(tag) then
      match TwoNums(r)
      case None => None
      case Some((c, t, r)) =>
        (match SideThenContent(r, c, t)
         case None => None
         case Some((recipe, text, r)) => Some((Stream(tag, recipe, text), r)))
    else if IsPicture(tag) then
      match TwoNums(r)
      case None => None
      case Some((c, l, r)) =>
        (match Side(r, c)
         case None => None
         case Some((recipe, r)) =>
           match Side(r, l)
           case None => None
           case Some((lepton, r)) => Some((Picture(tag, recipe, lepton), r)))
    else if IsWrapped(tag) then
      match SizedSide(r)
      case None => None
      case Some((recipe, r)) =>
        (match ReadInner(r)
         case None => None
         case Some((inner, r)) => Some((Wrapped(tag, recipe, inner), r)))
    else if tag == NESTED then
      match ReadInner(r)
      case None => None
      case Some((inner, r)) => Some((Held(inner), r))
    else if IsImage(tag) then ReadImage(tag, r)
    else if IsFrame(tag) then
      match Fixed(r, 1)
      case None => None
      case Some((build, r)) =>
        (match SizedContent(r)
         case None => None
         case Some((text, r)) => Some((Frame(tag, build[0], text), r)))
    else if IsModeled(tag) then
      match Fixed(r, 1)
      case None => None
      case Some((build, r)) =>
        (match TwoNums(r)
         case None => None
         case Some((c, t, r)) =>
           match SideThenContent(r, c, t)
           case None => None
           case Some((recipe, text, r)) => Some((Modeled(tag, build[0], recipe, text), r)))
    else if tag == ZSTD_NESTED then
      match Fixed(r, 1)
      case None => None
      case Some((build, r)) =>
        (match ReadInner(r)
         case None => None
         case Some((inner, r)) => Some((FrameHeld(build[0], inner), r)))
    else if tag == DEFLATE_CHUNKED then
      match PieceList(r)
      case None => None
      case Some((pieces, r)) =>
        (match SizedContent(r)
         case None => None
         case Some((text, r)) => Some((Chunked(pieces, text), r)))
    else if tag == DEFLATE_NESTED_CHUNKED then
      match PieceList(r)
      case None => None
      case Some((pieces, r)) =>
        (match ReadInner(r)
         case None => None
         case Some((inner, r)) => Some((WrappedChunked(pieces, inner), r)))
    else if tag == TENSOR_DELTA then ReadDelta(base, r)
    else None
  }

  function ReadSeg(base: seq<byte>, r: Rest): (o: Option<(Seg, Rest)>)
    ensures o.Some? ==> InnerSize(o.value.0) + |o.value.1.body| < |r.body|
  {
    if r.body == [] then None else ReadFields(r.body[0], base, r.(body := r.body[1..]))
  }

  function ReadSegs(base: seq<byte>, r: Rest, n: nat): (o: Option<(seq<Seg>, Rest)>)
    ensures o.Some? ==> |o.value.0| == n && |o.value.1.body| <= |r.body|
    ensures o.Some? ==> forall i :: 0 <= i < n ==> InnerSize(o.value.0[i]) < |r.body|
    decreases n
  {
    if n == 0 then Some(([], r))
    else
      match ReadSeg(base, r)
      case None => None
      case Some((s, r')) =>
        match ReadSegs(base, r', n - 1)
        case None => None
        case Some((ss, r'')) => Some(([s] + ss, r''))
  }

  // All segments of a container over a base object (empty without one); None unless body,
  // content and side are used up.
  function Segments(inner: Inner, base: seq<byte>): (o: Option<seq<Seg>>)
    ensures o.Some? ==> forall i :: 0 <= i < |o.value| ==> InnerSize(o.value[i]) < |inner.body|
  {
    match ReadSegs(base, Rest(inner.body, inner.content, inner.side), inner.segments)
    case None => None
    case Some((ss, r)) => if r == Rest([], [], []) then Some(ss) else None
  }

  // ---------------------------------------------------------------- writing

  function After(a: Rest, b: Rest): Rest {
    Rest(a.body + b.body, a.content + b.content, a.side + b.side)
  }

  function InnerBytes(i: Inner): Rest {
    Rest(VarintBytes(i.segments) + VarintBytes(|i.body|) + i.body + VarintBytes(|i.content|) + VarintBytes(|i.side|),
         i.content, i.side)
  }

  function ChunkBytes(chunks: seq<(nat, seq<byte>)>): seq<byte> {
    if chunks == [] then [] else VarintBytes(chunks[0].0) + chunks[0].1 + ChunkBytes(chunks[1..])
  }

  function PieceBytes(pieces: seq<Piece>): seq<byte> {
    if pieces == [] then []
    else VarintBytes(pieces[0].plain) + VarintBytes(|pieces[0].corrections|) + [pieces[0].bit] + PieceBytes(pieces[1..])
  }

  function PieceSides(pieces: seq<Piece>): seq<byte> {
    if pieces == [] then [] else pieces[0].corrections + PieceSides(pieces[1..])
  }

  function PieceFields(pieces: seq<Piece>): (r: Rest)
    ensures r.content == []
  {
    Rest(VarintBytes(|pieces|) + PieceBytes(pieces), [], PieceSides(pieces))
  }

  // The fields of a segment.
  function Fields(s: Seg): Rest {
    match s
    case Whole(_, data) => Rest(VarintBytes(|data|), [], data)
    case Stream(_, recipe, text) => Rest(VarintBytes(|recipe|) + VarintBytes(|text|), text, recipe)
    case Picture(_, recipe, lepton) => Rest(VarintBytes(|recipe|) + VarintBytes(|lepton|), [], recipe + lepton)
    case Wrapped(_, recipe, inner) => After(Rest(VarintBytes(|recipe|), [], recipe), InnerBytes(inner))
    case Held(inner) => InnerBytes(inner)
    case Image(_, header, recipe, text, adler, chunks) =>
      Rest(header + VarintBytes(|recipe|) + VarintBytes(|text|) + adler + VarintBytes(|chunks|) + ChunkBytes(chunks), text, recipe)
    case Frame(_, build, text) => Rest([build] + VarintBytes(|text|), text, [])
    case Modeled(_, build, recipe, text) => Rest([build] + VarintBytes(|recipe|) + VarintBytes(|text|), text, recipe)
    case FrameHeld(build, inner) => After(Rest([build], [], []), InnerBytes(inner))
    case Chunked(pieces, text) => After(PieceFields(pieces), Rest(VarintBytes(|text|), text, []))
    case WrappedChunked(pieces, inner) => After(PieceFields(pieces), InnerBytes(inner))
    case Delta(width, at, _, text) => Rest([width] + VarintBytes(|text|) + VarintBytes(at), text, [])
  }

  function TagOf(s: Seg): byte {
    match s
    case Held(_) => NESTED
    case FrameHeld(_, _) => ZSTD_NESTED
    case Chunked(_, _) => DEFLATE_CHUNKED
    case WrappedChunked(_, _) => DEFLATE_NESTED_CHUNKED
    case Delta(_, _, _, _) => TENSOR_DELTA
    case _ => s.tag
  }

  function Written(s: Seg): Rest {
    After(Rest([TagOf(s)], [], []), Fields(s))
  }

  function AllWritten(ss: seq<Seg>): Rest {
    if ss == [] then Rest([], [], []) else After(Written(ss[0]), AllWritten(ss[1..]))
  }

  ghost predicate AllWellFormed(ss: seq<Seg>, base: seq<byte>) {
    forall i :: 0 <= i < |ss| ==> WellFormed(ss[i], base)
  }

  // ---------------------------------------------------------------- written, then read

  lemma NumReads(v: nat, r: Rest)
    requires Fits(v)
    ensures Num(r.(body := VarintBytes(v) + r.body)) == Some((v, r))
  {
    hide LongVarint, VarintBytes;
    LongVarintReads(v, r.body);
    assert (VarintBytes(v) + r.body)[|VarintBytes(v)|..] == r.body;
  }

  lemma FixedReads(s: seq<byte>, r: Rest)
    ensures Fixed(r.(body := s + r.body), |s|) == Some((s, r))
  {
    assert (s + r.body)[..|s|] == s && (s + r.body)[|s|..] == r.body;
  }

  lemma ContentReads(s: seq<byte>, r: Rest)
    ensures Content(r.(content := s + r.content), |s|) == Some((s, r))
  {
    assert (s + r.content)[..|s|] == s && (s + r.content)[|s|..] == r.content;
  }

  lemma SideReads(s: seq<byte>, r: Rest)
    ensures Side(r.(side := s + r.side), |s|) == Some((s, r))
  {
    assert (s + r.side)[..|s|] == s && (s + r.side)[|s|..] == r.side;
  }

  lemma TwoNumsRead(a: nat, b: nat, r: Rest)
    requires Fits(a) && Fits(b)
    ensures TwoNums(r.(body := VarintBytes(a) + VarintBytes(b) + r.body)) == Some((a, b, r))
  {
    hide Num, VarintBytes;
    Assoc(VarintBytes(a), VarintBytes(b), r.body);
    NumReads(b, r);
    NumReads(a, r.(body := VarintBytes(b) + r.body));
  }

  lemma InnerReads(i: Inner, r: Rest)
    requires InnerFits(i)
    ensures ReadInner(After(InnerBytes(i), r)) == Some((i, r))
  {
    hide VarintBytes, TwoNums, Fixed, Content, Side;
    var r1 := r.(side := i.side + r.side);
    var r2 := r1.(content := i.content + r.content);
    var sizes := VarintBytes(|i.content|) + VarintBytes(|i.side|);
    var r3 := r2.(body := sizes + r.body);
    var r4 := r3.(body := i.body + r3.body);
    var head := VarintBytes(i.segments) + VarintBytes(|i.body|);
    SideReads(i.side, r);
    ContentReads(i.content, r1);
    TwoNumsRead(|i.content|, |i.side|, r2);
    FixedReads(i.body, r3);
    TwoNumsRead(i.segments, |i.body|, r4);
    assert After(InnerBytes(i), r).body == head + r4.body;
  }

  lemma {:induction false} ChunksRead(chunks: seq<(nat, seq<byte>)>, r: Rest)
    requires forall i :: 0 <= i < |chunks| ==> Fits(chunks[i].0) && |chunks[i].1| == 4
    ensures ReadChunks(r.(body := ChunkBytes(chunks) + r.body), |chunks|) == Some((chunks, r))
    decreases |chunks|
  {
    hide VarintBytes, Num, Fixed;
    if chunks == [] {
      assert [] + r.body == r.body;
    } else {
      var (len, crc) := chunks[0];
      var r1 := r.(body := ChunkBytes(chunks[1..]) + r.body);
      ChunksRead(chunks[1..], r);
      FixedReads(crc, r1);
      NumReads(len, r1.(body := crc + r1.body));
      assert ChunkBytes(chunks) + r.body == VarintBytes(len) + (crc + r1.body);
      assert [(len, crc)] + chunks[1..] == chunks;
    }
  }

  lemma SideContentReads(a: seq<byte>, b: seq<byte>, r: Rest)
    ensures SideThenContent(Rest(r.body, b + r.content, a + r.side), |a|, |b|) == Some((a, b, r))
  {
    hide Side, Content;
    ContentReads(b, r);
    SideReads(a, r.(content := b + r.content));
  }

  lemma SizedSideReads(a: seq<byte>, r: Rest)
    requires Fits(|a|)
    ensures SizedSide(Rest(VarintBytes(|a|) + r.body, r.content, a + r.side)) == Some((a, r))
  {
    hide Side, Num, VarintBytes;
    SideReads(a, r);
    NumReads(|a|, r.(side := a + r.side));
  }

  lemma SizedContentReads(a: seq<byte>, r: Rest)
    requires Fits(|a|)
    ensures SizedContent(Rest(VarintBytes(|a|) + r.body, a + r.content, r.side)) == Some((a, r))
  {
    hide Content, Num, VarintBytes;
    ContentReads(a, r);
    NumReads(|a|, r.(content := a + r.content));
  }

  lemma PieceReads(p: Piece, r: Rest)
    requires Fits(p.plain) && Fits(|p.corrections|)
    ensures ReadPiece(Rest(VarintBytes(p.plain) + VarintBytes(|p.corrections|) + [p.bit] + r.body, r.content, p.corrections + r.side))
      == Some((p, r))
  {
    hide VarintBytes, TwoNums, Fixed, Side;
    var r1 := r.(side := p.corrections + r.side);
    var r2 := r1.(body := [p.bit] + r.body);
    SideReads(p.corrections, r);
    FixedReads([p.bit], r1);
    TwoNumsRead(p.plain, |p.corrections|, r2);
    Assoc(VarintBytes(p.plain) + VarintBytes(|p.corrections|), [p.bit], r.body);
  }

  lemma {:induction false} PiecesRead(pieces: seq<Piece>, r: Rest)
    requires forall i :: 0 <= i < |pieces| ==> Fits(pieces[i].plain) && Fits(|pieces[i].corrections|)
    ensures ReadPieces(Rest(PieceBytes(pieces) + r.body, r.content, PieceSides(pieces) + r.side), |pieces|) == Some((pieces, r))
    decreases |pieces|
  {
    hide VarintBytes, ReadPiece;
    if pieces == [] {
      assert [] + r.body == r.body && [] + r.side == r.side;
    } else {
      var p, more := pieces[0], pieces[1..];
      var r1 := Rest(PieceBytes(more) + r.body, r.content, PieceSides(more) + r.side);
      PiecesRead(more, r);
      PieceReads(p, r1);
      Assoc(VarintBytes(p.plain) + VarintBytes(|p.corrections|) + [p.bit], PieceBytes(more), r.body);
      Assoc(p.corrections, PieceSides(more), r.side);
      assert [p] + more == pieces;
    }
  }

  lemma PieceListReads(pieces: seq<Piece>, r: Rest)
    requires PiecesFit(pieces)
    ensures PieceList(After(PieceFields(pieces), r)) == Some((pieces, r))
  {
    hide VarintBytes, ReadPieces, PieceBytes, PieceSides, Num;
    var r1 := Rest(PieceBytes(pieces) + r.body, r.content, PieceSides(pieces) + r.side);
    PiecesRead(pieces, r);
    NumReads(|pieces|, r1);
    Assoc(VarintBytes(|pieces|), PieceBytes(pieces), r.body);
    assert [] + r.content == r.content;
  }

  lemma ImageReads(s: Seg, base: seq<byte>, r: Rest)
    requires s.Image? && WellFormed(s, base)
    ensures ReadImage(s.tag, After(Fields(s), r)) == Some((s, r))
  {
    hide VarintBytes, TwoNums, Fixed, Num, ReadChunks, SideThenContent, ChunkBytes;
    var r1 := Rest(r.body, s.text + r.content, s.recipe + r.side);
    var r2 := r1.(body := ChunkBytes(s.chunks) + r1.body);
    var r3 := r2.(body := VarintBytes(|s.chunks|) + r2.body);
    var r4 := r3.(body := s.adler + r3.body);
    var nums := VarintBytes(|s.recipe|) + VarintBytes(|s.text|);
    var r5 := r4.(body := nums + r4.body);
    SideContentReads(s.recipe, s.text, r);
    ChunksRead(s.chunks, r1);
    NumReads(|s.chunks|, r2);
    FixedReads(s.adler, r3);
    TwoNumsRead(|s.recipe|, |s.text|, r4);
    FixedReads(s.header, r5);
    assert After(Fields(s), r).body == s.header + r5.body;
  }

  lemma AfterAssoc(a: Rest, b: Rest, c: Rest)
    ensures After(After(a, b), c) == After(a, After(b, c))
  {
    Assoc(a.body, b.body, c.body);
    Assoc(a.content, b.content, c.content);
    Assoc(a.side, b.side, c.side);
  }

  lemma WholeReads(s: Seg, base: seq<byte>, r: Rest)
    requires s.Whole? && WellFormed(s, base)
    ensures ReadFields(s.tag, base, After(Fields(s), r)) == Some((s, r))
  {
    hide VarintBytes, SizedSide;
    SizedSideReads(s.data, r);
    assert [] + r.content == r.content;
  }

  lemma StreamReads(s: Seg, base: seq<byte>, r: Rest)
    requires s.Stream? && WellFormed(s, base)
    ensures ReadFields(s.tag, base, After(Fields(s), r)) == Some((s, r))
  {
    hide VarintBytes, TwoNums, SideThenContent;
    SideContentReads(s.recipe, s.text, r);
    TwoNumsRead(|s.recipe|, |s.text|, Rest(r.body, s.text + r.content, s.recipe + r.side));
  }

  lemma PictureReads(s: Seg, base: seq<byte>, r: Rest)
    requires s.Picture? && WellFormed(s, base)
    ensures ReadFields(s.tag, base, After(Fields(s), r)) == Some((s, r))
  {
    hide VarintBytes, TwoNums, Side;
    SideReads(s.lepton, r);
    SideReads(s.recipe, r.(side := s.lepton + r.side));
    TwoNumsRead(|s.recipe|, |s.lepton|, r.(side := s.recipe + (s.lepton + r.side)));
    Assoc(s.recipe, s.lepton, r.side);
    assert [] + r.content == r.content;
  }

  lemma WrappedReads(s: Seg, base: seq<byte>, r: Rest)
    requires s.Wrapped? && WellFormed(s, base)
    ensures ReadFields(s.tag, base, After(Fields(s), r)) == Some((s, r))
  {
    hide VarintBytes, SizedSide, ReadInner, InnerBytes;
    var r1 := After(InnerBytes(s.inner), r);
    InnerReads(s.inner, r);
    SizedSideReads(s.recipe, r1);
    AfterAssoc(Rest(VarintBytes(|s.recipe|), [], s.recipe), InnerBytes(s.inner), r);
    assert [] + r1.content == r1.content;
  }

  lemma FrameReads(s: Seg, base: seq<byte>, r: Rest)
    requires s.Frame? && WellFormed(s, base)
    ensures ReadFields(s.tag, base, After(Fields(s), r)) == Some((s, r))
  {
    hide VarintBytes, Fixed, SizedContent;
    SizedContentReads(s.text, r);
    FixedReads([s.build], Rest(VarintBytes(|s.text|) + r.body, s.text + r.content, r.side));
    Assoc([s.build], VarintBytes(|s.text|), r.body);
    assert [] + r.side == r.side;
  }

  lemma ModeledReads(s: Seg, base: seq<byte>, r: Rest)
    requires s.Modeled? && WellFormed(s, base)
    ensures ReadFields(s.tag, base, After(Fields(s), r)) == Some((s, r))
  {
    hide VarintBytes, TwoNums, Fixed, SideThenContent;
    var r1 := Rest(r.body, s.text + r.content, s.recipe + r.side);
    var nums := VarintBytes(|s.recipe|) + VarintBytes(|s.text|);
    SideContentReads(s.recipe, s.text, r);
    TwoNumsRead(|s.recipe|, |s.text|, r1);
    FixedReads([s.build], r1.(body := nums + r.body));
    assert [s.build] + VarintBytes(|s.recipe|) + VarintBytes(|s.text|) + r.body == [s.build] + (nums + r.body);
  }

  lemma FrameHeldReads(s: Seg, base: seq<byte>, r: Rest)
    requires s.FrameHeld? && WellFormed(s, base)
    ensures ReadFields(ZSTD_NESTED, base, After(Fields(s), r)) == Some((s, r))
  {
    hide Fixed, ReadInner, InnerBytes;
    var r1 := After(InnerBytes(s.inner), r);
    InnerReads(s.inner, r);
    FixedReads([s.build], r1);
    AfterAssoc(Rest([s.build], [], []), InnerBytes(s.inner), r);
    assert [] + r1.content == r1.content && [] + r1.side == r1.side;
  }

  lemma ChunkedReads(s: Seg, base: seq<byte>, r: Rest)
    requires s.Chunked? && WellFormed(s, base)
    ensures ReadFields(DEFLATE_CHUNKED, base, After(Fields(s), r)) == Some((s, r))
  {
    hide VarintBytes, PieceList, PieceFields, SizedContent;
    var sized := Rest(VarintBytes(|s.text|), s.text, []);
    SizedContentReads(s.text, r);
    PieceListReads(s.pieces, After(sized, r));
    AfterAssoc(PieceFields(s.pieces), sized, r);
    assert [] + r.side == r.side;
  }

  lemma WrappedChunkedReads(s: Seg, base: seq<byte>, r: Rest)
    requires s.WrappedChunked? && WellFormed(s, base)
    ensures ReadFields(DEFLATE_NESTED_CHUNKED, base, After(Fields(s), r)) == Some((s, r))
  {
    hide PieceList, PieceFields, ReadInner, InnerBytes;
    InnerReads(s.inner, r);
    PieceListReads(s.pieces, After(InnerBytes(s.inner), r));
    AfterAssoc(PieceFields(s.pieces), InnerBytes(s.inner), r);
  }

  lemma DeltaReads(s: Seg, base: seq<byte>, r: Rest)
    requires s.Delta? && WellFormed(s, base)
    ensures ReadFields(TENSOR_DELTA, base, After(Fields(s), r)) == Some((s, r))
  {
    hide VarintBytes, TwoNums, Fixed, Content;
    var r1 := r.(content := s.text + r.content);
    var nums := VarintBytes(|s.text|) + VarintBytes(s.at);
    ContentReads(s.text, r);
    TwoNumsRead(|s.text|, s.at, r1);
    FixedReads([s.width], r1.(body := nums + r.body));
    assert [s.width] + VarintBytes(|s.text|) + VarintBytes(s.at) + r.body == [s.width] + (nums + r.body);
    assert [] + r.side == r.side;
  }

  // A written segment reads back, whatever follows it in all three.
  lemma FieldsRead(s: Seg, base: seq<byte>, r: Rest)
    requires WellFormed(s, base)
    ensures ReadFields(TagOf(s), base, After(Fields(s), r)) == Some((s, r))
  {
    hide Fields, ReadFields;
    match s {
      case Whole(_, _) => WholeReads(s, base, r);
      case Stream(_, _, _) => StreamReads(s, base, r);
      case Picture(_, _, _) => PictureReads(s, base, r);
      case Wrapped(_, _, _) => WrappedReads(s, base, r);
      case Held(_) => HeldReads(s, base, r);
      case Image(_, _, _, _, _, _) => ImageFieldsRead(s, base, r);
      case Frame(_, _, _) => FrameReads(s, base, r);
      case Modeled(_, _, _, _) => ModeledReads(s, base, r);
      case FrameHeld(_, _) => FrameHeldReads(s, base, r);
      case Chunked(_, _) => ChunkedReads(s, base, r);
      case WrappedChunked(_, _) => WrappedChunkedReads(s, base, r);
      case Delta(_, _, _, _) => DeltaReads(s, base, r);
    }
  }

  lemma HeldReads(s: Seg, base: seq<byte>, r: Rest)
    requires s.Held? && WellFormed(s, base)
    ensures ReadFields(NESTED, base, After(Fields(s), r)) == Some((s, r))
  {
    hide ReadInner, InnerBytes;
    InnerReads(s.inner, r);
  }

  lemma ImageFieldsRead(s: Seg, base: seq<byte>, r: Rest)
    requires s.Image? && WellFormed(s, base)
    ensures ReadFields(s.tag, base, After(Fields(s), r)) == Some((s, r))
  {
    hide ReadImage, Fields;
    ImageReads(s, base, r);
  }

  lemma SegReads(s: Seg, base: seq<byte>, r: Rest)
    requires WellFormed(s, base)
    ensures ReadSeg(base, After(Written(s), r)) == Some((s, r))
  {
    hide ReadFields, Fields;
    FieldsRead(s, base, r);
    var tag := Rest([TagOf(s)], [], []);
    AfterAssoc(tag, Fields(s), r);
    var all := After(tag, After(Fields(s), r));
    assert all.body[0] == TagOf(s) && all.body[1..] == After(Fields(s), r).body;
    assert all.content == After(Fields(s), r).content && all.side == After(Fields(s), r).side;
  }

  lemma {:induction false} AllRead(ss: seq<Seg>, base: seq<byte>, r: Rest)
    requires AllWellFormed(ss, base)
    ensures ReadSegs(base, After(AllWritten(ss), r), |ss|) == Some((ss, r))
    decreases |ss|
  {
    hide ReadSeg, Written, WellFormed;
    if ss == [] {
      assert After(Rest([], [], []), r) == r;
    } else {
      AllRead(ss[1..], base, r);
      AfterAssoc(Written(ss[0]), AllWritten(ss[1..]), r);
      SegReads(ss[0], base, After(AllWritten(ss[1..]), r));
      assert [ss[0]] + ss[1..] == ss;
    }
  }

  // So a container as written has exactly its segments, body, content and side used up.
  lemma WrittenSegments(ss: seq<Seg>, base: seq<byte>)
    requires AllWellFormed(ss, base)
    ensures var w := AllWritten(ss); Segments(Inner(|ss|, w.body, w.content, w.side), base) == Some(ss)
  {
    hide ReadSegs, AllWritten;
    AllRead(ss, base, Rest([], [], []));
    var w := AllWritten(ss);
    assert w.body + [] == w.body && w.content + [] == w.content && w.side + [] == w.side;
  }

  lemma {:induction false} AllWrittenAppend(a: seq<Seg>, b: seq<Seg>)
    ensures AllWritten(a + b) == After(AllWritten(a), AllWritten(b))
    decreases |a|
  {
    hide Written;
    if a == [] {
      assert a + b == b;
      assert After(Rest([], [], []), AllWritten(b)) == AllWritten(b);
    } else {
      assert (a + b)[1..] == a[1..] + b;
      AllWrittenAppend(a[1..], b);
      AfterAssoc(Written(a[0]), AllWritten(a[1..]), AllWritten(b));
    }
  }

  lemma AllWrittenSnoc(a: seq<Seg>, s: Seg)
    ensures AllWritten(a + [s]) == After(AllWritten(a), Written(s))
  {
    hide Written;
    AllWrittenAppend(a, [s]);
    assert [s][1..] == [];
    var w := Written(s);
    assert After(w, Rest([], [], [])) == w;
  }

  // Every segment takes a byte of the body at least.
  lemma {:induction false} SegmentsAtMost(ss: seq<Seg>)
    ensures |ss| <= |AllWritten(ss).body|
  {
    hide Fields;
    if ss != [] { SegmentsAtMost(ss[1..]); }
  }
}
