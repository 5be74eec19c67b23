// src/deflate.rs, closing: the segments of a recipe back as the bytes they stand for. What
// re-creates a deflate stream, a picture or a page is a codec with an inverse.

module Closing {
  import opened Bitwise
  import opened Common
  import opened ByteStrings
  import opened Varints
  import opened Recipes
  import Planes

  // No byte string in memory is this long.
  const MEMORY: nat := 0x8000_0000_0000_0000

  predicate InMemory(s: seq<byte>) { |s| < MEMORY }

  // ---------------------------------------------------------------- codecs

  // What opens a deflate stream: the program's own reconstruction first, or preflate alone.
  datatype Engine = Reflate | Preflate

  // A deflate stream opened: the compressed bytes it took, what its re-encoding needs,
  // and its text.
  datatype Opened = Opened(consumed: nat, recipe: seq<byte>, plain: seq<byte>)

  // A deflate stream parsed, its encoder not yet predicted.
  datatype Parsed = Parsed(consumed: nat, text: seq<byte>)

  datatype Page = Page(tag: byte, build: byte, text: seq<byte>)

  // A place a scanner found.
  datatype Place =
    | DeflateAt(at: nat, end: nat)
    | StoredAt(at: nat, end: nat)
    | PictureAt(at: nat, end: nat)
    | DeflatePiece(at: nat, end: nat)
    | StoredPiece(at: nat, end: nat)
    | PageAt(at: nat, end: nat)
    | FrameAt(at: nat, end: nat)
    | TensorAt(at: nat, end: nat, width: byte)
    | DeltaAt(at: nat, end: nat, width: byte, baseAt: nat)

  datatype Codecs = Codecs(
    engine: Engine,
    isContainer: seq<byte> -> bool,
    scan: (seq<byte>, seq<byte>) -> Option<seq<Place>>,
    reflateOpen: seq<byte> -> Option<Opened>,
    reflateClose: (seq<byte>, seq<byte>) -> Option<seq<byte>>,
    preflateOpen: seq<byte> -> Option<Opened>,
    preflateClose: (seq<byte>, seq<byte>) -> Option<seq<byte>>,
    parse: seq<byte> -> Option<Parsed>,
    predict: seq<byte> -> Option<seq<Piece>>,
    recreate: (seq<Piece>, seq<byte>) -> Option<seq<byte>>,
    transcode: seq<byte> -> Option<seq<byte>>,
    restore: seq<byte> -> Option<seq<byte>>,
    reproduce: seq<byte> -> Option<Page>,
    rebuild: (byte, byte, seq<byte>) -> Option<seq<byte>>,
    model: seq<byte> -> Option<(seq<byte>, seq<byte>)>,
    unmodel: (seq<byte>, seq<byte>) -> Option<seq<byte>>)

  function PlainSum(pieces: seq<Piece>): nat {
    if pieces == [] then 0 else pieces[0].plain + PlainSum(pieces[1..])
  }

  function CorrectionSum(pieces: seq<Piece>): nat {
    if pieces == [] then 0 else |pieces[0].corrections| + CorrectionSum(pieces[1..])
  }

  // Each codec's closing side gives back what its opening side took, and what it puts out
  // is in memory. The pieces predicted for a stream cut its text up; that they re-create
  // the stream is not asked, the program looks.
  ghost predicate Inverse(c: Codecs) {
    && (forall d, o :: c.reflateOpen(d) == Some(o) ==>
         && o.consumed <= |d| && c.reflateClose(o.plain, o.recipe) == Some(d[..o.consumed])
         && InMemory(o.plain) && InMemory(o.recipe))
    && (forall d, o :: c.preflateOpen(d) == Some(o) ==>
         && o.consumed <= |d| && c.preflateClose(o.plain, o.recipe) == Some(d[..o.consumed])
         && InMemory(o.plain) && InMemory(o.recipe))
    && (forall d, q :: c.parse(d) == Some(q) ==> q.consumed <= |d| && InMemory(q.text))
    && (forall d, q, ps :: c.parse(d) == Some(q) && c.predict(d) == Some(ps) ==>
         ps != [] && PiecesFit(ps) && PlainSum(ps) == |q.text|)
    && (forall d, l :: c.transcode(d) == Some(l) ==> c.restore(l) == Some(d) && InMemory(l))
    && (forall d, p :: c.reproduce(d) == Some(p) ==>
         && (p.tag == SNAPPY_PAGE || p.tag == ZSTD_FRAME)
         && c.rebuild(p.tag, p.build, p.text) == Some(d) && InMemory(p.text))
    && (forall d, m :: c.model(d) == Some(m) ==> c.unmodel(m.0, m.1) == Some(d) && InMemory(m.0) && InMemory(m.1))
  }

  // ---------------------------------------------------------------- closing

  function Be32(v: nat): (s: seq<byte>)
    ensures |s| == 4
  {
    [v / 256 / 256 / 256 % 256, v / 256 / 256 % 256, v / 256 % 256, v % 256]
  }

  function FromBe32(s: seq<byte>): nat
    requires |s| == 4
  {
    ((s[0] as nat * 256 + s[1]) * 256 + s[2]) * 256 + s[3]
  }

  const IDAT: seq<byte> := [73, 68, 65, 84]

  // The image's bytes cut into chunks; None unless the chunks use the image up.
  function PngChunks(image: seq<byte>, chunks: seq<(nat, seq<byte>)>): Option<seq<byte>>
    decreases |chunks|
  {
    if chunks == [] then if image == [] then Some([]) else None
    else
      var (len, crc) := chunks[0];
      if len > |image| then None
      else
        match PngChunks(image[len..], chunks[1..])
        case None => None
        case Some(rest) => Some(Be32(len) + IDAT + image[..len] + crc + rest)
  }

  // A bound on the inner containers of a list, which closing recurses into.
  function Depth(ss: seq<Seg>): nat {
    if ss == [] then 0 else Max(InnerSize(ss[0]) + 1, Depth(ss[1..]))
  }

  function StreamBack(c: Codecs, tag: byte, text: seq<byte>, recipe: seq<byte>): Option<seq<byte>> {
    if tag == DEFLATE || tag == DEFLATE_JPEG || tag == DEFLATE_NESTED || tag == PNG_IMAGE then c.preflateClose(text, recipe)
    else c.reflateClose(text, recipe)
  }

  // A stream from its pieces, which must cut the text up.
  function Recreate(c: Codecs, pieces: seq<Piece>, text: seq<byte>): Option<seq<byte>> {
    if pieces == [] || PlainSum(pieces) != |text| then None else c.recreate(pieces, text)
  }

  // Planes joined, and the base object's bytes added in.
  function Undelta(width: byte, against: seq<byte>, text: seq<byte>): Option<seq<byte>> {
    match Planes.Join(text, width)
    case None => None
    case Some(v) => if |v| != |against| then None else Some(XorBytes(v, against))
  }

  // The bytes of the object a segment stands for.
  function Produce(c: Codecs, s: Seg): Option<seq<byte>>
    decreases InnerSize(s) + 1, 0, 0
  {
    match s
    case Whole(tag, data) => if tag == KEEP then Some(data) else c.restore(data)
    case Stream(tag, recipe, text) => StreamBack(c, tag, text, recipe)
    case Picture(tag, recipe, lepton) =>
      (match c.restore(lepton)
       case None => None
       case Some(text) => StreamBack(c, tag, text, recipe))
    case Wrapped(tag, recipe, inner) =>
      (match CloseInner(c, inner, [])
       case None => None
       case Some(text) => StreamBack(c, tag, text, recipe))
    case Held(inner) => CloseInner(c, inner, [])
    case Image(tag, header, recipe, text, adler, chunks) =>
      (match StreamBack(c, tag, text, recipe)
       case None => None
       case Some(stream) => PngChunks(header + stream + adler, chunks))
    case Frame(tag, build, text) => if tag == TENSOR_PLANES then Planes.Join(text, build) else c.rebuild(tag, build, text)
    case Modeled(tag, build, recipe, text) =>
      (match c.unmodel(recipe, text)
       case None => None
       case Some(plain) => c.rebuild(if tag == SNAPPY_MODELED then SNAPPY_PAGE else ZSTD_FRAME, build, plain))
    case FrameHeld(build, inner) =>
      (match CloseInner(c, inner, [])
       case None => None
       case Some(plain) => c.rebuild(ZSTD_FRAME, build, plain))
    case Chunked(pieces, text) => Recreate(c, pieces, text)
    case WrappedChunked(pieces, inner) =>
      (match CloseInner(c, inner, [])
       case None => None
       case Some(text) => Recreate(c, pieces, text))
    case Delta(width, _, against, text) => Undelta(width, against, text)
  }

  function ProduceAll(c: Codecs, ss: seq<Seg>): Option<seq<byte>>
    decreases Depth(ss), 1, |ss|
  {
    if ss == [] then Some([])
    else
      match Produce(c, ss[0])
      case None => None
      case Some(a) =>
        match ProduceAll(c, ss[1..])
        case None => None
        case Some(b) => Some(a + b)
  }

  lemma {:induction false} DepthBound(ss: seq<Seg>, n: nat)
    requires forall i :: 0 <= i < |ss| ==> InnerSize(ss[i]) < n
    ensures Depth(ss) <= n
  {
    if ss != [] { DepthBound(ss[1..], n); }
  }

  function CloseInner(c: Codecs, inner: Inner, base: seq<byte>): Option<seq<byte>>
    decreases |inner.body|, 2, 0
  {
    match Segments(inner, base)
    case None => None
    case Some(ss) =>
      DepthBound(ss, |inner.body|);
      ProduceAll(c, ss)
  }

  // An object back from its recipe and plain text, and the base object it was opened
  // against (empty without one).
  function Close(c: Codecs, recipe: seq<byte>, plain: seq<byte>, base: seq<byte>): Option<seq<byte>> {
    match TwoNums(Rest(recipe, [], []))
    case None => None
    case Some((segments, clen, r)) =>
      if clen > |plain| then None
      else CloseInner(c, Inner(segments, r.body, plain[..clen], plain[clen..]), base)
  }

  // ---------------------------------------------------------------- what parts promise

  function InnerOf(ss: seq<Seg>): Inner {
    var w := AllWritten(ss);
    Inner(|ss|, w.body, w.content, w.side)
  }

  // Parts that are the writing of some segments which together produce data.
  ghost predicate Rebuilds(c: Codecs, base: seq<byte>, parts: Inner, data: seq<byte>) {
    exists ss :: AllWellFormed(ss, base) && parts == InnerOf(ss) && ProduceAll(c, ss) == Some(data)
  }

  lemma RebuildsCloses(c: Codecs, base: seq<byte>, parts: Inner, data: seq<byte>)
    requires Rebuilds(c, base, parts, data)
    ensures CloseInner(c, parts, base) == Some(data)
  {
    hide AllWritten, Segments, ProduceAll, AllWellFormed;
    var ss :| AllWellFormed(ss, base) && parts == InnerOf(ss) && ProduceAll(c, ss) == Some(data);
    WrittenSegments(ss, base);
  }

  lemma {:induction false} ProduceAppend(c: Codecs, a: seq<Seg>, b: seq<Seg>)
    requires ProduceAll(c, a).Some? && ProduceAll(c, b).Some?
    ensures ProduceAll(c, a + b) == Some(ProduceAll(c, a).value + ProduceAll(c, b).value)
    decreases |a|
  {
    hide Produce;
    if a == [] {
      assert a + b == b;
      assert [] + ProduceAll(c, b).value == ProduceAll(c, b).value;
    } else {
      assert (a + b)[1..] == a[1..] + b;
      ProduceAppend(c, a[1..], b);
      Assoc(Produce(c, a[0]).value, ProduceAll(c, a[1..]).value, ProduceAll(c, b).value);
    }
  }

  lemma ProduceSnoc(c: Codecs, a: seq<Seg>, s: Seg)
    requires ProduceAll(c, a).Some? && Produce(c, s).Some?
    ensures ProduceAll(c, a + [s]) == Some(ProduceAll(c, a).value + Produce(c, s).value)
  {
    hide Produce;
    assert [s][1..] == [];
    assert Produce(c, s).value + [] == Produce(c, s).value;
    ProduceAppend(c, a, [s]);
  }
}
