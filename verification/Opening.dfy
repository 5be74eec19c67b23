// src/deflate.rs, opening, on segments: which segments an input becomes, by what its places
// hold. The builder writes the same segments byte by byte as it goes.

module Opening {
  import opened Bitwise
  import opened Common
  import opened ByteStrings
  import opened Recipes
  import opened Closing
  import Planes

  const MAX_DEPTH: nat := 4
  const PLAIN_LIMIT: nat := 0x2_0000_0000
  const CHUNK_PLAIN: nat := 0x80_0000

  // The most a stream of len compressed bytes may expand to.
  function StreamLimit(len: nat): (n: nat)
    ensures n == PLAIN_LIMIT || n >= 200 * len
    ensures 0x1000_0000 <= n <= PLAIN_LIMIT && (n <= 200 * len || n == 0x1000_0000)
  {
    Min(Max(200 * len, 0x1000_0000), PLAIN_LIMIT)
  }

  predicate IsJpeg(d: seq<byte>) {
    |d| >= 4 && d[0] == 0xff && d[1] == 0xd8 && d[2] == 0xff
  }

  // A zlib header with at most a 32 KB window and no preset dictionary.
  predicate IsZlib(d: seq<byte>) {
    |d| >= 10 && d[0] % 16 == 8 && d[0] / 16 <= 7 && d[1] / 32 % 2 == 0 && (d[0] as int * 256 + d[1]) % 31 == 0
  }

  // ---------------------------------------------------------------- the segments so far

  // Segments written, the run kept and not yet written, and whether anything opened.
  datatype Progress = Progress(segs: seq<Seg>, keepFrom: nat, keepTo: nat, hasOpened: bool)

  function Kept(input: seq<byte>, from: nat, to: nat): seq<Seg> {
    if from < to <= |input| then [Whole(KEEP, input[from..to])] else []
  }

  // Segments for input[at..end], what comes before it kept.
  function Add(input: seq<byte>, p: Progress, ss: seq<Seg>, at: nat, end: nat): Progress {
    Progress(p.segs + Kept(input, p.keepFrom, at) + ss, end, end, true)
  }

  // Everything up to to kept: the segments, when anything opened and they are within the
  // limit (a body as large as memory cannot come about).
  function Finish(input: seq<byte>, p: Progress, to: nat): Option<seq<Seg>> {
    if !p.hasOpened then None
    else
      var ss := p.segs + Kept(input, p.keepFrom, to);
      var parts := InnerOf(ss);
      if |parts.content| + |parts.side| > PLAIN_LIMIT || !InMemory(parts.body) then None else Some(ss)
  }

  // ---------------------------------------------------------------- streams

  // A stream opened: the bytes it takes, and its segment.
  datatype Form = Form(consumed: nat, seg: Seg)

  // A JPEG that transcodes into less.
  predicate Transcodes(c: Codecs, d: seq<byte>) {
    IsJpeg(d) && c.transcode(d).Some? && |c.transcode(d).value| + 16 < |d|
  }

  // data opened as a container of its own, when it is one and this one is not too deep.
  function NestedForm(c: Codecs, data: seq<byte>, depth: nat): Option<Inner>
    requires depth < MAX_DEPTH
    decreases MAX_DEPTH - depth, 0, 0
  {
    if depth + 1 >= MAX_DEPTH || !c.isContainer(data) || IsJpeg(data) then None
    else
      match OpenForm(c, data, [], depth + 1)
      case None => None
      case Some(ss) => Some(InnerOf(ss))
  }

  // A stream that opens as its text, as the container or as the JPEG the text is. One
  // reconstructed by the program itself that holds any other JPEG is left to preflate.
  function TextForm(c: Codecs, o: Opened, plainTag: byte, nestedTag: byte, jpegTag: byte, depth: nat): Option<Form>
    requires depth < MAX_DEPTH
    decreases MAX_DEPTH - depth, 1, 0
  {
    if Transcodes(c, o.plain) then Some(Form(o.consumed, Picture(jpegTag, o.recipe, c.transcode(o.plain).value)))
    else if IsJpeg(o.plain) && plainTag == REFLATE then None
    else
      match NestedForm(c, o.plain, depth)
      case Some(inner) => Some(Form(o.consumed, Wrapped(nestedTag, o.recipe, inner)))
      case None => Some(Form(o.consumed, Stream(plainTag, o.recipe, o.plain)))
  }

  function ReflateForm(c: Codecs, data: seq<byte>, depth: nat): Option<Form>
    requires depth < MAX_DEPTH
    decreases MAX_DEPTH - depth, 2, 0
  {
    match c.reflateOpen(data)
    case None => None
    case Some(o) =>
      if 4 * |o.recipe| > o.consumed || |o.plain| > StreamLimit(|data|) then None
      else TextForm(c, o, REFLATE, REFLATE_NESTED, REFLATE_JPEG, depth)
  }

  // A large stream in pieces, when they re-create it and are worth it.
  function ChunkedForm(c: Codecs, data: seq<byte>, q: Parsed, depth: nat): Option<Form>
    requires depth < MAX_DEPTH
    decreases MAX_DEPTH - depth, 2, 0
  {
    match c.predict(data)
    case None => None
    case Some(pieces) =>
      if 4 * CorrectionSum(pieces) > q.consumed || q.consumed > |data| then None
      else if c.recreate(pieces, q.text) != Some(data[..q.consumed]) || IsJpeg(q.text) then None
      else
        match NestedForm(c, q.text, depth)
        case Some(inner) => Some(Form(q.consumed, WrappedChunked(pieces, inner)))
        case None => Some(Form(q.consumed, Chunked(pieces, q.text)))
  }

  function PreflateForm(c: Codecs, data: seq<byte>, depth: nat): Option<Form>
    requires depth < MAX_DEPTH
    decreases MAX_DEPTH - depth, 2, 0
  {
    match c.preflateOpen(data)
    case None => None
    case Some(o) =>
      if 4 * |o.recipe| > o.consumed then None else TextForm(c, o, DEFLATE, DEFLATE_NESTED, DEFLATE_JPEG, depth)
  }

  // What a stream opens as when the program's own reconstruction declines it.
  function LaterForm(c: Codecs, data: seq<byte>, depth: nat): Option<Form>
    requires depth < MAX_DEPTH
    decreases MAX_DEPTH - depth, 3, 0
  {
    match c.parse(data)
    case None => None
    case Some(q) =>
      var pieces := if |q.text| >= 2 * CHUNK_PLAIN then ChunkedForm(c, data, q, depth) else None;
      if pieces.Some? then pieces else PreflateForm(c, data, depth)
  }

  // The program's own reconstruction first, then pieces for a large stream, then preflate.
  function DeflateForm(c: Codecs, data: seq<byte>, depth: nat): Option<Form>
    requires depth < MAX_DEPTH
    decreases MAX_DEPTH - depth, 4, 0
  {
    var own := if c.engine == Reflate then ReflateForm(c, data, depth) else None;
    if own.Some? then own else LaterForm(c, data, depth)
  }

  // When a stream opens as what, with nothing but the codecs' answers.
  lemma ReflateOpens(c: Codecs, data: seq<byte>, depth: nat, o: Opened)
    requires depth < MAX_DEPTH && c.engine == Reflate && c.reflateOpen(data) == Some(o)
    requires 4 * |o.recipe| <= o.consumed && |o.plain| <= StreamLimit(|data|)
    ensures !IsJpeg(o.plain) ==>
      && (NestedForm(c, o.plain, depth).None? ==>
            DeflateForm(c, data, depth) == Some(Form(o.consumed, Stream(REFLATE, o.recipe, o.plain))))
      && (NestedForm(c, o.plain, depth).Some? ==>
            DeflateForm(c, data, depth)
              == Some(Form(o.consumed, Wrapped(REFLATE_NESTED, o.recipe, NestedForm(c, o.plain, depth).value))))
    ensures IsJpeg(o.plain) && c.transcode(o.plain).Some? && |c.transcode(o.plain).value| + 16 < |o.plain| ==>
      DeflateForm(c, data, depth) == Some(Form(o.consumed, Picture(REFLATE_JPEG, o.recipe, c.transcode(o.plain).value)))
  {
    hide NestedForm;
    OwnForm(c, data, depth);
    TextFormIs(c, o, REFLATE, REFLATE_NESTED, REFLATE_JPEG, depth);
  }

  // The forms, one by one.
  lemma TextFormIs(c: Codecs, o: Opened, plainTag: byte, nestedTag: byte, jpegTag: byte, depth: nat)
    requires depth < MAX_DEPTH
    ensures TextForm(c, o, plainTag, nestedTag, jpegTag, depth)
      == if Transcodes(c, o.plain) then Some(Form(o.consumed, Picture(jpegTag, o.recipe, c.transcode(o.plain).value)))
         else if IsJpeg(o.plain) && plainTag == REFLATE then None
         else Some(Form(o.consumed,
           match NestedForm(c, o.plain, depth)
           case Some(inner) => Wrapped(nestedTag, o.recipe, inner)
           case None => Stream(plainTag, o.recipe, o.plain)))
  {
    hide NestedForm;
  }

  // The program's own reconstruction comes first.
  lemma OwnForm(c: Codecs, data: seq<byte>, depth: nat)
    requires depth < MAX_DEPTH
    ensures var o := c.reflateOpen(data);
      var own := if c.engine == Reflate && o.Some? && 4 * |o.value.recipe| <= o.value.consumed
                    && |o.value.plain| <= StreamLimit(|data|)
                 then TextForm(c, o.value, REFLATE, REFLATE_NESTED, REFLATE_JPEG, depth) else None;
      DeflateForm(c, data, depth) == if own.Some? then own else LaterForm(c, data, depth)
  {
    hide TextForm, LaterForm;
    var own := ReflateForm(c, data, depth);
  }

  lemma LaterFormIs(c: Codecs, data: seq<byte>, depth: nat, q: Parsed)
    requires depth < MAX_DEPTH
    ensures LaterForm(c, data, depth)
      == if c.parse(data).None? then None
         else if |c.parse(data).value.text| >= 2 * CHUNK_PLAIN && ChunkedForm(c, data, c.parse(data).value, depth).Some? then
           ChunkedForm(c, data, c.parse(data).value, depth)
         else PreflateForm(c, data, depth)
    ensures ChunkedForm(c, data, q, depth)
      == match c.predict(data)
         case None => None
         case Some(pieces) =>
           if 4 * CorrectionSum(pieces) > q.consumed || q.consumed > |data| || IsJpeg(q.text)
              || c.recreate(pieces, q.text) != Some(data[..q.consumed]) then None
           else Some(Form(q.consumed,
             match NestedForm(c, q.text, depth)
             case Some(inner) => WrappedChunked(pieces, inner)
             case None => Chunked(pieces, q.text)))
    ensures PreflateForm(c, data, depth)
      == match c.preflateOpen(data)
         case None => None
         case Some(o) =>
           if 4 * |o.recipe| > o.consumed then None else TextForm(c, o, DEFLATE, DEFLATE_NESTED, DEFLATE_JPEG, depth)
  {
    hide NestedForm, TextForm;
  }

  // The program's own reconstruction declines a stream.
  predicate OwnDeclines(c: Codecs, data: seq<byte>) {
    || c.engine == Preflate || c.reflateOpen(data).None?
    || (var o := c.reflateOpen(data).value;
        || 4 * |o.recipe| > o.consumed || |o.plain| > StreamLimit(|data|)
        || (IsJpeg(o.plain) && (c.transcode(o.plain).None? || |c.transcode(o.plain).value| + 16 >= |o.plain|)))
  }

  // The form in pieces declines a stream parsed as q.
  predicate PiecesDecline(c: Codecs, data: seq<byte>, q: Parsed) {
    || |q.text| < 2 * CHUNK_PLAIN || c.predict(data).None? || IsJpeg(q.text) || q.consumed > |data|
    || 4 * CorrectionSum(c.predict(data).value) > q.consumed
    || c.recreate(c.predict(data).value, q.text) != Some(data[..q.consumed])
  }

  // What these have declined opens by preflate exactly when its corrections are at most a
  // quarter of it; and the two decline what they say, so that is all that does not open.
  lemma PreflateOpens(c: Codecs, data: seq<byte>, depth: nat)
    requires depth < MAX_DEPTH && OwnDeclines(c, data)
    ensures c.parse(data).None? ==> DeflateForm(c, data, depth).None?
    ensures c.parse(data).Some? && PiecesDecline(c, data, c.parse(data).value) ==>
      match c.preflateOpen(data)
      case None => DeflateForm(c, data, depth).None?
      case Some(o) =>
        if 4 * |o.recipe| > o.consumed then DeflateForm(c, data, depth).None?
        else
          && DeflateForm(c, data, depth).Some? && DeflateForm(c, data, depth).value.consumed == o.consumed
          && DeflateForm(c, data, depth).value.seg
             == if Transcodes(c, o.plain) then Picture(DEFLATE_JPEG, o.recipe, c.transcode(o.plain).value)
                else if NestedForm(c, o.plain, depth).Some? then
                  Wrapped(DEFLATE_NESTED, o.recipe, NestedForm(c, o.plain, depth).value)
                else Stream(DEFLATE, o.recipe, o.plain)
    ensures c.parse(data).Some? && !PiecesDecline(c, data, c.parse(data).value) ==>
      var q, pieces := c.parse(data).value, c.predict(data).value;
      DeflateForm(c, data, depth) == Some(Form(q.consumed,
        if NestedForm(c, q.text, depth).Some? then WrappedChunked(pieces, NestedForm(c, q.text, depth).value)
        else Chunked(pieces, q.text)))
  {
    hide NestedForm, DeflateForm, LaterForm, ChunkedForm, PreflateForm, TextForm;
    OwnForm(c, data, depth);
    if c.reflateOpen(data).Some? {
      TextFormIs(c, c.reflateOpen(data).value, REFLATE, REFLATE_NESTED, REFLATE_JPEG, depth);
    }
    LaterFormIs(c, data, depth, if c.parse(data).Some? then c.parse(data).value else Parsed(0, []));
    if c.preflateOpen(data).Some? {
      TextFormIs(c, c.preflateOpen(data).value, DEFLATE, DEFLATE_NESTED, DEFLATE_JPEG, depth);
    }
  }

  // A stream does not open exactly when every form declines it.
  lemma NothingOpens(c: Codecs, data: seq<byte>, depth: nat)
    requires depth < MAX_DEPTH
    ensures DeflateForm(c, data, depth).None? <==>
      && OwnDeclines(c, data)
      && (c.parse(data).Some? ==>
            && PiecesDecline(c, data, c.parse(data).value)
            && (c.preflateOpen(data).Some? ==> 4 * |c.preflateOpen(data).value.recipe| > c.preflateOpen(data).value.consumed))
  {
    hide NestedForm, DeflateForm, LaterForm, ChunkedForm, PreflateForm, TextForm;
    OwnForm(c, data, depth);
    if c.reflateOpen(data).Some? {
      TextFormIs(c, c.reflateOpen(data).value, REFLATE, REFLATE_NESTED, REFLATE_JPEG, depth);
    }
    LaterFormIs(c, data, depth, if c.parse(data).Some? then c.parse(data).value else Parsed(0, []));
    if c.preflateOpen(data).Some? {
      TextFormIs(c, c.preflateOpen(data).value, DEFLATE, DEFLATE_NESTED, DEFLATE_JPEG, depth);
    }
  }

  // ---------------------------------------------------------------- stored entries, pages, tensors

  // A stored entry: a JPEG transcoded, or a container opened.
  function StoredForm(c: Codecs, data: seq<byte>, depth: nat): Option<Seg>
    requires depth < MAX_DEPTH
    decreases MAX_DEPTH - depth, 3, 0
  {
    if Transcodes(c, data) then Some(Whole(JPEG, c.transcode(data).value))
    else
      match NestedForm(c, data, depth)
      case Some(inner) => Some(Held(inner))
      case None => None
  }

  lemma StoredOpens(c: Codecs, data: seq<byte>, depth: nat)
    requires depth < MAX_DEPTH
    ensures StoredForm(c, data, depth).Some? <==>
      if IsJpeg(data) then c.transcode(data).Some? && |c.transcode(data).value| + 16 < |data|
      else depth + 1 < MAX_DEPTH && c.isContainer(data) && OpenForm(c, data, [], depth + 1).Some?
  {
    hide OpenForm;
  }

  // A page some known compressor writes again, its values modelled where that pays.
  function PageForm(c: Codecs, data: seq<byte>): Option<Seg> {
    match c.reproduce(data)
    case None => None
    case Some(page) =>
      Some(match c.model(page.text)
           case None => Frame(page.tag, page.build, page.text)
           case Some(m) => Modeled(if page.tag == SNAPPY_PAGE then SNAPPY_MODELED else ZSTD_MODELED, page.build, m.0, m.1))
  }

  // A zstd frame standing alone: a container under it is opened.
  function FrameForm(c: Codecs, data: seq<byte>, depth: nat): Option<Seg>
    requires depth < MAX_DEPTH
    decreases MAX_DEPTH - depth, 3, 0
  {
    match c.reproduce(data)
    case None => None
    case Some(frame) =>
      if frame.tag != ZSTD_FRAME || |frame.text| > StreamLimit(|data|) then None
      else
        match NestedForm(c, frame.text, depth)
        case Some(inner) => Some(FrameHeld(frame.build, inner))
        case None => Some(Frame(ZSTD_FRAME, frame.build, frame.text))
  }

  // A tensor of whole elements as byte planes, and against the base object's bytes.
  function TensorForm(data: seq<byte>, width: byte): Option<Seg> {
    if width == 0 || |data| % width != 0 then None else Some(Frame(TENSOR_PLANES, width, Planes.Split(data, width)))
  }

  function DeltaForm(data: seq<byte>, width: byte, base: seq<byte>, at: nat): Option<Seg> {
    if width == 0 || |data| % width != 0 || at + |data| > |base| then None
    else
      var against := base[at..at + |data|];
      Some(Delta(width, at, against, Planes.Split(XorBytes(data, against), width)))
  }

  // ---------------------------------------------------------------- pictures

  // A PNG chunk that lies whole before to: its length, its kind, its data, its check.
  predicate ChunkAt(input: seq<byte>, at: nat, to: nat) {
    at + 8 <= |input| && at + 4 <= to <= |input| && NextChunk(input, at) <= to
  }

  function NextChunk(input: seq<byte>, at: nat): (next: nat)
    requires at + 4 <= |input|
    ensures next >= at + 12
  {
    at + 12 + FromBe32(input[at..at + 4])
  }

  predicate IsIdat(input: seq<byte>, at: nat, to: nat) {
    ChunkAt(input, at, to) && input[at + 4..at + 8] == IDAT
  }

  // The first chunk of image data, looking from chunk to chunk.
  function FirstIdat(input: seq<byte>, at: nat, to: nat): (start: Option<nat>)
    ensures start.Some? ==> IsIdat(input, start.value, to) && at <= start.value
    decreases |input| - at
  {
    if !ChunkAt(input, at, to) then None
    else if IsIdat(input, at, to) then Some(at)
    else FirstIdat(input, NextChunk(input, at), to)
  }

  // The data of consecutive IDAT chunks, their lengths and checks, and where they end.
  datatype Image = Gathered(image: seq<byte>, chunks: seq<(nat, seq<byte>)>, end: nat)

  function Gather(input: seq<byte>, at: nat, to: nat): Image
    decreases |input| - at
  {
    if !IsIdat(input, at, to) then Gathered([], [], at)
    else
      var next := NextChunk(input, at);
      var rest := Gather(input, next, to);
      Gathered(input[at + 8..next - 4] + rest.image, [(next - at - 12, input[next - 4..next])] + rest.chunks, rest.end)
  }

  // The PNG at input[from..to]: its IDAT chunks' data, joined, is one zlib stream. Where
  // the chunks stand, and their segment.
  function PngForm(c: Codecs, input: seq<byte>, from: nat, to: nat): Option<(nat, nat, Seg)> {
    match FirstIdat(input, from + 8, to)
    case None => None
    case Some(start) =>
      var g := Gather(input, start, to);
      match ImageForm(c, g.image, g.chunks)
      case None => None
      case Some(s) => Some((start, g.end, s))
  }

  function ImageForm(c: Codecs, image: seq<byte>, chunks: seq<(nat, seq<byte>)>): Option<Seg> {
    if !IsZlib(image) then None
    else
      match if c.engine == Reflate then c.reflateOpen(image[2..]) else c.preflateOpen(image[2..])
      case None => None
      case Some(o) =>
        if 2 + o.consumed + 4 != |image| || 4 * |o.recipe| > o.consumed then None
        else if c.engine == Reflate && |o.plain| > StreamLimit(|image|) then None
        else Some(Image(if c.engine == Reflate then PNG_REFLATE else PNG_IMAGE, image[..2], o.recipe, o.plain,
                        image[|image| - 4..], chunks))
  }

  // A picture opens exactly when its data is a zlib stream that the engine opens to its
  // last byte, with corrections of at most a quarter of it.
  lemma PngOpens(c: Codecs, input: seq<byte>, from: nat, to: nat)
    ensures PngForm(c, input, from, to).Some? <==>
      && FirstIdat(input, from + 8, to).Some?
      && var image := Gather(input, FirstIdat(input, from + 8, to).value, to).image;
         && IsZlib(image)
         && var o := if c.engine == Reflate then c.reflateOpen(image[2..]) else c.preflateOpen(image[2..]);
            && o.Some? && 2 + o.value.consumed + 4 == |image| && 4 * |o.value.recipe| <= o.value.consumed
            && (c.engine == Reflate ==> |o.value.plain| <= StreamLimit(|image|))
  {
    hide FirstIdat, Gather, IsZlib;
  }

  // ---------------------------------------------------------------- places

  // A piece opened on its own, everything up to end kept.
  function PieceForm(input: seq<byte>, form: Option<Form>, at: nat, end: nat): Option<seq<Seg>> {
    match form
    case None => None
    case Some(f) => Finish(input, Add(input, Progress([], at, at, false), [f.seg], at, at + f.consumed), end)
  }

  function WholeForm(seg: Option<Seg>, n: nat): Option<Form> {
    match seg case None => None case Some(s) => Some(Form(n, s))
  }

  function Took(input: seq<byte>, p: Progress, seg: Option<Seg>, at: nat, end: nat): Progress {
    match seg case None => p case Some(s) => Add(input, p, [s], at, end)
  }

  // One place. A place that starts before what is already written, or lies outside the
  // input, is passed over.
  function Take(c: Codecs, input: seq<byte>, base: seq<byte>, p: Progress, place: Place, depth: nat): Progress
    requires depth < MAX_DEPTH
    decreases MAX_DEPTH - depth, 5, 0
  {
    if place.at < p.keepTo || place.at > place.end || place.end > |input| then p
    else
      var data := input[place.at..place.end];
      match place
      case DeflateAt(at, end) =>
        (match DeflateForm(c, data, depth) case None => p case Some(f) => Add(input, p, [f.seg], at, at + f.consumed))
      case StoredAt(at, end) => Took(input, p, StoredForm(c, data, depth), at, end)
      case PictureAt(at, end) =>
        (match PngForm(c, input, at, end) case None => p case Some((start, last, s)) => Add(input, p, [s], start, last))
      case DeflatePiece(at, end) =>
        (match PieceForm(input, DeflateForm(c, data, depth), at, end) case None => p case Some(ss) => Add(input, p, ss, at, end))
      case StoredPiece(at, end) =>
        (match PieceForm(input, WholeForm(StoredForm(c, data, depth), end - at), at, end)
         case None => p case Some(ss) => Add(input, p, ss, at, end))
      case PageAt(at, end) => Took(input, p, PageForm(c, data), at, end)
      case FrameAt(at, end) => Took(input, p, FrameForm(c, data, depth), at, end)
      case TensorAt(at, end, width) => Took(input, p, TensorForm(data, width), at, end)
      case DeltaAt(at, end, width, baseAt) => Took(input, p, DeltaForm(data, width, base, baseAt), at, end)
  }

  function TakeAll(c: Codecs, input: seq<byte>, base: seq<byte>, places: seq<Place>, depth: nat): Progress
    requires depth < MAX_DEPTH
    decreases MAX_DEPTH - depth, 6, |places|
  {
    if places == [] then Progress([], 0, 0, false)
    else Take(c, input, base, TakeAll(c, input, base, places[..|places| - 1], depth), places[|places| - 1], depth)
  }

  // An input opened: the segments it becomes, when its scanner knows it and anything in it
  // opens.
  function OpenForm(c: Codecs, input: seq<byte>, base: seq<byte>, depth: nat): Option<seq<Seg>>
    requires depth < MAX_DEPTH
    decreases MAX_DEPTH - depth, 7, 0
  {
    match c.scan(input, base)
    case None => None
    case Some(places) => Finish(input, TakeAll(c, input, base, places, depth), |input|)
  }
}
