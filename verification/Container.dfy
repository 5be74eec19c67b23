// src/deflate.rs, opening: containers opened into one plain text and a recipe. Where the
// streams of a container lie is any list of places. The builder appends bytes to three
// buffers; what it has written is always the segments that Opening says.

module Container {
  import opened Bitwise
  import opened Common
  import opened ByteStrings
  import opened Varints
  import opened Recipes
  import opened Closing
  import opened Opening
  import Planes

  class Builder {
    var content: seq<byte>
    var side: seq<byte>
    var body: seq<byte>
    var segments: nat
    // The run of the input kept as it is and not yet written.
    var keepFrom: nat
    var keepTo: nat
    var hasOpened: bool
    const depth: nat
    const origin: nat
    // The base object, empty without one.
    const base: seq<byte>
    // The segments written.
    ghost var segs: seq<Seg>

    // What is written produces the input up to the pending run.
    ghost predicate Valid(c: Codecs, input: seq<byte>)
      reads this
    {
      && depth < MAX_DEPTH && origin <= keepFrom <= keepTo <= |input| && InMemory(input) && InMemory(base)
      && AllWellFormed(segs, base) && segments == |segs| && Rest(body, content, side) == AllWritten(segs)
      && ProduceAll(c, segs) == Some(input[origin..keepFrom])
    }

    // Where it has come to.
    ghost function Now(): Progress
      reads this
    {
      Progress(segs, keepFrom, keepTo, hasOpened)
    }

    constructor (depth: nat, at: nat, base: seq<byte>, ghost c: Codecs, ghost input: seq<byte>)
      requires depth < MAX_DEPTH && at <= |input| && InMemory(input) && InMemory(base)
      ensures Valid(c, input) && Now() == Progress([], at, at, false)
      ensures origin == at && this.depth == depth && this.base == base
    {
      content, side, body, segments := [], [], [], 0;
      keepFrom, keepTo, hasOpened := at, at, false;
      this.depth, origin, this.base, segs := depth, at, base, [];
      assert input[at..at] == [];
    }

    method KeepTo(to: nat)
      modifies `keepTo
      ensures keepTo == Max(to, old(keepTo))
    {
      if to > keepTo { keepTo := to; }
    }

    method PutVarint(value: nat)
      modifies `body
      ensures body == old(body) + VarintBytes(value)
    {
      var v := value;
      ghost var goal := body + VarintBytes(value);
      while v >= 128
        invariant body + VarintBytes(v) == goal
      {
        Assoc(body, [v % 128 + 128], VarintBytes(v / 128));
        body := body + [v % 128 + 128];
        v := v / 128;
      }
      body := body + [v];
    }

    // The pending run written as a kept segment.
    method Flush(ghost c: Codecs, input: seq<byte>)
      requires Valid(c, input)
      modifies this
      ensures Valid(c, input)
      ensures Now() == Progress(old(segs) + Kept(input, old(keepFrom), old(keepTo)), old(keepTo), old(keepTo), old(hasOpened))
    {
      hide AllWritten, ProduceAll, VarintBytes, AllWellFormed;
      var from, to := keepFrom, keepTo;
      if from < to {
        KeptWritten(c, input, base, segs, origin, from, to, body, content, side);
        body := body + [KEEP];
        PutVarint(to - from);
        side := side + input[from..to];
        segments := segments + 1;
        segs := segs + [Whole(KEEP, input[from..to])];
      }
      keepFrom, keepTo := to, to;
    }

    // The field bytes of a segment, in the order of its kind.
    method PutFields(s: Seg)
      modifies `body, `content, `side
      ensures body == old(body) + Fields(s).body && content == old(content) + Fields(s).content
      ensures side == old(side) + Fields(s).side
    {
      hide Fields;
      if s.Image? {
        PutImage(s);
      } else if s.Wrapped? || s.Held? || s.FrameHeld? || s.WrappedChunked? {
        PutNested(s);
      } else if s.Frame? || s.Modeled? || s.Delta? {
        PutFramed(s);
      } else {
        PutPlain(s);
      }
    }

    method PutPlain(s: Seg)
      requires s.Whole? || s.Stream? || s.Picture? || s.Chunked?
      modifies `body, `content, `side
      ensures body == old(body) + Fields(s).body && content == old(content) + Fields(s).content
      ensures side == old(side) + Fields(s).side
    {
      hide VarintBytes, PieceFields;
      match s {
        case Whole(_, data) =>
          PutVarint(|data|);
          side := side + data;
        case Stream(_, recipe, text) =>
          PutTwo(|recipe|, |text|);
          side := side + recipe;
          content := content + text;
        case Picture(_, recipe, lepton) =>
          PutTwo(|recipe|, |lepton|);
          side := side + recipe;
          side := side + lepton;
        case Chunked(pieces, text) =>
          PutPieces(pieces);
          PutVarint(|text|);
          content := content + text;
      }
    }

    // The kinds that hold a container.
    method PutNested(s: Seg)
      requires s.Wrapped? || s.Held? || s.FrameHeld? || s.WrappedChunked?
      modifies `body, `content, `side
      ensures body == old(body) + Fields(s).body && content == old(content) + Fields(s).content
      ensures side == old(side) + Fields(s).side
    {
      hide VarintBytes, PieceFields;
      match s {
        case Wrapped(_, recipe, inner) =>
          PutVarint(|recipe|);
          side := side + recipe;
          Nest(inner);
        case Held(inner) =>
          Nest(inner);
        case FrameHeld(build, inner) =>
          body := body + [build];
          Nest(inner);
        case WrappedChunked(pieces, inner) =>
          PutPieces(pieces);
          Nest(inner);
      }
    }

    // The kinds that start with a build or a width.
    method PutFramed(s: Seg)
      requires s.Frame? || s.Modeled? || s.Delta?
      modifies `body, `content, `side
      ensures body == old(body) + Fields(s).body && content == old(content) + Fields(s).content
      ensures side == old(side) + Fields(s).side
    {
      hide VarintBytes;
      match s {
        case Frame(_, build, text) =>
          body := body + [build];
          PutVarint(|text|);
          content := content + text;
        case Modeled(_, build, recipe, text) =>
          body := body + [build];
          PutVarint(|recipe|);
          PutVarint(|text|);
          side := side + recipe;
          content := content + text;
        case Delta(width, at, _, text) =>
          body := body + [width];
          PutVarint(|text|);
          PutVarint(at);
          content := content + text;
      }
    }

    method PutImage(s: Seg)
      requires s.Image?
      modifies `body, `content, `side
      ensures body == old(body) + Fields(s).body && content == old(content) + Fields(s).content
      ensures side == old(side) + Fields(s).side
    {
      hide VarintBytes, ChunkBytes;
      body := body + s.header;
      PutVarint(|s.recipe|);
      PutVarint(|s.text|);
      body := body + s.adler;
      PutVarint(|s.chunks|);
      PutChunks(s.chunks);
      side := side + s.recipe;
      content := content + s.text;
    }

    method PutTwo(v: nat, u: nat)
      modifies `body
      ensures body == old(body) + (VarintBytes(v) + VarintBytes(u))
    {
      hide VarintBytes;
      PutVarint(v);
      PutVarint(u);
    }

    // The pieces' sizes and bits, their corrections behind the side data.
    method PutPieces(pieces: seq<Piece>)
      modifies `body, `side
      ensures body == old(body) + PieceFields(pieces).body && side == old(side) + PieceFields(pieces).side
    {
      hide VarintBytes;
      ghost var start := body;
      PutVarint(|pieces|);
      ghost var goal, sides := body + PieceBytes(pieces), side + PieceSides(pieces);
      assert pieces[0..] == pieces;
      for i := 0 to |pieces|
        invariant body + PieceBytes(pieces[i..]) == goal && side + PieceSides(pieces[i..]) == sides
      {
        var p := pieces[i];
        assert pieces[i..][1..] == pieces[i + 1..];
        assert body + (VarintBytes(p.plain) + VarintBytes(|p.corrections|) + [p.bit] + PieceBytes(pieces[i + 1..]))
            == body + VarintBytes(p.plain) + VarintBytes(|p.corrections|) + [p.bit] + PieceBytes(pieces[i + 1..]);
        PutVarint(p.plain);
        PutVarint(|p.corrections|);
        body := body + [p.bit];
        Assoc(side, p.corrections, PieceSides(pieces[i + 1..]));
        side := side + p.corrections;
      }
      assert pieces[|pieces|..] == [] && body + [] == body && side + [] == side;
      Assoc(start, VarintBytes(|pieces|), PieceBytes(pieces));
    }

    method PutChunks(chunks: seq<(nat, seq<byte>)>)
      modifies `body
      ensures body == old(body) + ChunkBytes(chunks)
    {
      hide VarintBytes;
      ghost var goal := body + ChunkBytes(chunks);
      assert chunks[0..] == chunks;
      for i := 0 to |chunks|
        invariant body + ChunkBytes(chunks[i..]) == goal
      {
        var (len, crc) := chunks[i];
        assert chunks[i..][1..] == chunks[i + 1..];
        assert body + (VarintBytes(len) + crc + ChunkBytes(chunks[i + 1..]))
            == body + VarintBytes(len) + crc + ChunkBytes(chunks[i + 1..]);
        PutVarint(len);
        body := body + crc;
      }
    }

    // An inner container's fields; its content and side go behind ours.
    method Nest(inner: Inner)
      modifies `body, `content, `side
      ensures body == old(body) + InnerBytes(inner).body && content == old(content) + inner.content
      ensures side == old(side) + inner.side
    {
      hide VarintBytes;
      PutVarint(inner.segments);
      PutVarint(|inner.body|);
      body := body + inner.body;
      PutVarint(|inner.content|);
      PutVarint(|inner.side|);
      content := content + inner.content;
      side := side + inner.side;
    }

    // A segment standing for input[at..end]: what comes before it kept, its tag, its
    // fields.
    method Segment(ghost c: Codecs, input: seq<byte>, s: Seg, at: nat, end: nat)
      requires Valid(c, input) && keepTo <= at <= end <= |input|
      requires WellFormed(s, base) && Produce(c, s) == Some(input[at..end])
      modifies this
      ensures Valid(c, input) && Now() == Add(input, old(Now()), [s], at, end)
    {
      hide AllWritten, ProduceAll, Produce, WellFormed, Fields, Kept;
      KeepTo(at);
      Flush(c, input);
      AllWrittenSnoc(segs, s);
      ProduceSnoc(c, segs, s);
      assert input[origin..at] + input[at..end] == input[origin..end];
      Assoc(body, [TagOf(s)], Fields(s).body);
      assert [] + Fields(s).content == Fields(s).content && [] + Fields(s).side == Fields(s).side;
      body := body + [TagOf(s)];
      segments := segments + 1;
      PutFields(s);
      hasOpened := true;
      segs := segs + [s];
      keepFrom, keepTo := end, end;
    }

    // A piece opened on its own, standing at input[at..resume].
    method Lay(ghost c: Codecs, input: seq<byte>, parts: Inner, ghost ss: seq<Seg>, at: nat, resume: nat)
      requires Valid(c, input) && keepTo <= at <= resume <= |input|
      requires AllWellFormed(ss, base) && parts == InnerOf(ss) && ProduceAll(c, ss) == Some(input[at..resume])
      modifies this
      ensures Valid(c, input) && Now() == Add(input, old(Now()), ss, at, resume)
    {
      hide AllWritten, ProduceAll, WellFormed, Kept;
      KeepTo(at);
      Flush(c, input);
      AllWrittenAppend(segs, ss);
      ProduceAppend(c, segs, ss);
      assert input[origin..at] + input[at..resume] == input[origin..resume];
      body := body + parts.body;
      content := content + parts.content;
      side := side + parts.side;
      segments := segments + parts.segments;
      hasOpened := true;
      segs := segs + ss;
      keepFrom, keepTo := resume, resume;
    }

    // Everything up to to kept and written: the parts, when anything opened and they are
    // within the limit (a body as large as memory cannot come about).
    method IntoParts(c: Codecs, input: seq<byte>, to: nat) returns (r: Option<Inner>, ghost ss: seq<Seg>)
      requires Valid(c, input) && keepTo <= to <= |input|
      modifies this
      ensures r.Some? <==> Finish(input, old(Now()), to).Some?
      ensures r.Some? ==> Finish(input, old(Now()), to) == Some(ss)
      ensures r.Some? ==> r.value == InnerOf(ss) && AllWellFormed(ss, base) && ProduceAll(c, ss) == Some(input[origin..to])
      ensures r.Some? ==> Rebuilds(c, base, r.value, input[origin..to]) && InnerFits(r.value)
    {
      hide AllWritten, ProduceAll, WellFormed, Kept;
      ss := [];
      if !hasOpened { return None, ss; }
      KeepTo(to);
      Flush(c, input);
      if |content| + |side| > PLAIN_LIMIT || !InMemory(body) { return None, ss; }
      SegmentsAtMost(segs);
      ss := segs;
      r := Some(Inner(segments, body, content, side));
      assert r.value == InnerOf(segs);
    }

    // data opened as a container of its own, when it is one and this one is not too deep.
    method Nested(c: Codecs, data: seq<byte>) returns (r: Option<Inner>)
      requires Inverse(c) && depth < MAX_DEPTH && InMemory(data)
      ensures r == NestedForm(c, data, depth)
      ensures r.Some? ==> Rebuilds(c, [], r.value, data) && InnerFits(r.value)
      decreases MAX_DEPTH - depth, 1
    {
      hide OpenForm, Inverse, Rebuilds;
      if depth + 1 >= MAX_DEPTH || !c.isContainer(data) || IsJpeg(data) { return None; }
      ghost var ss;
      r, ss := OpenParts(c, data, [], depth + 1);
    }

    // The deflate stream at input[at..end]: the bytes it takes, when it opens.
    method Deflate(c: Codecs, input: seq<byte>, at: nat, end: nat) returns (r: Option<nat>)
      requires Inverse(c) && Valid(c, input) && keepTo <= at && depth < MAX_DEPTH
      modifies this
      ensures Valid(c, input)
      ensures at > end || end > |input| ==> r.None? && Now() == old(Now())
      ensures at <= end <= |input| ==>
        match DeflateForm(c, input[at..end], depth)
        case None => r.None? && Now() == old(Now())
        case Some(f) => r == Some(f.consumed) && at + f.consumed <= end && Now() == Add(input, old(Now()), [f.seg], at, at + f.consumed)
      decreases MAX_DEPTH - depth, 3
    {
      hide Inverse, Valid, StreamBack, ReflateForm, LaterForm, TextForm, Add;
      if at > end || end > |input| { return None; }
      var data := input[at..end];
      if c.engine == Reflate {
        var o := c.reflateOpen(data);
        ReflateFormIs(c, data, depth);
        if o.Some? && o.value.consumed >= 4 * |o.value.recipe| && |o.value.plain| <= StreamLimit(|data|) {
          ReflateInverse(c, data, o.value);
          PrefixInPlace(input, at, end, o.value.consumed);
          var done := Open(c, input, at, end, o.value, REFLATE, REFLATE_NESTED, REFLATE_JPEG);
          if done { return Some(o.value.consumed); }
        }
      }
      r := DeflateLater(c, input, at, end);
    }

    // What the program's own reconstruction declines.
    method DeflateLater(c: Codecs, input: seq<byte>, at: nat, end: nat) returns (r: Option<nat>)
      requires Inverse(c) && Valid(c, input) && keepTo <= at <= end <= |input| && depth < MAX_DEPTH
      modifies this
      ensures Valid(c, input)
      ensures match LaterForm(c, input[at..end], depth)
        case None => r.None? && Now() == old(Now())
        case Some(f) => r == Some(f.consumed) && at + f.consumed <= end && Now() == Add(input, old(Now()), [f.seg], at, at + f.consumed)
      decreases MAX_DEPTH - depth, 3, 0
    {
      hide Inverse, Valid, StreamBack, ChunkedForm, PreflateForm, TextForm, Add;
      var data := input[at..end];
      var q := c.parse(data);
      if q.None? { return None; }
      if |q.value.text| >= 2 * CHUNK_PLAIN {
        r := DeflateChunked(c, input, at, end, q.value);
        if r.Some? { return; }
      }
      var p := c.preflateOpen(data);
      PreflateFormIs(c, data, depth);
      if p.Some? && p.value.consumed >= 4 * |p.value.recipe| {
        PreflateInverse(c, data, p.value);
        PrefixInPlace(input, at, end, p.value.consumed);
        var done := Open(c, input, at, end, p.value, DEFLATE, DEFLATE_NESTED, DEFLATE_JPEG);
        if done { return Some(p.value.consumed); }
      }
      return None;
    }

    // A large stream opened in pieces, when they re-create it and are worth it.
    method DeflateChunked(c: Codecs, input: seq<byte>, at: nat, end: nat, q: Parsed) returns (r: Option<nat>)
      requires Inverse(c) && Valid(c, input) && keepTo <= at <= end <= |input| && c.parse(input[at..end]) == Some(q)
      modifies this
      ensures Valid(c, input)
      ensures match ChunkedForm(c, input[at..end], q, depth)
        case None => r.None? && Now() == old(Now())
        case Some(f) => r == Some(f.consumed) && at + f.consumed <= end && Now() == Add(input, old(Now()), [f.seg], at, at + f.consumed)
      decreases MAX_DEPTH - depth, 2
    {
      hide Inverse, Rebuilds, Produce, CloseInner, PiecesFit, AllWellFormed, AllWritten, ProduceAll, NestedForm, Add;
      var data := input[at..end];
      var pieces := c.predict(data);
      if pieces.None? || 4 * CorrectionSum(pieces.value) > q.consumed { return None; }
      PiecesInverse(c, data, q, pieces.value);
      PrefixInPlace(input, at, end, q.consumed);
      if c.recreate(pieces.value, q.text) != Some(data[..q.consumed]) || IsJpeg(q.text) { return None; }
      PiecesProduce(c, pieces.value, q.text);
      var inner := Nested(c, q.text);
      if inner.Some? {
        RebuildsCloses(c, [], inner.value, q.text);
        WrappedPiecesProduce(c, pieces.value, inner.value, q.text);
        Segment(c, input, WrappedChunked(pieces.value, inner.value), at, at + q.consumed);
      } else {
        Segment(c, input, Chunked(pieces.value, q.text), at, at + q.consumed);
      }
      return Some(q.consumed);
    }

    // A stream that opens as its text, as the container or as the JPEG the text is.
    method Open(c: Codecs, input: seq<byte>, at: nat, ghost end: nat, o: Opened, plainTag: byte, nestedTag: byte, jpegTag: byte)
      returns (done: bool)
      requires Inverse(c) && Valid(c, input) && keepTo <= at && at + o.consumed <= end <= |input| && depth < MAX_DEPTH
      requires IsStream(plainTag) && IsWrapped(nestedTag) && IsPicture(jpegTag) && InMemory(o.plain) && InMemory(o.recipe)
      requires StreamBack(c, plainTag, o.plain, o.recipe) == Some(input[at..at + o.consumed])
      requires StreamBack(c, nestedTag, o.plain, o.recipe) == StreamBack(c, plainTag, o.plain, o.recipe)
      requires StreamBack(c, jpegTag, o.plain, o.recipe) == StreamBack(c, plainTag, o.plain, o.recipe)
      modifies this
      ensures Valid(c, input)
      ensures match TextForm(c, o, plainTag, nestedTag, jpegTag, depth)
        case None => !done && Now() == old(Now())
        case Some(f) => done && f.consumed == o.consumed && Now() == Add(input, old(Now()), [f.seg], at, at + o.consumed)
      decreases MAX_DEPTH - depth, 2
    {
      hide ProduceAll, AllWritten, AllWellFormed, StreamBack, CloseInner, Rebuilds, Produce, Inverse, Valid, NestedForm, Add;
      if IsJpeg(o.plain) {
        var lepton := c.transcode(o.plain);
        if lepton.Some? && |lepton.value| + 16 < |o.plain| {
          TranscodeInverse(c, o.plain, lepton.value);
          PictureProduces(c, jpegTag, o, lepton.value);
          Segment(c, input, Picture(jpegTag, o.recipe, lepton.value), at, at + o.consumed);
          return true;
        }
        if plainTag == REFLATE { return false; }
      }
      var inner := Nested(c, o.plain);
      if inner.Some? {
        RebuildsCloses(c, [], inner.value, o.plain);
        WrappedProduces(c, nestedTag, o, inner.value);
        Segment(c, input, Wrapped(nestedTag, o.recipe, inner.value), at, at + o.consumed);
      } else {
        StreamProduces(c, plainTag, o);
        Segment(c, input, Stream(plainTag, o.recipe, o.plain), at, at + o.consumed);
      }
      return true;
    }

    // A stored entry's data: a JPEG transcoded, a container opened; anything else stays.
    method Stored(c: Codecs, input: seq<byte>, from: nat, to: nat)
      requires Inverse(c) && Valid(c, input) && keepTo <= from <= to <= |input|
      modifies this
      ensures Valid(c, input) && Now() == Took(input, old(Now()), StoredForm(c, input[from..to], depth), from, to)
      decreases MAX_DEPTH - depth, 2
    {
      hide ProduceAll, AllWritten, AllWellFormed, CloseInner, Rebuilds, Inverse, Produce, NestedForm, Add;
      var data := input[from..to];
      if IsJpeg(data) {
        var lepton := c.transcode(data);
        if lepton.Some? && |lepton.value| + 16 < |data| {
          TranscodeInverse(c, data, lepton.value);
          StoredProduces(c, lepton.value, Inner(0, [], [], []));
          Segment(c, input, Whole(JPEG, lepton.value), from, to);
          return;
        }
      }
      var inner := Nested(c, data);
      if inner.Some? {
        RebuildsCloses(c, [], inner.value, data);
        StoredProduces(c, [], inner.value);
        Segment(c, input, Held(inner.value), from, to);
      }
    }

    // A page some known compressor writes again, its values modelled where that pays.
    method TakePage(c: Codecs, input: seq<byte>, at: nat, end: nat)
      requires Inverse(c) && Valid(c, input) && keepTo <= at <= end <= |input|
      modifies this
      ensures Valid(c, input)
      ensures Now() == Took(input, old(Now()), PageForm(c, input[at..end]), at, end)
      ensures c.reproduce(input[at..end]).Some? ==> keepTo == end && hasOpened
      ensures c.reproduce(input[at..end]).None? ==> Now() == old(Now())
    {
      hide ProduceAll, AllWritten, AllWellFormed, Inverse, Produce;
      var page := c.reproduce(input[at..end]);
      if page.None? { return; }
      var (tag, build, text) := (page.value.tag, page.value.build, page.value.text);
      PageInverse(c, input[at..end], page.value);
      var m := c.model(text);
      if m.Some? {
        var modeled := if tag == SNAPPY_PAGE then SNAPPY_MODELED else ZSTD_MODELED;
        Segment(c, input, Modeled(modeled, build, m.value.0, m.value.1), at, end);
      } else {
        Segment(c, input, Frame(tag, build, text), at, end);
      }
    }

    // A zstd frame standing alone: a container under it is opened.
    method TakeFrame(c: Codecs, input: seq<byte>, at: nat, end: nat)
      requires Inverse(c) && Valid(c, input) && keepTo <= at <= end <= |input|
      modifies this
      ensures Valid(c, input)
      ensures var f := c.reproduce(input[at..end]);
        var opens := f.Some? && f.value.tag == ZSTD_FRAME && |f.value.text| <= StreamLimit(end - at);
        if opens then keepTo == end && hasOpened else Now() == old(Now())
      ensures Now() == Took(input, old(Now()), FrameForm(c, input[at..end], depth), at, end)
      decreases MAX_DEPTH - depth, 2
    {
      hide ProduceAll, AllWritten, AllWellFormed, CloseInner, Rebuilds, Inverse, Produce, NestedForm;
      var frame := c.reproduce(input[at..end]);
      if frame.None? || frame.value.tag != ZSTD_FRAME || |frame.value.text| > StreamLimit(end - at) { return; }
      var (build, text) := (frame.value.build, frame.value.text);
      PageInverse(c, input[at..end], frame.value);
      var inner := Nested(c, text);
      if inner.Some? {
        RebuildsCloses(c, [], inner.value, text);
        FrameHeldProduces(c, build, inner.value, text);
        Segment(c, input, FrameHeld(build, inner.value), at, end);
      } else {
        Segment(c, input, Frame(ZSTD_FRAME, build, text), at, end);
      }
    }

    // A tensor of whole elements as byte planes.
    method TakeTensor(ghost c: Codecs, input: seq<byte>, at: nat, end: nat, width: byte)
      requires Valid(c, input) && keepTo <= at <= end <= |input|
      modifies this
      ensures Valid(c, input)
      ensures if width > 0 && (end - at) % width == 0 then keepTo == end && hasOpened else Now() == old(Now())
      ensures Now() == Took(input, old(Now()), TensorForm(input[at..end], width), at, end)
    {
      hide ProduceAll, AllWritten, AllWellFormed, Produce;
      if width == 0 || (end - at) % width != 0 { return; }
      var text := Planes.SplitPlanes(input[at..end], width);
      PlanesProduce(c, width, input[at..end]);
      Segment(c, input, Frame(TENSOR_PLANES, width, text), at, end);
    }

    // A tensor against the base object's bytes from baseAt on.
    method TakeDelta(ghost c: Codecs, input: seq<byte>, at: nat, end: nat, width: byte, baseAt: nat)
      requires Valid(c, input) && keepTo <= at <= end <= |input|
      modifies this
      ensures Valid(c, input)
      ensures var opens := width > 0 && (end - at) % width == 0 && baseAt + (end - at) <= |base|;
        if opens then keepTo == end && hasOpened else Now() == old(Now())
      ensures Now() == Took(input, old(Now()), DeltaForm(input[at..end], width, base, baseAt), at, end)
    {
      hide ProduceAll, AllWritten, AllWellFormed, Produce;
      if width == 0 || (end - at) % width != 0 || baseAt + (end - at) > |base| { return; }
      var data, against := input[at..end], base[baseAt..baseAt + (end - at)];
      var text := Planes.SplitPlanes(XorBytes(data, against), width);
      DeltaProduces(c, width, baseAt, data, against);
      Segment(c, input, Delta(width, baseAt, against, text), at, end);
    }

    // The PNG at input[from..to]: its IDAT chunks' data, joined, is one zlib stream. The
    // chunks follow one another, so together they are a run of the input.
    method Png(c: Codecs, input: seq<byte>, from: nat, to: nat)
      requires Inverse(c) && Valid(c, input) && keepTo <= from <= to <= |input|
      modifies this
      ensures Valid(c, input)
      ensures match PngForm(c, input, from, to)
        case None => Now() == old(Now())
        case Some((start, end, s)) => from <= start <= end <= to && Now() == Add(input, old(Now()), [s], start, end)
    {
      hide ProduceAll, AllWritten, AllWellFormed, Inverse, Produce, PngChunks, CloseInner, FirstIdat, Gather, Add;
      var image, chunks, start, end := GatherIdat(input, from, to);
      if chunks == [] || !IsZlib(image) { return; }
      var open := if c.engine == Reflate then c.reflateOpen(image[2..]) else c.preflateOpen(image[2..]);
      if open.None? { return; }
      var o := open.value;
      if 2 + o.consumed + 4 != |image| || o.consumed < 4 * |o.recipe| { return; }
      if c.engine == Reflate && |o.plain| > StreamLimit(|image|) { return; }
      var tag := if c.engine == Reflate then PNG_REFLATE else PNG_IMAGE;
      if c.engine == Reflate { ReflateInverse(c, image[2..], o); } else { PreflateInverse(c, image[2..], o); }
      ImageProduces(c, tag, image, chunks, o);
      Segment(c, input, Image(tag, image[..2], o.recipe, o.plain, image[|image| - 4..], chunks), start, end);
    }
  }

  // The data of consecutive IDAT chunks, their lengths and checks, and where they stand.
  method GatherIdat(input: seq<byte>, from: nat, to: nat)
    returns (image: seq<byte>, chunks: seq<(nat, seq<byte>)>, start: nat, end: nat)
    requires from <= to <= |input|
    ensures chunks == [] <==> FirstIdat(input, from + 8, to).None?
    ensures chunks != [] ==> FirstIdat(input, from + 8, to) == Some(start) && Gather(input, start, to) == Gathered(image, chunks, end)
    ensures chunks != [] ==> from <= start <= end <= to && PngChunks(image, chunks) == Some(input[start..end])
    ensures |chunks| <= |input| && forall i :: 0 <= i < |chunks| ==> chunks[i].0 <= |input| && |chunks[i].1| == 4
  {
    hide Gathering, FromBe32;
    var at := from + 8;
    image, chunks, start, end := [], [], 0, 0;
    GatheringStart(input, from, to);
    while at + 8 <= |input| && at + 4 <= to
      invariant Gathering(input, from, at, to, image, chunks, start, end)
      decreases |input| + 8 - at
    {
      var len := FromBe32(input[at..at + 4]);
      var chunkEnd := at + 12 + len;
      if chunkEnd > to { break; }
      if input[at + 4..at + 8] == IDAT {
        GatheringMore(input, from, at, to, image, chunks, start, end);
        if chunks == [] { start := at; }
        image := image + input[at + 8..at + 8 + len];
        chunks := chunks + [(len, input[at + 8 + len..chunkEnd])];
        end := chunkEnd;
      } else if chunks != [] {
        break;
      } else {
        GatheringSkip(input, from, at, to, image, chunks, start, end);
      }
      at := chunkEnd;
    }
    GatheringEnd(input, from, at, to, image, chunks, start, end);
  }

  // What the loop knows when it has come to at.
  ghost predicate Gathering(input: seq<byte>, from: nat, at: nat, to: nat, image: seq<byte>, chunks: seq<(nat, seq<byte>)>,
                            start: nat, end: nat) {
    && from + 8 <= at && from <= to <= |input| && |chunks| <= at
    && (chunks == [] ==> image == [] && FirstIdat(input, from + 8, to) == FirstIdat(input, at, to))
    && (chunks != [] ==>
          && FirstIdat(input, from + 8, to) == Some(start) && GatheredTo(input, start, at, to, image, chunks)
          && from <= start <= end <= to && at == end && |chunks| + from <= end
          && PngChunks(image, chunks) == Some(input[start..end]))
    && (forall i :: 0 <= i < |chunks| ==> chunks[i].0 <= |input| && |chunks[i].1| == 4)
  }

  lemma GatheringStart(input: seq<byte>, from: nat, to: nat)
    requires from <= to <= |input|
    ensures Gathering(input, from, from + 8, to, [], [], 0, 0)
  {
  }

  lemma GatheringSkip(input: seq<byte>, from: nat, at: nat, to: nat, image: seq<byte>, chunks: seq<(nat, seq<byte>)>,
                      start: nat, end: nat)
    requires Gathering(input, from, at, to, image, chunks, start, end) && chunks == []
    requires ChunkAt(input, at, to) && !IsIdat(input, at, to)
    ensures Gathering(input, from, NextChunk(input, at), to, image, chunks, start, end)
  {
    hide FromBe32, FirstIdat;
    IdatStep(input, at, to);
  }

  lemma GatheringMore(input: seq<byte>, from: nat, at: nat, to: nat, image: seq<byte>, chunks: seq<(nat, seq<byte>)>,
                      start: nat, end: nat)
    requires Gathering(input, from, at, to, image, chunks, start, end) && IsIdat(input, at, to)
    ensures var len, next := FromBe32(input[at..at + 4]), NextChunk(input, at);
      Gathering(input, from, next, to, image + input[at + 8..at + 8 + len], chunks + [(len, input[at + 8 + len..next])],
                if chunks == [] then at else start, next)
  {
    hide PngChunks, FirstIdat, FromBe32, GatheredTo;
    var len, next := FromBe32(input[at..at + 4]), NextChunk(input, at);
    var first := if chunks == [] then at else start;
    var data, crc := input[at + 8..at + 8 + len], input[at + 8 + len..next];
    IdatStep(input, at, to);
    if chunks == [] {
      NoChunks();
      GatheredNone(input, at, to);
      assert input[at..at] == [];
    }
    BigEndian(input[at..at + 4]);
    ChunkInPlace(input, at, len);
    ChunksSnoc(image, chunks, data, crc, input[first..at]);
    GatheredMore(input, first, at, to, image, chunks);
    assert input[first..at] + input[at..next] == input[first..next];
  }

  lemma GatheringEnd(input: seq<byte>, from: nat, at: nat, to: nat, image: seq<byte>, chunks: seq<(nat, seq<byte>)>,
                     start: nat, end: nat)
    requires Gathering(input, from, at, to, image, chunks, start, end) && !IsIdat(input, at, to)
    requires chunks == [] ==> !ChunkAt(input, at, to)
    ensures chunks == [] <==> FirstIdat(input, from + 8, to).None?
    ensures chunks != [] ==> FirstIdat(input, from + 8, to) == Some(start) && Gather(input, start, to) == Gathered(image, chunks, end)
    ensures chunks != [] ==> from <= start <= end <= to && PngChunks(image, chunks) == Some(input[start..end])
    ensures |chunks| <= |input| && forall i :: 0 <= i < |chunks| ==> chunks[i].0 <= |input| && |chunks[i].1| == 4
  {
    hide PngChunks, FirstIdat, Gather, FromBe32, GatheredTo;
    IdatStep(input, at, to);
    if chunks != [] { GatheredEnd(input, start, at, to, image, chunks); }
  }

  // The run from start is what is gathered up to at, and the run from there.
  ghost predicate GatheredTo(input: seq<byte>, start: nat, at: nat, to: nat, image: seq<byte>, chunks: seq<(nat, seq<byte>)>) {
    var rest := Gather(input, at, to);
    Gather(input, start, to) == Gathered(image + rest.image, chunks + rest.chunks, rest.end)
  }

  lemma IdatStep(input: seq<byte>, at: nat, to: nat)
    ensures !ChunkAt(input, at, to) ==> FirstIdat(input, at, to).None?
    ensures IsIdat(input, at, to) ==> FirstIdat(input, at, to) == Some(at)
    ensures ChunkAt(input, at, to) && !IsIdat(input, at, to) ==> FirstIdat(input, at, to) == FirstIdat(input, NextChunk(input, at), to)
    ensures !IsIdat(input, at, to) ==> Gather(input, at, to) == Gathered([], [], at)
  {
  }

  lemma GatheredNone(input: seq<byte>, at: nat, to: nat)
    ensures GatheredTo(input, at, at, to, [], [])
  {
    hide Gather;
    var rest := Gather(input, at, to);
    assert [] + rest.image == rest.image && [] + rest.chunks == rest.chunks;
  }

  lemma GatheredMore(input: seq<byte>, start: nat, at: nat, to: nat, image: seq<byte>, chunks: seq<(nat, seq<byte>)>)
    requires GatheredTo(input, start, at, to, image, chunks) && IsIdat(input, at, to)
    ensures var len := FromBe32(input[at..at + 4]);
      var next := at + 12 + len;
      GatheredTo(input, start, next, to, image + input[at + 8..at + 8 + len], chunks + [(len, input[at + 8 + len..next])])
  {
    hide FromBe32;
    var len := FromBe32(input[at..at + 4]);
    var next := at + 12 + len;
    var rest := Gather(input, next, to);
    var data, chunk := input[at + 8..at + 8 + len], (len, input[at + 8 + len..next]);
    assert Gather(input, at, to) == Gathered(data + rest.image, [chunk] + rest.chunks, rest.end);
    assert image + (data + rest.image) == image + data + rest.image;
    assert chunks + ([chunk] + rest.chunks) == chunks + [chunk] + rest.chunks;
  }

  lemma GatheredEnd(input: seq<byte>, start: nat, at: nat, to: nat, image: seq<byte>, chunks: seq<(nat, seq<byte>)>)
    requires GatheredTo(input, start, at, to, image, chunks) && !IsIdat(input, at, to)
    ensures Gather(input, start, to) == Gathered(image, chunks, at)
  {
    IdatStep(input, at, to);
    assert image + [] == image && chunks + [] == chunks;
  }

  // A kept run behind some segments.
  lemma KeptWritten(c: Codecs, input: seq<byte>, base: seq<byte>, segs: seq<Seg>, origin: nat, from: nat, to: nat,
                    body: seq<byte>, content: seq<byte>, side: seq<byte>)
    requires origin <= from < to <= |input| && InMemory(input)
    requires AllWellFormed(segs, base) && Rest(body, content, side) == AllWritten(segs)
    requires ProduceAll(c, segs) == Some(input[origin..from])
    ensures var more := segs + [Whole(KEEP, input[from..to])];
      && AllWellFormed(more, base) && ProduceAll(c, more) == Some(input[origin..to])
      && Rest(body + [KEEP] + VarintBytes(to - from), content, side + input[from..to]) == AllWritten(more)
  {
    hide AllWritten, ProduceAll, VarintBytes, AllWellFormed;
    var s := Whole(KEEP, input[from..to]);
    KeptSegment(c, input[from..to], base);
    AllWrittenSnoc(segs, s);
    ProduceSnoc(c, segs, s);
    assert input[origin..from] + input[from..to] == input[origin..to];
    Assoc(body, [KEEP], VarintBytes(to - from));
    OneMoreFormed(segs, s, base);
  }

  lemma KeptSegment(c: Codecs, data: seq<byte>, base: seq<byte>)
    requires InMemory(data)
    ensures var s := Whole(KEEP, data);
      WellFormed(s, base) && Produce(c, s) == Some(data)
      && TagOf(s) == KEEP && Fields(s) == Rest(VarintBytes(|data|), [], data)
  {
    hide VarintBytes;
  }

  lemma OneMoreFormed(segs: seq<Seg>, s: Seg, base: seq<byte>)
    requires AllWellFormed(segs, base) && WellFormed(s, base)
    ensures AllWellFormed(segs + [s], base)
  {
    hide WellFormed;
  }

  lemma ReflateFormIs(c: Codecs, data: seq<byte>, depth: nat)
    requires depth < MAX_DEPTH
    ensures ReflateForm(c, data, depth)
      == match c.reflateOpen(data)
         case None => None
         case Some(o) =>
           if 4 * |o.recipe| > o.consumed || |o.plain| > StreamLimit(|data|) then None
           else TextForm(c, o, REFLATE, REFLATE_NESTED, REFLATE_JPEG, depth)
  {
    hide TextForm;
  }

  lemma PreflateFormIs(c: Codecs, data: seq<byte>, depth: nat)
    requires depth < MAX_DEPTH
    ensures PreflateForm(c, data, depth)
      == match c.preflateOpen(data)
         case None => None
         case Some(o) =>
           if 4 * |o.recipe| > o.consumed then None else TextForm(c, o, DEFLATE, DEFLATE_NESTED, DEFLATE_JPEG, depth)
  {
    hide TextForm;
  }

  lemma BigEndian(s: seq<byte>)
    requires |s| == 4
    ensures Be32(FromBe32(s)) == s
  {
    var a := s[0] as nat * 256 + s[1];
    var b := a * 256 + s[2];
    var v := b * 256 + s[3];
    DivModIs(v, 256, b, s[3]);
    DivModIs(b, 256, a, s[2]);
    DivModIs(a, 256, s[0], s[1]);
    DivModIs(s[0], 256, 0, s[0]);
  }

  lemma NoChunks()
    ensures PngChunks([], []) == Some([])
  {
  }

  lemma ChunkInPlace(input: seq<byte>, at: nat, len: nat)
    requires at + 12 + len <= |input|
    ensures input[at..at + 12 + len]
      == input[at..at + 4] + input[at + 4..at + 8] + input[at + 8..at + 8 + len] + input[at + 8 + len..at + 12 + len]
  {
  }

  // One more chunk behind the others.
  lemma {:induction false} ChunksSnoc(image: seq<byte>, chunks: seq<(nat, seq<byte>)>, data: seq<byte>, crc: seq<byte>,
                                      x: seq<byte>)
    requires PngChunks(image, chunks) == Some(x)
    ensures PngChunks(image + data, chunks + [(|data|, crc)]) == Some(x + (Be32(|data|) + IDAT + data + crc))
    decreases |chunks|
  {
    var more := chunks + [(|data|, crc)];
    if chunks == [] {
      assert more == [(|data|, crc)] && more[1..] == [] && image + data == data;
      assert data[..|data|] == data && data[|data|..] == [];
      var head := Be32(|data|) + IDAT + data + crc;
      assert [] + head == head && head + [] == head;
    } else {
      var (len, c) := chunks[0];
      assert more[0] == chunks[0] && more[1..] == chunks[1..] + [(|data|, crc)];
      assert (image + data)[..len] == image[..len] && (image + data)[len..] == image[len..] + data;
      var rest := PngChunks(image[len..], chunks[1..]).value;
      ChunksSnoc(image[len..], chunks[1..], data, crc, rest);
      Assoc(Be32(len) + IDAT + image[..len] + c, rest, Be32(|data|) + IDAT + data + crc);
    }
  }

  lemma ImageProduces(c: Codecs, tag: byte, image: seq<byte>, chunks: seq<(nat, seq<byte>)>, o: Opened)
    requires 2 + o.consumed + 4 == |image| && StreamBack(c, tag, o.plain, o.recipe) == Some(image[2..][..o.consumed])
    ensures Produce(c, Image(tag, image[..2], o.recipe, o.plain, image[|image| - 4..], chunks)) == PngChunks(image, chunks)
  {
    hide PngChunks, StreamBack;
    assert image[..2] + image[2..][..o.consumed] + image[|image| - 4..] == image;
  }

  lemma PictureProduces(c: Codecs, tag: byte, o: Opened, lepton: seq<byte>)
    requires c.restore(lepton) == Some(o.plain)
    ensures Produce(c, Picture(tag, o.recipe, lepton)) == StreamBack(c, tag, o.plain, o.recipe)
  {
    hide StreamBack;
  }

  lemma WrappedProduces(c: Codecs, tag: byte, o: Opened, inner: Inner)
    requires CloseInner(c, inner, []) == Some(o.plain)
    ensures Produce(c, Wrapped(tag, o.recipe, inner)) == StreamBack(c, tag, o.plain, o.recipe)
  {
    hide StreamBack, CloseInner;
  }

  lemma StreamProduces(c: Codecs, tag: byte, o: Opened)
    ensures Produce(c, Stream(tag, o.recipe, o.plain)) == StreamBack(c, tag, o.plain, o.recipe)
  {
    hide StreamBack;
  }

  lemma TranscodeInverse(c: Codecs, d: seq<byte>, lepton: seq<byte>)
    requires Inverse(c) && c.transcode(d) == Some(lepton)
    ensures c.restore(lepton) == Some(d) && InMemory(lepton)
  {
  }

  lemma StoredProduces(c: Codecs, lepton: seq<byte>, inner: Inner)
    ensures Produce(c, Whole(JPEG, lepton)) == c.restore(lepton)
    ensures Produce(c, Held(inner)) == CloseInner(c, inner, [])
  {
    hide CloseInner;
  }

  lemma PiecesProduce(c: Codecs, pieces: seq<Piece>, text: seq<byte>)
    requires pieces != [] && PlainSum(pieces) == |text|
    ensures Produce(c, Chunked(pieces, text)) == c.recreate(pieces, text)
  {
  }

  lemma WrappedPiecesProduce(c: Codecs, pieces: seq<Piece>, inner: Inner, text: seq<byte>)
    requires CloseInner(c, inner, []) == Some(text) && pieces != [] && PlainSum(pieces) == |text|
    ensures Produce(c, WrappedChunked(pieces, inner)) == c.recreate(pieces, text)
  {
    hide CloseInner;
  }

  lemma PlanesProduce(c: Codecs, width: byte, data: seq<byte>)
    requires width > 0 && |data| % width == 0
    ensures Produce(c, Frame(TENSOR_PLANES, width, Planes.Split(data, width))) == Some(data)
  {
    Planes.JoinSplit(data, width);
    assert data[..|data|] == data;
  }

  lemma DeltaProduces(c: Codecs, width: byte, at: nat, data: seq<byte>, against: seq<byte>)
    requires width > 0 && |data| % width == 0 && |data| == |against|
    ensures var text := Planes.Split(XorBytes(data, against), width);
      |text| == |data| && Produce(c, Delta(width, at, against, text)) == Some(data)
  {
    hide XorBytes;
    var x := XorBytes(data, against);
    Planes.JoinSplit(x, width);
    assert x[..|x|] == x;
    XorBytesTwice(data, against);
  }

  lemma PrefixInPlace(input: seq<byte>, at: nat, end: nat, n: nat)
    requires at <= end <= |input| && n <= end - at
    ensures input[at..end][..n] == input[at..at + n]
  {
  }

  lemma ReflateInverse(c: Codecs, d: seq<byte>, o: Opened)
    requires Inverse(c) && c.reflateOpen(d) == Some(o)
    ensures o.consumed <= |d| && InMemory(o.plain) && InMemory(o.recipe)
    ensures forall tag :: tag == REFLATE || tag == REFLATE_NESTED || tag == REFLATE_JPEG || tag == PNG_REFLATE ==>
      StreamBack(c, tag, o.plain, o.recipe) == Some(d[..o.consumed])
  {
  }

  lemma PreflateInverse(c: Codecs, d: seq<byte>, o: Opened)
    requires Inverse(c) && c.preflateOpen(d) == Some(o)
    ensures o.consumed <= |d| && InMemory(o.plain) && InMemory(o.recipe)
    ensures forall tag :: tag == DEFLATE || tag == DEFLATE_NESTED || tag == DEFLATE_JPEG || tag == PNG_IMAGE ==>
      StreamBack(c, tag, o.plain, o.recipe) == Some(d[..o.consumed])
  {
  }

  // What rewrites a page writes it as a frame, and as a modelled page.
  lemma PageInverse(c: Codecs, d: seq<byte>, p: Page)
    requires Inverse(c) && c.reproduce(d) == Some(p)
    ensures (p.tag == SNAPPY_PAGE || p.tag == ZSTD_FRAME) && InMemory(p.text) && c.rebuild(p.tag, p.build, p.text) == Some(d)
    ensures Produce(c, Frame(p.tag, p.build, p.text)) == Some(d)
    ensures var m := c.model(p.text); m.Some? ==> InMemory(m.value.0) && InMemory(m.value.1)
    ensures var m, tag := c.model(p.text), if p.tag == SNAPPY_PAGE then SNAPPY_MODELED else ZSTD_MODELED;
      m.Some? ==> Produce(c, Modeled(tag, p.build, m.value.0, m.value.1)) == Some(d)
  {
    hide Inverse, Produce;
    PageCodec(c, d, p);
    FrameProduces(c, p.tag, p.build, p.text);
    if c.model(p.text).Some? { ModeledProduces(c, p.tag, p.build, p.text, c.model(p.text).value); }
  }

  lemma PageCodec(c: Codecs, d: seq<byte>, p: Page)
    requires Inverse(c) && c.reproduce(d) == Some(p)
    ensures (p.tag == SNAPPY_PAGE || p.tag == ZSTD_FRAME) && InMemory(p.text) && c.rebuild(p.tag, p.build, p.text) == Some(d)
    ensures var m := c.model(p.text);
      m.Some? ==> c.unmodel(m.value.0, m.value.1) == Some(p.text) && InMemory(m.value.0) && InMemory(m.value.1)
  {
  }

  lemma FrameProduces(c: Codecs, tag: byte, build: byte, text: seq<byte>)
    requires tag == SNAPPY_PAGE || tag == ZSTD_FRAME
    ensures Produce(c, Frame(tag, build, text)) == c.rebuild(tag, build, text)
  {
  }

  lemma ModeledProduces(c: Codecs, tag: byte, build: byte, text: seq<byte>, m: (seq<byte>, seq<byte>))
    requires (tag == SNAPPY_PAGE || tag == ZSTD_FRAME) && c.unmodel(m.0, m.1) == Some(text)
    ensures Produce(c, Modeled(if tag == SNAPPY_PAGE then SNAPPY_MODELED else ZSTD_MODELED, build, m.0, m.1))
         == c.rebuild(tag, build, text)
  {
  }

  lemma FrameHeldProduces(c: Codecs, build: byte, inner: Inner, text: seq<byte>)
    requires CloseInner(c, inner, []) == Some(text)
    ensures Produce(c, FrameHeld(build, inner)) == c.rebuild(ZSTD_FRAME, build, text)
  {
    hide CloseInner;
  }

  lemma PiecesInverse(c: Codecs, d: seq<byte>, q: Parsed, pieces: seq<Piece>)
    requires Inverse(c) && c.parse(d) == Some(q) && c.predict(d) == Some(pieces)
    ensures q.consumed <= |d| && InMemory(q.text)
    ensures pieces != [] && PiecesFit(pieces) && PlainSum(pieces) == |q.text|
  {
  }

  // ---------------------------------------------------------------- opening

  // A piece opened on its own by a builder that starts at from.
  method DeflatePart(c: Codecs, input: seq<byte>, base: seq<byte>, from: nat, to: nat, depth: nat)
    returns (r: Option<Inner>, ghost ss: seq<Seg>)
    requires Inverse(c) && depth < MAX_DEPTH && from <= to <= |input| && InMemory(input) && InMemory(base)
    ensures OpenedAs(r, ss, PieceForm(input, DeflateForm(c, input[from..to], depth), from, to))
    ensures r.Some? ==> AllWellFormed(ss, base) && ProduceAll(c, ss) == Some(input[from..to])
    decreases MAX_DEPTH - depth, 4
  {
    hide Inverse, Rebuilds, DeflateForm, Finish, AllWellFormed, ProduceAll;
    var b := new Builder(depth, from, base, c, input);
    var n := b.Deflate(c, input, from, to);
    ss := [];
    if n.None? { return None, ss; }
    r, ss := b.IntoParts(c, input, to);
  }

  method StoredPart(c: Codecs, input: seq<byte>, base: seq<byte>, from: nat, to: nat, depth: nat)
    returns (r: Option<Inner>, ghost ss: seq<Seg>)
    requires Inverse(c) && depth < MAX_DEPTH && from <= to <= |input| && InMemory(input) && InMemory(base)
    ensures OpenedAs(r, ss, PieceForm(input, WholeForm(StoredForm(c, input[from..to], depth), to - from), from, to))
    ensures r.Some? ==> AllWellFormed(ss, base) && ProduceAll(c, ss) == Some(input[from..to])
    decreases MAX_DEPTH - depth, 4
  {
    hide Inverse, Rebuilds, StoredForm, AllWellFormed, ProduceAll;
    var b := new Builder(depth, from, base, c, input);
    b.Stored(c, input, from, to);
    r, ss := b.IntoParts(c, input, to);
  }

  // Parts that are the writing of the segments wanted, or none when none are wanted.
  ghost predicate OpenedAs(r: Option<Inner>, ss: seq<Seg>, want: Option<seq<Seg>>) {
    match want
    case None => r.None?
    case Some(w) => w == ss && r == Some(InnerOf(ss))
  }

  // One place of a container.
  method TakePlace(b: Builder, c: Codecs, input: seq<byte>, p: Place)
    requires Inverse(c) && b.Valid(c, input)
    modifies b
    ensures b.Valid(c, input) && b.Now() == Take(c, input, b.base, old(b.Now()), p, b.depth)
    decreases MAX_DEPTH - b.depth, 5
  {
    hide Inverse, Rebuilds, ProduceAll, AllWritten, AllWellFormed, DeflateForm, StoredForm, PngForm, PieceForm, FrameForm, PageForm;
    hide TensorForm, DeltaForm, InnerOf;
    if p.at < b.keepTo || p.at > p.end || p.end > |input| { return; }
    match p {
      case DeflateAt(at, end) =>
        var _ := b.Deflate(c, input, at, end);
      case StoredAt(at, end) =>
        b.Stored(c, input, at, end);
      case PictureAt(at, end) =>
        b.Png(c, input, at, end);
      case DeflatePiece(at, end) =>
        var parts, ss := DeflatePart(c, input, b.base, at, end, b.depth);
        if parts.Some? { b.Lay(c, input, parts.value, ss, at, end); }
      case StoredPiece(at, end) =>
        var parts, ss := StoredPart(c, input, b.base, at, end, b.depth);
        if parts.Some? { b.Lay(c, input, parts.value, ss, at, end); }
      case PageAt(at, end) =>
        b.TakePage(c, input, at, end);
      case FrameAt(at, end) =>
        b.TakeFrame(c, input, at, end);
      case TensorAt(at, end, width) =>
        b.TakeTensor(c, input, at, end, width);
      case DeltaAt(at, end, width, baseAt) =>
        b.TakeDelta(c, input, at, end, width, baseAt);
    }
  }

  method OpenParts(c: Codecs, input: seq<byte>, base: seq<byte>, depth: nat) returns (r: Option<Inner>, ghost ss: seq<Seg>)
    requires Inverse(c) && depth < MAX_DEPTH && InMemory(input) && InMemory(base)
    ensures OpenedAs(r, ss, OpenForm(c, input, base, depth))
    ensures r.Some? ==> Rebuilds(c, base, r.value, input) && InnerFits(r.value)
    decreases MAX_DEPTH - depth, 6
  {
    hide Inverse, Rebuilds, ProduceAll, AllWritten, Take, Finish, InnerOf;
    ss := [];
    var places := c.scan(input, base);
    if places.None? { return None, ss; }
    var b := new Builder(depth, 0, base, c, input);
    for i := 0 to |places.value|
      invariant b.Valid(c, input) && b.Now() == TakeAll(c, input, base, places.value[..i], depth)
    {
      assert places.value[..i + 1][..i] == places.value[..i];
      TakePlace(b, c, input, places.value[i]);
    }
    assert input[0..|input|] == input && places.value[..|places.value|] == places.value;
    r, ss := b.IntoParts(c, input, |input|);
  }

  // An object opened, against a base object when there is one: its recipe, and its plain
  // text. It opens exactly when the segments it becomes do.
  method OpenObject(c: Codecs, input: seq<byte>, base: seq<byte>) returns (r: Option<(seq<byte>, seq<byte>)>)
    requires Inverse(c) && InMemory(input) && InMemory(base)
    ensures r.Some? ==> Close(c, r.value.0, r.value.1, base) == Some(input)
    ensures r == ObjectOf(OpenForm(c, input, base, 0))
  {
    hide Inverse, Rebuilds, CloseInner, VarintBytes, TwoNums, OpenForm, InnerOf;
    var parts, ss := OpenParts(c, input, base, 0);
    if parts.None? { return None; }
    var p := parts.value;
    RebuildsCloses(c, base, p, input);
    var recipe := VarintBytes(p.segments) + VarintBytes(|p.content|) + p.body;
    TwoNumsRead(p.segments, |p.content|, Rest(p.body, [], []));
    var plain := p.content + p.side;
    assert plain[..|p.content|] == p.content && plain[|p.content|..] == p.side;
    return Some((recipe, plain));
  }

  // Segments as an object's recipe and plain text.
  function ObjectOf(ss: Option<seq<Seg>>): Option<(seq<byte>, seq<byte>)> {
    match ss
    case None => None
    case Some(ss) =>
      var p := InnerOf(ss);
      Some((VarintBytes(p.segments) + VarintBytes(|p.content|) + p.body, p.content + p.side))
  }
}
