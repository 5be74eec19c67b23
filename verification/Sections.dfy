// src/bits.rs: sections of eight interleaved streams, or one, in three framings.

module Sections {
  import opened Common
  import opened ByteStrings
  import opened Varints
  import opened BitStreams

  const STREAMS: nat := 8
  const SIZES_BYTES: nat := 3 * (STREAMS - 1)

  datatype Framing = Wide | Compact | Single {
    function Streams(): nat {
      if this == Single then 1 else STREAMS
    }
  }

  function Zeros(n: nat): (s: seq<byte>)
    ensures |s| == n && Number(s) == 0
  {
    if n == 0 then [] else [0] + Zeros(n - 1)
  }

  function Flat(parts: seq<seq<byte>>): seq<byte> {
    if parts == [] then [] else parts[0] + Flat(parts[1..])
  }

  function Lengths(parts: seq<seq<byte>>): (r: seq<nat>)
    ensures |r| == |parts| && forall i :: 0 <= i < |parts| ==> r[i] == |parts[i]|
  {
    if parts == [] then [] else [|parts[0]|] + Lengths(parts[1..])
  }

  // ---------------------------------------------------------------- the layouts

  // Three bytes a size.
  function WideSizes(sizes: seq<nat>): (s: seq<byte>)
    ensures |s| == 3 * |sizes|
  {
    if sizes == [] then [] else Bytes(sizes[0], 3) + WideSizes(sizes[1..])
  }

  function VarintSizes(sizes: seq<nat>): seq<byte> {
    if sizes == [] then [] else VarintBytes(sizes[0]) + VarintSizes(sizes[1..])
  }

  // A section of these streams. The last stream's size is what the section has left.
  function Section(framing: Framing, parts: seq<seq<byte>>): seq<byte>
    requires |parts| == framing.Streams()
  {
    match framing
    case Wide => WideSizes(Lengths(parts)[..STREAMS - 1]) + Flat(parts) + Zeros(PAD)
    case Compact => VarintSizes(Lengths(parts)[..STREAMS - 1]) + Flat(parts)
    case Single => Flat(parts)
  }

  // ---------------------------------------------------------------- taking them apart

  // Streams of the given sizes from pos on, and one more up to end.
  function Cut(section: seq<byte>, pos: nat, end: nat, sizes: seq<nat>): (r: Option<seq<Stream>>)
    requires pos <= end <= |section|
    ensures r.Some? ==> |r.value| == |sizes| + 1
    decreases |sizes|
  {
    if sizes == [] then Some([Stream(section[pos..], end - pos)])
    else if sizes[0] > end - pos then None
    else
      match Cut(section, pos + sizes[0], end, sizes[1..])
      case None => None
      case Some(rest) => Some([Stream(section[pos..], sizes[0])] + rest)
  }

  // The stream's first bytes are its own part; its bytes run on to the end of the
  // section, so they end as the section does.
  ghost predicate Carries(s: Stream, part: seq<byte>, tail: seq<byte>) {
    && |part| == s.len && s.len + |tail| <= |s.bytes|
    && s.bytes[..s.len] == part && s.bytes[|s.bytes| - |tail|..] == tail
  }

  ghost predicate AllCarry(ss: seq<Stream>, parts: seq<seq<byte>>, tail: seq<byte>) {
    |ss| == |parts| && forall k :: 0 <= k < |ss| ==> Carries(ss[k], parts[k], tail)
  }

  lemma StreamCarries(section: seq<byte>, pos: nat, end: nat, part: seq<byte>)
    requires pos + |part| <= end <= |section| && section[pos..end][..|part|] == part
    ensures Carries(Stream(section[pos..], |part|), part, section[end..])
  {
    assert section[pos..][..|part|] == section[pos..end][..|part|];
    assert section[pos..][end - pos..] == section[end..];
  }

  lemma FlatSplits(parts: seq<seq<byte>>)
    requires parts != []
    ensures |Flat(parts)| == |parts[0]| + |Flat(parts[1..])|
    ensures Flat(parts)[..|parts[0]|] == parts[0] && Flat(parts)[|parts[0]|..] == Flat(parts[1..])
  {
  }

  lemma LengthsTail(parts: seq<seq<byte>>)
    requires |parts| > 1
    ensures Lengths(parts)[..|parts| - 1][0] == |parts[0]|
    ensures Lengths(parts)[..|parts| - 1][1..] == Lengths(parts[1..])[..|parts[1..]| - 1]
  {
    assert Lengths(parts)[1..] == Lengths(parts[1..]);
  }

  lemma {:induction false} CutCarries(section: seq<byte>, pos: nat, end: nat, parts: seq<seq<byte>>)
    requires pos <= end <= |section| && parts != [] && section[pos..end] == Flat(parts)
    ensures var r := Cut(section, pos, end, Lengths(parts)[..|parts| - 1]);
      r.Some? && AllCarry(r.value, parts, section[end..])
    decreases |parts|
  {
    hide Carries, Lengths, Flat;
    FlatSplits(parts);
    StreamCarries(section, pos, end, parts[0]);
    if |parts| == 1 {
      FlatNothing(parts[1..]);
      assert Lengths(parts)[..0] == [];
    } else {
      assert section[pos + |parts[0]|..end] == section[pos..end][|parts[0]|..];
      LengthsTail(parts);
      CutCarries(section, pos + |parts[0]|, end, parts[1..]);
    }
  }

  lemma FlatNothing(parts: seq<seq<byte>>)
    requires parts == []
    ensures Flat(parts) == []
  {
  }

  // Eight zero bytes at the end.
  ghost predicate EndsPadded(tail: seq<byte>) {
    |tail| >= PAD && Number(tail[|tail| - PAD..]) == 0
  }

  // A carried part is the low end of its stream's number.
  lemma CarriedNumber(s: Stream, part: seq<byte>, tail: seq<byte>)
    requires Carries(s, part, tail)
    ensures Number(s.bytes) == Number(part) + Pow2(8 * s.len) * Number(s.bytes[s.len..])
    ensures EndsPadded(tail) ==> Padded(s)
  {
    hide Number, Pow2;
    NumberSplit(s.bytes, s.len);
    if EndsPadded(tail) {
      NumberSplit(s.bytes, |s.bytes| - PAD);
      assert s.bytes[|s.bytes| - PAD..] == tail[|tail| - PAD..];
    }
  }

  // ---------------------------------------------------------------- wide sections

  function ReadWideSizes(section: seq<byte>, k: nat): (r: seq<nat>)
    requires 3 * k <= |section|
    ensures |r| == k
  {
    if k == 0 then [] else ReadWideSizes(section, k - 1) + [Number(section[3 * (k - 1)..3 * k])]
  }

  function SplitWide(section: seq<byte>): (r: Option<seq<Stream>>)
    ensures r.Some? ==> |r.value| == STREAMS
  {
    if |section| < SIZES_BYTES + PAD then None
    else Cut(section, SIZES_BYTES, |section| - PAD, ReadWideSizes(section, STREAMS - 1))
  }

  // The streams read one after another: what the loop has, and what it still cuts.
  method Split(section: seq<byte>) returns (r: Option<seq<Stream>>)
    ensures r == SplitWide(section)
  {
    hide Number, Cut;
    if |section| < SIZES_BYTES + PAD { return None; }
    var end := |section| - PAD;
    var pos: nat, out: seq<Stream> := SIZES_BYTES, [];
    ghost var sizes := ReadWideSizes(section, STREAMS - 1);
    assert sizes[0..] == sizes;
    NothingDone(Cut(section, pos, end, sizes));
    for k := 0 to STREAMS - 1
      invariant SIZES_BYTES <= pos <= end && |out| == k
      invariant Rejoined(SplitWide(section), out, Cut(section, pos, end, sizes[k..]))
    {
      WideSizeAt(section, STREAMS - 1, k);
      var n := Number(section[3 * k..3 * (k + 1)]);
      CutStep(section, pos, end, sizes, k);
      if n > end - pos { return None; }
      RejoinStep(out, Stream(section[pos..], n), Cut(section, pos + n, end, sizes[k + 1..]));
      out := out + [Stream(section[pos..], n)];
      pos := pos + n;
    }
    CutLast(section, pos, end);
    assert sizes[STREAMS - 1..] == [];
    out := out + [Stream(section[pos..], end - pos)];
    return Some(out);
  }

  ghost predicate Rejoined(all: Option<seq<Stream>>, done: seq<Stream>, rest: Option<seq<Stream>>) {
    all == match rest case None => None case Some(ss) => Some(done + ss)
  }

  lemma NothingDone(rest: Option<seq<Stream>>)
    ensures Rejoined(rest, [], rest)
  {
    if rest.Some? { assert [] + rest.value == rest.value; }
  }

  lemma RejoinStep(done: seq<Stream>, s: Stream, rest: Option<seq<Stream>>)
    ensures rest.Some? ==> done + ([s] + rest.value) == (done + [s]) + rest.value
  {
  }

  lemma {:induction false} WideSizeAt(section: seq<byte>, n: nat, k: nat)
    requires k < n && 3 * n <= |section|
    ensures ReadWideSizes(section, n)[k] == Number(section[3 * k..3 * (k + 1)])
  {
    hide Number;
    if k < n - 1 { WideSizeAt(section, n - 1, k); }
  }

  lemma CutStep(section: seq<byte>, pos: nat, end: nat, sizes: seq<nat>, k: nat)
    requires pos <= end <= |section| && k < |sizes|
    ensures Cut(section, pos, end, sizes[k..]) ==
      if sizes[k] > end - pos then None
      else match Cut(section, pos + sizes[k], end, sizes[k + 1..])
           case None => None
           case Some(rest) => Some([Stream(section[pos..], sizes[k])] + rest)
  {
    assert sizes[k..][1..] == sizes[k + 1..];
  }

  lemma CutLast(section: seq<byte>, pos: nat, end: nat)
    requires pos <= end <= |section|
    ensures Cut(section, pos, end, []) == Some([Stream(section[pos..], end - pos)])
  {
  }

  lemma {:induction false} WideSizesRead(sizes: seq<nat>, rest: seq<byte>, k: nat)
    requires k <= |sizes| && forall i :: 0 <= i < |sizes| ==> sizes[i] < 0x100_0000
    ensures ReadWideSizes(WideSizes(sizes) + rest, k) == sizes[..k]
  {
    hide Number, Bytes;
    if k > 0 {
      WideSizesRead(sizes, rest, k - 1);
      WideSizeBytes(sizes, rest, k - 1);
      assert sizes[..k] == sizes[..k - 1] + [sizes[k - 1]];
    }
  }

  lemma {:induction false} WideSizeBytes(sizes: seq<nat>, rest: seq<byte>, k: nat)
    requires k < |sizes| && sizes[k] < 0x100_0000
    ensures Number((WideSizes(sizes) + rest)[3 * k..3 * (k + 1)]) == sizes[k]
    decreases |sizes|
  {
    hide Number, Bytes, Pow2, WideSizes;
    var s := WideSizes(sizes) + rest;
    WideSizesFront(sizes, rest);
    if k == 0 {
      TwentyFour();
      NumberOfBytes(sizes[0], 3);
    } else {
      WideSizeBytes(sizes[1..], rest, k - 1);
      SliceBehind(s, 3, 3 * (k - 1), 3 * k);
    }
  }

  lemma WideSizesFront(sizes: seq<nat>, rest: seq<byte>)
    requires sizes != []
    ensures var s := WideSizes(sizes) + rest; s[0..3] == Bytes(sizes[0], 3) && s[3..] == WideSizes(sizes[1..]) + rest
  {
    hide Bytes;
  }

  lemma SliceBehind(s: seq<byte>, a: nat, i: nat, j: nat)
    requires i <= j && a + j <= |s|
    ensures s[a..][i..j] == s[a + i..a + j]
  {
  }

  lemma TwentyFour()
    ensures Pow2(8 * 3) == 0x100_0000
  {
    Pow2Add(8, 16);
    Pow2Words();
  }

  // ---------------------------------------------------------------- compact sections

  // A varint as the reader takes it, cut to 32 bits.
  function ReadSizes(section: seq<byte>, pos: nat, k: nat): (r: Option<(seq<nat>, nat)>)
    requires pos <= |section|
    ensures r.Some? ==> |r.value.0| == k && pos <= r.value.1 <= |section|
    decreases k
  {
    if k == 0 then Some(([], pos))
    else
      match Varint(section[pos..], 0)
      case None => None
      case Some((v, n)) =>
        match ReadSizes(section, pos + n, k - 1)
        case None => None
        case Some((rest, end)) => Some(([v % 0x1_0000_0000] + rest, end))
  }

  // section runs on to the end of the payload; sectionLen bytes are the section's own.
  function SplitCompact(section: seq<byte>, sectionLen: nat, single: bool): (r: Option<seq<Stream>>)
    ensures r.Some? ==> |r.value| == if single then 1 else STREAMS
  {
    if sectionLen > |section| - Min(PAD, |section|) then None
    else if single then Some([Stream(section, sectionLen)])
    else
      match ReadSizes(section, 0, STREAMS - 1)
      case None => None
      case Some((sizes, start)) => if start > sectionLen then None else Cut(section, start, sectionLen, sizes)
  }

  lemma SizeStep(section: seq<byte>, pos: nat, k: nat)
    requires pos <= |section| && k > 0
    ensures ReadSizes(section, pos, k) ==
      match Varint(section[pos..], 0)
      case None => None
      case Some((v, n)) =>
        match ReadSizes(section, pos + n, k - 1)
        case None => None
        case Some((rest, end)) => Some(([v % 0x1_0000_0000] + rest, end))
  {
  }

  lemma NoSizes(section: seq<byte>, pos: nat)
    requires pos <= |section|
    ensures ReadSizes(section, pos, 0) == Some(([], pos))
  {
  }

  lemma {:induction false} SizesRead(before: seq<byte>, sizes: seq<nat>, rest: seq<byte>)
    requires forall i :: 0 <= i < |sizes| ==> sizes[i] < 0x1_0000_0000
    ensures ReadSizes(before + VarintSizes(sizes) + rest, |before|, |sizes|)
      == Some((sizes, |before + VarintSizes(sizes)|))
    decreases |sizes|
  {
    hide Varint, VarintBytes, ReadSizes, Pow2;
    var s := before + VarintSizes(sizes) + rest;
    if sizes == [] {
      NoSizes(s, |before|);
      assert before + [] == before;
    } else {
      var head, tail := VarintBytes(sizes[0]), VarintSizes(sizes[1..]);
      assert s[|before|..] == head + (tail + rest);
      SizeReads(sizes[0], tail + rest);
      SizeStep(s, |before|, |sizes|);
      assert (before + head) + tail == before + VarintSizes(sizes);
      SizesRead(before + head, sizes[1..], rest);
      assert [sizes[0]] + sizes[1..] == sizes;
    }
  }

  lemma SizeReads(v: nat, rest: seq<byte>)
    requires v < 0x1_0000_0000
    ensures Varint(VarintBytes(v) + rest, 0) == Some((v, |VarintBytes(v)|)) && v % 0x1_0000_0000 == v
  {
    hide Varint, VarintBytes;
    Pow2Words();
    assert v * Pow2(0) == v;
    VarintDecodes(v, 0, rest);
  }

  // ---------------------------------------------------------------- sections come apart as written

  // What a section needs of the sizes it writes down; the last one it does not.
  ghost predicate SizesFit(framing: Framing, parts: seq<seq<byte>>) {
    forall k :: 0 <= k < |parts| - 1 ==> |parts[k]| < (if framing == Wide then 0x100_0000 else 0x1000_0000)
  }

  lemma WideSplits(parts: seq<seq<byte>>)
    requires |parts| == STREAMS && SizesFit(Wide, parts)
    ensures var r := SplitWide(Section(Wide, parts)); r.Some? && AllCarry(r.value, parts, Zeros(PAD))
  {
    hide Cut, AllCarry, WideSizes, Flat, Zeros;
    var sizes := Lengths(parts)[..STREAMS - 1];
    var table, flat, s := WideSizes(sizes), Flat(parts), Section(Wide, parts);
    assert s == table + (flat + Zeros(PAD));
    WideSizesRead(sizes, flat + Zeros(PAD), STREAMS - 1);
    assert sizes[..STREAMS - 1] == sizes;
    assert s[SIZES_BYTES..|s| - PAD] == flat && s[|s| - PAD..] == Zeros(PAD);
    CutCarries(s, SIZES_BYTES, |s| - PAD, parts);
  }

  lemma CompactSplits(parts: seq<seq<byte>>, rest: seq<byte>)
    requires |parts| == STREAMS && SizesFit(Compact, parts) && |rest| >= PAD
    ensures var section := Section(Compact, parts);
      var r := SplitCompact(section + rest, |section|, false); r.Some? && AllCarry(r.value, parts, rest)
  {
    hide Cut, AllCarry, VarintSizes, Flat, ReadSizes;
    var sizes := Lengths(parts)[..STREAMS - 1];
    var table, flat, section := VarintSizes(sizes), Flat(parts), Section(Compact, parts);
    var s := section + rest;
    assert s == [] + table + (flat + rest) && [] + table == table;
    SizesRead([], sizes, flat + rest);
    assert s[|table|..|section|] == flat && s[|section|..] == rest;
    CutCarries(s, |table|, |section|, parts);
  }

  lemma SingleSplits(part: seq<byte>, rest: seq<byte>)
    requires |rest| >= PAD
    ensures var section := Section(Single, [part]);
      var r := SplitCompact(section + rest, |section|, true); r.Some? && AllCarry(r.value, [part], rest)
  {
    var section := Section(Single, [part]);
    FlatNothing([part][1..]);
    assert section == part + [] == part;
    assert (part + rest)[..|part|] == part && (part + rest)[|part|..] == rest;
  }
}
