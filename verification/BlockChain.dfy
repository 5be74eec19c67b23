// src/lib.rs: an input as a chain of blocks. The finder's table is carried from block to
// block, matches reach back into earlier blocks, and blocks the parse cannot shrink are
// stored raw.

module BlockChain {
  import opened Common
  import opened ByteStrings
  import opened Tokens
  import opened TokenWriter
  import opened MatchFinder

  const MAX_BLOCK_SIZE: nat := 0x4_0000

  datatype Block = Raw(bytes: seq<byte>) | Coded(s: Streams, len: nat, bias: nat)

  function DecodeBlock(b: Block, out: seq<byte>): Result<seq<byte>> {
    match b
    case Raw(bytes) => Ok(out + bytes)
    case Coded(s, len, bias) => Decode(s, out, |out| + len, bias)
  }

  // Each block decodes against everything before it.
  function DecodeChain(blocks: seq<Block>, out: seq<byte>): Result<seq<byte>> {
    if blocks == [] then Ok(out)
    else
      match DecodeBlock(blocks[0], out)
      case Err(e) => Err(e)
      case Ok(out') => DecodeChain(blocks[1..], out')
  }

  lemma {:induction false} ChainSnoc(blocks: seq<Block>, b: Block, out: seq<byte>, mid: seq<byte>)
    requires DecodeChain(blocks, out) == Ok(mid)
    ensures DecodeChain(blocks + [b], out) == DecodeBlock(b, mid)
  {
    hide DecodeBlock;
    if blocks == [] {
      assert [b][1..] == [];
    } else {
      assert (blocks + [b])[1..] == blocks[1..] + [b];
      ChainSnoc(blocks[1..], b, DecodeBlock(blocks[0], out).value, mid);
    }
  }

  function Payload(s: Streams): nat {
    |s.tokens| + |s.offsets| + |s.extras| + |s.literals|
  }

  // The streams would not save at least 4% of the chunk.
  predicate NotWorthIt(len: nat, s: Streams) {
    Payload(s) >= len - len / 25
  }

  // Four parts in a hundred, exactly, whatever the length.
  predicate Saves(len: nat, s: Streams) {
    100 * Payload(s) < 96 * len
  }

  lemma WorthItSaves(len: nat, s: Streams)
    ensures NotWorthIt(len, s) <==> !Saves(len, s)
  {
    hide Payload;
    DivisionIs(len, 25);
  }

  // Streams some parse of input[start..end] under a rule gave: they rebuild it.
  ghost predicate ParseOf(s: Streams, input: seq<byte>, start: nat, end: nat, rule: Rule)
    requires start <= end <= |input|
  {
    exists ts :: Parsed(s, ts, input, start, end, rule)
  }

  lemma RawDecodes(input: seq<byte>, start: nat, len: nat)
    requires start + len <= |input|
    ensures DecodeBlock(Raw(input[start..start + len]), input[..start]) == Ok(input[..start + len])
  {
    assert input[..start] + input[start..start + len] == input[..start + len];
  }

  // The two parses a block of the ordinary level may be made of; the retry counts only if
  // it was made.
  datatype Tried = Tried(ordinary: Streams, retry: Streams)

  // What the ordinary level makes of a part: the ordinary parse if it saves 4%; if not, the
  // retry if enabled and it does; without a retry the ordinary parse if it saves anything;
  // else the part itself.
  ghost predicate Settled(b: Block, part: seq<byte>, t: Tried, dense: bool) {
    var len := |part|;
    var ordinary := Coded(t.ordinary, len, LZAV.minMatch - 1);
    && (Saves(len, t.ordinary) ==> b == ordinary)
    && (!dense ==> if Payload(t.ordinary) < len then b == ordinary else b == Raw(part))
    && (dense && !Saves(len, t.ordinary) ==>
         if Saves(len, t.retry) then b == Coded(t.retry, len, DENSE.minMatch - 1) else b == Raw(part))
  }

  // What a level without a retry makes of it: the parse if it saves 4%, else the part.
  ghost predicate SettledOnce(b: Block, part: seq<byte>, s: Streams, m: Mode)
    requires m.minMatch >= 1
  {
    if Saves(|part|, s) then b == Coded(s, |part|, m.minMatch - 1) else b == Raw(part)
  }

  // What a block takes behind its header.
  function Size(b: Block): nat {
    match b case Raw(bytes) => |bytes| case Coded(s, _, _) => Payload(s)
  }

  function Sizes(blocks: seq<Block>): nat {
    if blocks == [] then 0 else Sizes(blocks[..|blocks| - 1]) + Size(blocks[|blocks| - 1])
  }

  // No choice expands a part.
  lemma SettledSmall(b: Block, part: seq<byte>, t: Tried, dense: bool, s: Streams, m: Mode)
    requires m.minMatch >= 1
    ensures Settled(b, part, t, dense) ==> Size(b) <= |part| && (b.Coded? ==> Size(b) < |part|)
    ensures SettledOnce(b, part, s, m) ==> Size(b) <= |part| && (b.Coded? ==> Size(b) < |part|)
  {
  }

  // The ordinary parse, and the dense retry on the same table when it is enabled and the
  // block would otherwise be stored raw. A coded block is never larger than a raw one.
  method ParseBlock(input: seq<byte>, start: nat, len: nat, table: array<Bucket>, hash: (nat, nat) -> nat, window: nat,
                    dense: bool)
    returns (b: Block, ghost t: Tried)
    requires start + len <= |input| <= MAX_INPUT && len <= MAX_BLOCK_SIZE && 1 <= window <= WINDOW_SIZE
    requires table.Length > 0 && TruthfulTable(table[..], input, start)
    modifies table
    ensures TruthfulTable(table[..], input, start)
    ensures DecodeBlock(b, input[..start]) == Ok(input[..start + len])
    ensures ParseOf(t.ordinary, input, start, start + len, RuleOf(LZAV, window))
    ensures ParseOf(t.retry, input, start, start + len, RuleOf(if dense && !Saves(len, t.ordinary) then DENSE else LZAV, window))
    ensures Settled(b, input[start..start + len], t, dense)
    ensures b.Coded? ==> Payload(b.s) < len
  {
    hide Decode, Parsed, TruthfulTable, Sound, Payload;
    ModesSound();
    RawDecodes(input, start, len);
    var raw := Raw(input[start..start + len]);
    var s, ts := FindMatches(input, start, len, table, hash, LZAV, window);
    t := Tried(s, s);
    WorthItSaves(len, s);
    b := Coded(s, len, LZAV.minMatch - 1);
    if !NotWorthIt(len, s) { return; }
    if !dense { return if Payload(s) < len then b else raw, t; }
    var retry, ts' := FindMatches(input, start, len, table, hash, DENSE, window);
    t := Tried(s, retry);
    WorthItSaves(len, retry);
    b := Coded(retry, len, DENSE.minMatch - 1);
    if NotWorthIt(len, retry) { return raw, t; }
  }

  // ---------------------------------------------------------------- chains

  // The parts an input is cut into.
  function PartStart(i: nat): nat {
    i * MAX_BLOCK_SIZE
  }

  function Parts(input: seq<byte>): nat {
    (|input| + MAX_BLOCK_SIZE - 1) / MAX_BLOCK_SIZE
  }

  function PartEnd(input: seq<byte>, i: nat): (end: nat)
    ensures end <= |input|
  {
    Min(PartStart(i) + MAX_BLOCK_SIZE, |input|)
  }

  lemma PartsFollow(input: seq<byte>, i: nat)
    ensures PartStart(0) == 0 && (PartStart(i) < |input| <==> i < Parts(input))
    ensures i < Parts(input) ==> PartStart(i) < PartEnd(input, i) <= PartStart(i) + MAX_BLOCK_SIZE
    ensures i < Parts(input) ==> PartEnd(input, i) == Min(PartStart(i + 1), |input|)
    ensures i == Parts(input) ==> Min(PartStart(i), |input|) == |input|
  {
  }

  // Block i of a chain of the ordinary level.
  ghost predicate BlockSettled(b: Block, t: Tried, input: seq<byte>, i: nat, dense: bool, window: nat) {
    && PartStart(i) <= PartEnd(input, i)
    && Settled(b, input[PartStart(i)..PartEnd(input, i)], t, dense)
    && ParseOf(t.ordinary, input, PartStart(i), PartEnd(input, i), RuleOf(LZAV, window))
  }

  ghost predicate ChainSettled(blocks: seq<Block>, tried: seq<Tried>, input: seq<byte>, dense: bool, window: nat) {
    |blocks| == |tried| && forall i :: 0 <= i < |blocks| ==> BlockSettled(blocks[i], tried[i], input, i, dense, window)
  }

  // Block i of a chain of a level without a retry.
  ghost predicate BlockSettledOnce(b: Block, s: Streams, input: seq<byte>, i: nat, m: Mode, rule: Rule) {
    && m.minMatch >= 1 && PartStart(i) <= PartEnd(input, i)
    && SettledOnce(b, input[PartStart(i)..PartEnd(input, i)], s, m)
    && ParseOf(s, input, PartStart(i), PartEnd(input, i), rule)
  }

  ghost predicate ChainSettledOnce(blocks: seq<Block>, parses: seq<Streams>, input: seq<byte>, m: Mode, rule: Rule) {
    |blocks| == |parses| && forall i :: 0 <= i < |blocks| ==> BlockSettledOnce(blocks[i], parses[i], input, i, m, rule)
  }

  lemma SizesSnoc(blocks: seq<Block>, b: Block)
    ensures Sizes(blocks + [b]) == Sizes(blocks) + Size(b)
  {
    assert (blocks + [b])[..|blocks|] == blocks;
  }

  // The ordinary level: the input's parts in turn, none expanded.
  method Compress(input: seq<byte>, table: array<Bucket>, hash: (nat, nat) -> nat, window: nat, dense: bool)
    returns (blocks: seq<Block>, ghost tried: seq<Tried>)
    requires |input| <= MAX_INPUT && 1 <= window <= WINDOW_SIZE && table.Length > 0
    modifies table
    ensures DecodeChain(blocks, []) == Ok(input)
    ensures |blocks| == Parts(input) && Sizes(blocks) <= |input|
    ensures ChainSettled(blocks, tried, input, dense, window)
  {
    hide DecodeBlock, TruthfulTable, Settled, ParseOf, PartStart, PartEnd, Parts, Sizes, Size;
    InitTable(table, input);
    blocks, tried := [], [];
    var offset := 0;
    PartsFollow(input, 0);
    SizesNone();
    while offset < |input|
      invariant offset == Min(PartStart(|blocks|), |input|) && |blocks| <= Parts(input)
      invariant TruthfulTable(table[..], input, offset)
      invariant DecodeChain(blocks, []) == Ok(input[..offset])
      invariant ChainSettled(blocks, tried, input, dense, window) && Sizes(blocks) <= offset
      decreases |input| - offset
    {
      PartsFollow(input, |blocks|);
      var len := Min(|input| - offset, MAX_BLOCK_SIZE);
      assert offset + len == PartEnd(input, |blocks|) by { PartEndIs(input, |blocks|); }
      var b, t := ParseBlock(input, offset, len, table, hash, window, dense);
      SettledSmall(b, input[offset..offset + len], t, dense, t.ordinary, DENSE);
      ChainSnoc(blocks, b, [], input[..offset]);
      SizesSnoc(blocks, b);
      assert BlockSettled(b, t, input, |blocks|, dense, window);
      blocks, tried := blocks + [b], tried + [t];
      StillTruthful(table[..], input, offset, offset + len);
      offset := offset + len;
    }
    PartsFollow(input, |blocks|);
    assert input[..offset] == input;
  }

  lemma SizesNone()
    ensures Sizes([]) == 0
  {
  }

  lemma PartEndIs(input: seq<byte>, i: nat)
    ensures PartEnd(input, i) == Min(PartStart(i) + MAX_BLOCK_SIZE, |input|)
  {
  }

  // One block of a level without a retry joins its chain.
  method Settle(input: seq<byte>, start: nat, len: nat, s: Streams, m: Mode, ghost blocks: seq<Block>, ghost parses: seq<Streams>,
                ghost rule: Rule)
    returns (b: Block)
    requires m.minMatch >= 1 && start + len <= |input| && len == Min(|input| - start, MAX_BLOCK_SIZE)
    requires start == PartStart(|blocks|) < |input| && ParseOf(s, input, start, start + len, rule)
    requires Decode(s, input[..start], start + len, m.minMatch - 1) == Ok(input[..start + len])
    requires DecodeChain(blocks, []) == Ok(input[..start]) && Sizes(blocks) <= start
    requires ChainSettledOnce(blocks, parses, input, m, rule)
    ensures DecodeChain(blocks + [b], []) == Ok(input[..start + len]) && Sizes(blocks + [b]) <= start + len
    ensures ChainSettledOnce(blocks + [b], parses + [s], input, m, rule)
  {
    hide Decode, ParseOf, Payload, PartStart, PartEnd, Sizes;
    RawDecodes(input, start, len);
    WorthItSaves(len, s);
    PartEndIs(input, |blocks|);
    b := if NotWorthIt(len, s) then Raw(input[start..start + len]) else Coded(s, len, m.minMatch - 1);
    SettledSmall(b, input[start..start + len], Tried(s, s), false, s, m);
    ChainSnoc(blocks, b, [], input[..start]);
    SizesSnoc(blocks, b);
    assert BlockSettledOnce(b, s, input, |blocks|, m, rule);
  }

  // The turbo level: the same finder at minimum match 10.
  method CompressTurbo(input: seq<byte>, table: array<Bucket>, hash: (nat, nat) -> nat, window: nat)
    returns (blocks: seq<Block>, ghost parses: seq<Streams>)
    requires |input| <= MAX_INPUT && 1 <= window <= WINDOW_SIZE && table.Length > 0
    modifies table
    ensures DecodeChain(blocks, []) == Ok(input)
    ensures |blocks| == Parts(input) && Sizes(blocks) <= |input|
    ensures ChainSettledOnce(blocks, parses, input, TURBO, RuleOf(TURBO, window))
  {
    hide Decode, DecodeChain, Parsed, TruthfulTable, Sound, ChainSettledOnce, PartStart, Parts, Sizes;
    ModesSound();
    InitTable(table, input);
    blocks, parses := [], [];
    var offset := 0;
    NoBlocks(input, TURBO, RuleOf(TURBO, window));
    while offset < |input|
      invariant offset == Min(PartStart(|blocks|), |input|) && |blocks| <= Parts(input)
      invariant TruthfulTable(table[..], input, offset)
      invariant DecodeChain(blocks, []) == Ok(input[..offset]) && Sizes(blocks) <= offset
      invariant ChainSettledOnce(blocks, parses, input, TURBO, RuleOf(TURBO, window))
      decreases |input| - offset
    {
      PartsFollow(input, |blocks|);
      var len := Min(|input| - offset, MAX_BLOCK_SIZE);
      var s, ts := FindMatches(input, offset, len, table, hash, TURBO, window);
      var b := Settle(input, offset, len, s, TURBO, blocks, parses, RuleOf(TURBO, window));
      NextPart(input, |blocks|, offset, len);
      blocks, parses := blocks + [b], parses + [s];
      StillTruthful(table[..], input, offset, offset + len);
      offset := offset + len;
    }
    PartsFollow(input, |blocks|);
    assert input[..offset] == input;
  }

  lemma NoBlocks(input: seq<byte>, m: Mode, rule: Rule)
    ensures PartStart(0) == 0 && DecodeChain([], []) == Ok(input[..0]) && Sizes([]) == 0
    ensures ChainSettledOnce([], [], input, m, rule)
  {
  }

  lemma NextPart(input: seq<byte>, i: nat, offset: nat, len: nat)
    requires offset == PartStart(i) < |input| && len == Min(|input| - offset, MAX_BLOCK_SIZE)
    ensures offset + len == Min(PartStart(i + 1), |input|) && i + 1 <= Parts(input)
  {
    PartsFollow(input, i);
  }

  // The fast level, from an empty table.
  method CompressFast(input: seq<byte>, table: array<nat>, hash: nat -> nat, window: nat)
    returns (blocks: seq<Block>, ghost parses: seq<Streams>)
    requires |input| <= MAX_INPUT && 1 <= window <= WINDOW_SIZE && table.Length > 0
    modifies table
    ensures DecodeChain(blocks, []) == Ok(input)
    ensures |blocks| == Parts(input) && Sizes(blocks) <= |input|
    ensures ChainSettledOnce(blocks, parses, input, DENSE, FastRule(DENSE, window))
  {
    hide Decode, DecodeChain, Parsed, ChainSettledOnce, PartStart, Parts, Sizes;
    forall i | 0 <= i < table.Length { table[i] := 0; }
    blocks, parses := [], [];
    var offset := 0;
    NoBlocks(input, DENSE, FastRule(DENSE, window));
    while offset < |input|
      invariant offset == Min(PartStart(|blocks|), |input|) && |blocks| <= Parts(input)
      invariant DecodeChain(blocks, []) == Ok(input[..offset]) && Sizes(blocks) <= offset
      invariant ChainSettledOnce(blocks, parses, input, DENSE, FastRule(DENSE, window))
      invariant forall i :: 0 <= i < table.Length ==> table[i] < 0x1_0000_0000
      decreases |input| - offset
    {
      PartsFollow(input, |blocks|);
      var len := Min(|input| - offset, MAX_BLOCK_SIZE);
      var s, ts := FindMatchesFast(input, offset, len, table, hash, DENSE, window);
      var b := Settle(input, offset, len, s, DENSE, blocks, parses, FastRule(DENSE, window));
      NextPart(input, |blocks|, offset, len);
      blocks, parses := blocks + [b], parses + [s];
      offset := offset + len;
    }
    PartsFollow(input, |blocks|);
    assert input[..offset] == input;
  }
}
