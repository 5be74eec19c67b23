// src/huff8.rs: Huffman coding in interleaved streams. Symbol i goes to stream i modulo
// the number of streams; the decoder runs in batches as long as whole loads stay inside
// every stream, and finishes on clamped readers.

module HuffmanStreams {
  import opened Common
  import opened PrefixCodeTheory
  import opened CodeLengths
  import opened CanonicalCodes
  import opened ByteStrings
  import opened BitStreams
  import opened Sections

  // ---------------------------------------------------------------- coded symbols

  function Bits(l: seq<nat>, xs: seq<byte>): nat
    requires |l| == 256
  {
    if xs == [] then 0 else l[xs[0]] + Bits(l, xs[1..])
  }

  // The number a stream of these symbols is: each code above the ones before it.
  function Value(l: seq<nat>, xs: seq<byte>): nat
    requires |l| == 256
  {
    if xs == [] then 0 else Rev(l, xs[0]) + Pow2(l[xs[0]]) * Value(l, xs[1..])
  }

  ghost predicate AllCoded(l: seq<nat>, xs: seq<byte>) {
    |l| == 256 && forall i :: 0 <= i < |xs| ==> l[xs[i]] > 0
  }

  lemma {:induction false} ValueAppend(l: seq<nat>, xs: seq<byte>, ys: seq<byte>)
    requires |l| == 256
    ensures Bits(l, xs + ys) == Bits(l, xs) + Bits(l, ys)
    ensures Value(l, xs + ys) == Value(l, xs) + Value(l, ys) * Pow2(Bits(l, xs))
  {
    hide Rev, Pow2;
    NoBit();
    if xs == [] {
      assert xs + ys == ys;
    } else {
      assert (xs + ys)[1..] == xs[1..] + ys;
      ValueAppend(l, xs[1..], ys);
      Pow2Add(l[xs[0]], Bits(l, xs[1..]));
      Distribute(Pow2(l[xs[0]]), Value(l, xs[1..]), Pow2(Bits(l, xs[1..])), Value(l, ys));
    }
  }

  lemma Distribute(p: nat, a: nat, q: nat, b: nat)
    ensures p * (a + b * q) == p * a + b * (p * q)
  {
  }

  lemma {:induction false} ValueFits(l: seq<nat>, xs: seq<byte>)
    requires |l| == 256
    ensures Value(l, xs) < Pow2(Bits(l, xs))
  {
    hide CodeOf, Pow2, Reverse;
    NoBit();
    if xs != [] {
      ValueFits(l, xs[1..]);
      ReverseFits(CodeOf(l, xs[0]), l[xs[0]]);
      Pow2Add(l[xs[0]], Bits(l, xs[1..]));
      PartsFit(Rev(l, xs[0]), Pow2(l[xs[0]]), Value(l, xs[1..]), Pow2(Bits(l, xs[1..])));
    }
  }

  lemma OneCode(l: seq<nat>, x: byte)
    requires |l| == 256
    ensures Bits(l, [x]) == l[x] && Value(l, [x]) == Rev(l, x)
  {
    assert [x][1..] == [];
  }

  lemma {:induction false} BitsBound(l: seq<nat>, limit: nat, xs: seq<byte>)
    requires |l| == 256 && Within(l, limit)
    ensures Bits(l, xs) <= |xs| * limit
  {
    if xs != [] { BitsBound(l, limit, xs[1..]); }
  }

  // Every step-th symbol from k on.
  function Every(data: seq<byte>, k: nat, step: nat): (r: seq<byte>)
    requires step > 0
    decreases |data| - k
  {
    if k >= |data| then [] else [data[k]] + Every(data, k + step, step)
  }

  lemma {:induction false} EveryAt(data: seq<byte>, k: nat, step: nat, j: nat)
    requires step > 0
    ensures j < |Every(data, k, step)| <==> k + j * step < |data|
    ensures j < |Every(data, k, step)| ==> Every(data, k, step)[j] == data[k + j * step]
    decreases |data| - k
  {
    if k >= |data| {
      MulAtLeastZero(j, step);
    } else if j > 0 {
      EveryAt(data, k + step, step, j - 1);
      assert k + step + (j - 1) * step == k + j * step;
    }
  }

  lemma MulAtLeastZero(j: nat, step: nat)
    ensures j * step >= 0
  {
  }

  lemma {:induction false} EveryLength(data: seq<byte>, k: nat, step: nat)
    requires step > 0
    ensures |Every(data, k, step)| * step <= Max(0, |data| - k) + step - 1
    decreases |data| - k
  {
    if k < |data| {
      EveryLength(data, k + step, step);
      OneMore(|Every(data, k + step, step)|, step);
      if k + step >= |data| { assert Every(data, k + step, step) == []; }
    }
  }

  lemma {:induction false} EveryCoded(l: seq<nat>, data: seq<byte>, k: nat, step: nat)
    requires step > 0 && AllCoded(l, data)
    ensures AllCoded(l, Every(data, k, step))
    decreases |data| - k
  {
    if k < |data| { EveryCoded(l, data, k + step, step); }
  }

  // ---------------------------------------------------------------- the encoder

  // Reversed codes and lengths.
  datatype Codes = Codes(rev: seq<nat>, len: seq<nat>)

  ghost predicate CodesFor(c: Codes, l: seq<nat>, limit: nat) {
    && |l| == 256 == |c.rev| && c.len == l && CodeLengthsOf(l, limit)
    && forall s :: 0 <= s < 256 && l[s] > 0 ==> c.rev[s] == Rev(l, s)
  }

  method BuildEncoder(l: seq<nat>, limit: nat) returns (c: Codes)
    requires |l| == 256 && CodeLengthsOf(l, limit)
    ensures CodesFor(c, l, limit)
  {
    hide CodeOf, Reverse, CodeLengthsOf;
    var codes := BuildCodes(l, limit);
    var rev := [];
    for s := 0 to 256
      invariant |rev| == s && forall t :: 0 <= t < s && l[t] > 0 ==> rev[t] == Rev(l, t)
    {
      var r := ReverseBits(codes[s], l[s]);
      rev := rev + [r];
    }
    return Codes(rev, l);
  }

  // What a cursor holds once some symbols are in it.
  ghost predicate Holds(w: BitCursor, l: seq<nat>, xs: seq<byte>)
    requires |l| == 256
    reads w, w.buf
  {
    w.Valid() && w.value == Value(l, xs) && w.total == Bits(l, xs)
  }

  lemma SymbolFits(c: Codes, l: seq<nat>, limit: nat, x: byte)
    requires CodesFor(c, l, limit) && l[x] > 0
    ensures c.rev[x] == Value(l, [x]) && c.len[x] == Bits(l, [x]) <= limit <= WIDEST && c.rev[x] < Pow2(c.len[x])
  {
    hide Rev, Pow2, CodeSpace, Value, Bits;
    OneCode(l, x);
    ValueFits(l, [x]);
  }

  method PutOne(w: BitCursor, c: Codes, ghost l: seq<nat>, ghost limit: nat, a: byte, ghost done: seq<byte>)
    requires CodesFor(c, l, limit) && Holds(w, l, done) && l[a] > 0 && w.total + l[a] <= w.maxBits
    modifies w, w.buf
    ensures Holds(w, l, done + [a])
  {
    hide Value, Bits, Pow2, CodesFor;
    SymbolFits(c, l, limit, a);
    CodesShape(c, l, limit);
    ValueAppend(l, done, [a]);
    w.Put(c.rev[a], c.len[a]);
  }

  lemma CodesShape(c: Codes, l: seq<nat>, limit: nat)
    requires CodesFor(c, l, limit)
    ensures |l| == 256 == |c.rev| && c.len == l && limit <= WIDEST && Within(l, limit)
  {
  }

  // Two codes end to end.
  lemma TwoCodes(l: seq<nat>, xs: seq<byte>, ys: seq<byte>)
    requires |l| == 256
    ensures Value(l, xs + ys) == Value(l, xs) + Value(l, ys) * Pow2(Bits(l, xs))
    ensures Bits(l, xs + ys) == Bits(l, xs) + Bits(l, ys)
    ensures Value(l, xs + ys) < Pow2(Bits(l, xs + ys))
  {
    hide Value, Bits, Pow2;
    ValueAppend(l, xs, ys);
    ValueFits(l, xs + ys);
  }

  // Four codes in one put.
  method PutFour(w: BitCursor, k: Codes, ghost l: seq<nat>, ghost limit: nat, a: byte, b: byte, c: byte, d: byte,
                 ghost done: seq<byte>)
    requires CodesFor(k, l, limit) && Holds(w, l, done) && l[a] > 0 && l[b] > 0 && l[c] > 0 && l[d] > 0
    requires w.total + l[a] + l[b] + l[c] + l[d] <= w.maxBits
    modifies w, w.buf
    ensures Holds(w, l, done + [a, b, c, d])
  {
    hide Value, Bits, Pow2, CodesFor;
    CodesShape(k, l, limit);
    SymbolFits(k, l, limit, a);
    SymbolFits(k, l, limit, b);
    SymbolFits(k, l, limit, c);
    SymbolFits(k, l, limit, d);
    TwoCodes(l, [a], [b]);
    TwoCodes(l, [c], [d]);
    TwoCodes(l, [a] + [b], [c] + [d]);
    assert [a] + [b] + ([c] + [d]) == [a, b, c, d];
    ValueAppend(l, done, [a, b, c, d]);
    var lab := k.len[a] + k.len[b];
    var ab := k.rev[a] + k.rev[b] * Pow2(k.len[a]);
    var cd := k.rev[c] + k.rev[d] * Pow2(k.len[c]);
    w.Put(ab + cd * Pow2(lab), lab + k.len[c] + k.len[d]);
  }

  lemma EveryIs(data: seq<byte>, k: nat, step: nat)
    requires step > 0 && k < |data|
    ensures Every(data, k, step) == [data[k]] + Every(data, k + step, step)
  {
  }

  lemma EverySplits(data: seq<byte>, j: nat, step: nat)
    requires step > 0 && j < |data|
    ensures Every(data, j, step) == [data[j]] + Every(data, j + step, step)
    ensures j + 3 * step < |data| ==>
      Every(data, j, step) == [data[j], data[j + step], data[j + 2 * step], data[j + 3 * step]] + Every(data, j + 4 * step, step)
  {
    hide Every;
    EveryIs(data, j, step);
    if j + 3 * step < |data| {
      EveryIs(data, j + step, step);
      EveryIs(data, j + 2 * step, step);
      EveryIs(data, j + 3 * step, step);
    }
  }

  // The bits of part of a stream fit where the whole stream's do.
  lemma PartOfStream(l: seq<nat>, done: seq<byte>, some: seq<byte>, rest: seq<byte>)
    requires |l| == 256
    ensures Bits(l, done) + Bits(l, some) <= Bits(l, done + (some + rest))
  {
    hide Value, Pow2;
    ValueAppend(l, done, some + rest);
    ValueAppend(l, some, rest);
  }

  lemma FourBits(l: seq<nat>, a: byte, b: byte, c: byte, d: byte)
    requires |l| == 256
    ensures Bits(l, [a, b, c, d]) == l[a] + l[b] + l[c] + l[d]
  {
    hide Value, Pow2;
    OneCode(l, a);
    OneCode(l, b);
    OneCode(l, c);
    OneCode(l, d);
    ValueAppend(l, [a], [b]);
    ValueAppend(l, [a] + [b], [c]);
    ValueAppend(l, [a] + [b] + [c], [d]);
    assert [a] + [b] + [c] + [d] == [a, b, c, d];
  }

  // Stream k of the data.
  method FillStream(data: seq<byte>, c: Codes, ghost l: seq<nat>, ghost limit: nat, k: nat, step: nat, w: BitCursor)
    requires step > 0 && CodesFor(c, l, limit) && AllCoded(l, data) && w.Valid() && w.value == 0 && w.total == 0
    requires Bits(l, Every(data, k, step)) <= w.maxBits
    modifies w, w.buf
    ensures Holds(w, l, Every(data, k, step))
  {
    hide Value, Bits, CodesFor, Every;
    ghost var all, done := Every(data, k, step), [];
    NoSymbols(l);
    CodesShape(c, l, limit);
    assert [] + all == all;
    var j := k;
    if step > 1 {
      while j + 3 * step < |data|
        invariant j >= k && Holds(w, l, done) && done + Every(data, j, step) == all
      {
        EverySplits(data, j, step);
        ghost var four := [data[j], data[j + step], data[j + 2 * step], data[j + 3 * step]];
        PartOfStream(l, done, four, Every(data, j + 4 * step, step));
        FourBits(l, data[j], data[j + step], data[j + 2 * step], data[j + 3 * step]);
        PutFour(w, c, l, limit, data[j], data[j + step], data[j + 2 * step], data[j + 3 * step], done);
        Assoc(done, four, Every(data, j + 4 * step, step));
        done := done + four;
        j := j + 4 * step;
      }
    }
    while j < |data|
      invariant Holds(w, l, done) && done + Every(data, j, step) == all
    {
      EverySplits(data, j, step);
      PartOfStream(l, done, [data[j]], Every(data, j + step, step));
      OneCode(l, data[j]);
      PutOne(w, c, l, limit, data[j], done);
      Assoc(done, [data[j]], Every(data, j + step, step));
      done := done + [data[j]];
      j := j + step;
    }
    EveryNone(data, j, step);
    assert done + [] == done;
  }

  lemma NoSymbols(l: seq<nat>)
    requires |l| == 256
    ensures Value(l, []) == 0 && Bits(l, []) == 0
  {
  }

  lemma EveryNone(data: seq<byte>, j: nat, step: nat)
    requires step > 0 && j >= |data|
    ensures Every(data, j, step) == []
  {
  }

  // One stream's bytes hold its symbols' codes and no more than a partial byte besides.
  ghost predicate PartFor(l: seq<nat>, part: seq<byte>, xs: seq<byte>)
    requires |l| == 256
  {
    Number(part) == Value(l, xs) && |part| == (Bits(l, xs) + 7) / 8
  }

  ghost predicate PartsFor(l: seq<nat>, parts: seq<seq<byte>>, data: seq<byte>, streams: nat)
    requires |l| == 256 && streams > 0
  {
    forall k :: 0 <= k < |parts| ==> PartFor(l, parts[k], Every(data, k, streams))
  }

  // The room reserved for a stream is enough for its symbols.
  lemma StreamFits(l: seq<nat>, limit: nat, data: seq<byte>, k: nat, streams: nat)
    requires |l| == 256 && Within(l, limit) && streams > 0
    ensures Bits(l, Every(data, k, streams)) <= (|data| + streams - 1) / streams * limit
  {
    hide Bits, Every;
    var n := |Every(data, k, streams)|;
    EveryLength(data, k, streams);
    BitsBound(l, limit, Every(data, k, streams));
    var total := |data| + streams - 1;
    DivisionIs(total, streams);
    OneMore(total / streams, streams);
    if n > total / streams { MulMonotone(total / streams + 1, n, streams); }
    MulMonotone(n, total / streams, limit);
  }

  method EncodeStream(data: seq<byte>, c: Codes, ghost l: seq<nat>, limit: nat, k: nat, streams: nat) returns (part: seq<byte>)
    requires streams > 0 && CodesFor(c, l, limit) && AllCoded(l, data)
    ensures PartFor(l, part, Every(data, k, streams))
  {
    hide CodesFor, Every, Value, Bits, Number;
    CodesShape(c, l, limit);
    StreamFits(l, limit, data, k, streams);
    var maxBits := (|data| + streams - 1) / streams * limit;
    var buf := new byte[maxBits / 8 + 16];
    var w := new BitCursor(buf, 0, maxBits);
    FillStream(data, c, l, limit, k, streams, w);
    var end := w.Finish();
    part := buf[0..end];
  }

  // A wide section keeps sizes in three bytes, a compact one in varints of four at most.
  predicate SizeFits(framing: Framing, size: nat) {
    size < (if framing == Wide then 0x100_0000 else 0x1000_0000)
  }

  method EncodeWith(data: seq<byte>, c: Codes, ghost l: seq<nat>, limit: nat, framing: Framing)
    returns (out: Option<seq<byte>>, ghost parts: seq<seq<byte>>)
    requires CodesFor(c, l, limit) && AllCoded(l, data)
    ensures |parts| == framing.Streams() && PartsFor(l, parts, data, framing.Streams())
    ensures out.None? <==> !SizesFit(framing, parts)
    ensures out.Some? ==> out.value == Section(framing, parts)
  {
    hide CodesFor, Every, PartFor, Flat, VarintSizes, WideSizes;
    CodesShape(c, l, limit);
    var streams := framing.Streams();
    var all: seq<seq<byte>>, flat: seq<byte>, sizes: seq<nat>, fits := [], [], [], true;
    FlatNothing([]);
    for k := 0 to streams
      invariant |all| == |sizes| == k && flat == Flat(all) && sizes == Lengths(all)
      invariant PartsFor(l, all, data, streams)
      invariant fits <==> forall i :: 0 <= i < k && i < streams - 1 ==> SizeFits(framing, |all[i]|)
    {
      var part := EncodeStream(data, c, l, limit, k, streams);
      FlatSnoc(all, part);
      if k < streams - 1 && !SizeFits(framing, |part|) { fits := false; }
      all, flat, sizes := all + [part], flat + part, sizes + [|part|];
    }
    parts := all;
    if !fits { return None, parts; }
    match framing {
      case Wide => return Some(WideSizes(sizes[..STREAMS - 1]) + flat + Zeros(PAD)), parts;
      case Compact => return Some(VarintSizes(sizes[..STREAMS - 1]) + flat), parts;
      case Single => return Some(flat), parts;
    }
  }

  lemma {:induction false} FlatSnoc(parts: seq<seq<byte>>, part: seq<byte>)
    ensures Flat(parts + [part]) == Flat(parts) + part && Lengths(parts + [part]) == Lengths(parts) + [|part|]
  {
    if parts == [] {
      assert [part][1..] == [];
    } else {
      assert (parts + [part])[1..] == parts[1..] + [part];
      FlatSnoc(parts[1..], part);
      Assoc(parts[0], Flat(parts[1..]), part);
    }
  }

  // ---------------------------------------------------------------- what the decoder reads

  // A table for the next tb bits: byte symbols, lengths of at most tb.
  ghost predicate Usable(t: seq<Entry>, tb: nat) {
    |t| == Pow2(tb) && tb <= WIDEST && forall i :: 0 <= i < |t| ==> t[i].sym < 256 && t[i].len <= tb
  }

  // The entry at bit pos of a stream, and where the j-th symbol of a stream starts.
  function EntryAt(t: seq<Entry>, tb: nat, v: nat, pos: nat): Entry
    requires |t| == Pow2(tb)
  {
    t[Window(v, pos, tb)]
  }

  function PosAt(t: seq<Entry>, tb: nat, v: nat, j: nat): nat
    requires |t| == Pow2(tb)
  {
    if j == 0 then 0 else
      var pos := PosAt(t, tb, v, j - 1);
      pos + EntryAt(t, tb, v, pos).len
  }

  function SymAt(t: seq<Entry>, tb: nat, v: nat, j: nat): nat
    requires |t| == Pow2(tb)
  {
    EntryAt(t, tb, v, PosAt(t, tb, v, j)).sym
  }

  // The j-th entry along a stream says a symbol.
  ghost predicate NamedAt(t: seq<Entry>, tb: nat, v: nat, j: nat)
    requires |t| == Pow2(tb)
  {
    EntryAt(t, tb, v, PosAt(t, tb, v, j)).len > 0
  }

  // A stream that starts with the codes of xs reads as xs.
  lemma {:induction false} WalkReads(l: seq<nat>, limit: nat, t: seq<Entry>, v: nat, pos: nat, j0: nat, xs: seq<byte>)
    requires AllCoded(l, xs) && CodeLengthsOf(l, limit) && TableFor(l, limit, t)
    requires pos == PosAt(t, limit, v, j0) && Window(v, pos, Bits(l, xs)) == Value(l, xs)
    ensures PosAt(t, limit, v, j0 + |xs|) == pos + Bits(l, xs)
    ensures forall j :: 0 <= j < |xs| ==> SymAt(t, limit, v, j0 + j) == xs[j] && NamedAt(t, limit, v, j0 + j)
    decreases |xs|
  {
    hide Window, Pow2, Rev, CodeLengthsOf, TableFor;
    TableShape(l, limit, t);
    if xs != [] {
      var x, n := xs[0], l[xs[0]];
      InLimit(l, limit);
      CodeAtFront(l, xs);
      WindowParts(v, pos, Bits(l, xs), n);
      WindowParts(v, pos, limit, n);
      assert Hits(l, x, Window(v, pos, limit));
      TableFinds(l, limit, t, x, Window(v, pos, limit));
      WalkReads(l, limit, t, v, pos + n, j0 + 1, xs[1..]);
      forall j | 0 <= j < |xs| ensures SymAt(t, limit, v, j0 + j) == xs[j] && NamedAt(t, limit, v, j0 + j) {
        if j > 0 { assert SymAt(t, limit, v, j0 + 1 + (j - 1)) == xs[1..][j - 1]; }
      }
    }
  }

  lemma TableShape(l: seq<nat>, limit: nat, t: seq<Entry>)
    requires TableFor(l, limit, t)
    ensures |t| == Pow2(limit)
  {
  }

  lemma CodeAtFront(l: seq<nat>, xs: seq<byte>)
    requires |l| == 256 && xs != []
    ensures Value(l, xs) % Pow2(l[xs[0]]) == Rev(l, xs[0]) && Value(l, xs) / Pow2(l[xs[0]]) == Value(l, xs[1..])
    ensures Bits(l, xs) == l[xs[0]] + Bits(l, xs[1..])
  {
    hide Pow2, CodeOf, Reverse, Value, Bits;
    ReverseFits(CodeOf(l, xs[0]), l[xs[0]]);
    FrontIs(l, xs);
    LowHigh(Rev(l, xs[0]), Pow2(l[xs[0]]), Value(l, xs[1..]));
  }

  lemma FrontIs(l: seq<nat>, xs: seq<byte>)
    requires |l| == 256 && xs != []
    ensures Value(l, xs) == Rev(l, xs[0]) + Pow2(l[xs[0]]) * Value(l, xs[1..])
    ensures Bits(l, xs) == l[xs[0]] + Bits(l, xs[1..])
  {
    hide Pow2, Rev;
  }

  lemma LowHigh(r: nat, p: nat, q: nat)
    requires r < p
    ensures (r + p * q) % p == r && (r + p * q) / p == q
  {
    DivModIs(r + p * q, p, q, r);
  }

  // So a stream carrying the part of xs reads as xs, within its own bits.
  lemma CarriedReads(l: seq<nat>, limit: nat, t: seq<Entry>, s: Stream, part: seq<byte>, tail: seq<byte>, xs: seq<byte>)
    requires AllCoded(l, xs) && CodeLengthsOf(l, limit) && TableFor(l, limit, t)
    requires Carries(s, part, tail) && PartFor(l, part, xs)
    ensures |t| == Pow2(limit) && PosAt(t, limit, Number(s.bytes), |xs|) <= 8 * s.len
    ensures forall j :: 0 <= j < |xs| ==> SymAt(t, limit, Number(s.bytes), j) == xs[j] && NamedAt(t, limit, Number(s.bytes), j)
  {
    hide Number, Pow2, Value, Bits, TableFor, CodeLengthsOf, PosAt, SymAt, NamedAt, Window, EntryAt;
    var v, n := Number(s.bytes), Bits(l, xs);
    TableShape(l, limit, t);
    CarriedNumber(s, part, tail);
    NumberFits(part);
    ValueFits(l, xs);
    LowWindow(v, 8 * s.len, Number(part), Number(s.bytes[s.len..]), n);
    WalkFromStart(l, limit, t, v, xs);
  }

  lemma WalkFromStart(l: seq<nat>, limit: nat, t: seq<Entry>, v: nat, xs: seq<byte>)
    requires AllCoded(l, xs) && CodeLengthsOf(l, limit) && TableFor(l, limit, t) && Window(v, 0, Bits(l, xs)) == Value(l, xs)
    ensures |t| == Pow2(limit) && PosAt(t, limit, v, |xs|) == Bits(l, xs)
    ensures forall j :: 0 <= j < |xs| ==> SymAt(t, limit, v, j) == xs[j] && NamedAt(t, limit, v, j)
  {
    hide Pow2, Value, Bits, TableFor, CodeLengthsOf, PosAt, SymAt, NamedAt, Window, EntryAt;
    TableShape(l, limit, t);
    StartAtZero(t, limit, v);
    WalkReads(l, limit, t, v, 0, 0, xs);
    forall j | 0 <= j < |xs| ensures SymAt(t, limit, v, j) == xs[j] && NamedAt(t, limit, v, j) {
      assert SymAt(t, limit, v, 0 + j) == xs[j];
    }
  }

  lemma StartAtZero(t: seq<Entry>, tb: nat, v: nat)
    requires |t| == Pow2(tb)
    ensures PosAt(t, tb, v, 0) == 0
  {
  }

  lemma LowWindow(v: nat, m: nat, low: nat, high: nat, n: nat)
    requires v == low + Pow2(m) * high && low < Pow2(m) && n <= m && low < Pow2(n)
    ensures Window(v, 0, n) == low
  {
    hide Pow2;
    NoBit();
    DivModIs(v, 1, v, 0);
    DivModIs(v, Pow2(m), high, low);
    WindowParts(v, 0, m, n);
    DivModIs(low, Pow2(n), 0, low);
  }
}
