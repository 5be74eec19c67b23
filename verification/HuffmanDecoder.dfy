// src/huff8.rs, the decoder: batches of four symbols a stream from one load each, while
// every load is sure to stay inside its stream, then one symbol at a time from clamped
// readers. Both read what PosAt and SymAt say.

module HuffmanDecoder {
  import opened Common
  import opened CodeLengths
  import opened CanonicalCodes
  import opened ByteStrings
  import opened BitStreams
  import opened Sections
  import opened HuffmanStreams
  import opened TableWalks

  // ---------------------------------------------------------------- one stream, four symbols

  method LoadBits(bytes: seq<byte>, b: nat) returns (w: nat)
    requires b / 8 + 8 <= |bytes|
    ensures w == Window(Number(bytes), b, 64 - b % 8)
  {
    hide Number, Pow2, Window;
    var at := b / 8;
    LoadIsWindow(bytes, at);
    WindowParts(Number(bytes), 8 * at, 64, b % 8);
    w := Number(bytes[at..at + 8]) / Pow2(b % 8);
  }

  method DecodeFour(t: seq<Entry>, tb: nat, bytes: seq<byte>, b: nat, ghost j: nat) returns (syms: seq<byte>, next: nat)
    requires Usable(t, tb) && b / 8 + 8 <= |bytes| && b == PosAt(t, tb, Number(bytes), j)
    ensures |syms| == 4 && forall r :: 0 <= r < 4 ==> syms[r] == SymAt(t, tb, Number(bytes), j + r)
    ensures next == PosAt(t, tb, Number(bytes), j + 4) && next <= b + 4 * tb
  {
    hide Number, Pow2, Window, PosAt;
    ghost var v := Number(bytes);
    TableSize(t, tb);
    var w := LoadBits(bytes, b);
    syms, next := [], b;
    for r := 0 to 4
      invariant |syms| == r && forall i :: 0 <= i < r ==> syms[i] == SymAt(t, tb, v, j + i)
      invariant b <= next <= b + r * tb && next == PosAt(t, tb, v, j + r)
      invariant w == Window(v, next, 64 - b % 8 - (next - b))
    {
      WindowParts(v, next, 64 - b % 8 - (next - b), tb);
      var e := t[w % Pow2(tb)];
      PosStep(t, tb, v, j + r);
      WindowParts(v, next, 64 - b % 8 - (next - b), e.len);
      w := w / Pow2(e.len);
      syms := syms + [e.sym];
      next := next + e.len;
    }
  }

  lemma TableSize(t: seq<Entry>, tb: nat)
    requires Usable(t, tb)
    ensures |t| == Pow2(tb) && tb <= 14
  {
  }


  // ---------------------------------------------------------------- the batches

  // What symbol i must be.
  function Expected(t: seq<Entry>, tb: nat, streams: seq<Stream>, i: nat): nat
    requires |t| == Pow2(tb) && streams != []
  {
    SymAt(t, tb, Number(streams[i % |streams|].bytes), i / |streams|)
  }

  ghost predicate RightBetween(t: seq<Entry>, tb: nat, streams: seq<Stream>, out: seq<byte>, lo: nat, hi: nat)
    requires |t| == Pow2(tb) && streams != [] && hi <= |out|
  {
    forall i :: lo <= i < hi ==> out[i] == Expected(t, tb, streams, i)
  }

  // Stream k stands behind its first j symbols.
  ghost predicate StandsAt(t: seq<Entry>, tb: nat, s: Stream, b: nat, j: nat)
    requires |t| == Pow2(tb)
  {
    b == PosAt(t, tb, Number(s.bytes), j)
  }

  // Row r of a batch at rows j: output index o + r * n + k belongs to stream k.
  lemma RowIndex(n: nat, j: nat, r: nat, k: nat)
    requires k < n
    ensures (n * j + r * n + k) % n == k && (n * j + r * n + k) / n == j + r
  {
    assert n * j + r * n + k == (j + r) * n + k;
    DivModIs(n * j + r * n + k, n, j + r, k);
  }

  lemma RowOf(n: nat, j: nat, i: nat)
    requires n > 0 && n * j <= i < n * j + 4 * n
    ensures j <= i / n < j + 4 && i == n * j + (i / n - j) * n + i % n
  {
    DivisionIs(i, n);
    var q := i / n;
    if q < j { MulMonotone(q + 1, j, n); }
    if q >= j + 4 { MulMonotone(j + 4, q, n); }
  }

  // Four symbols of stream k into its places.
  method StoreFour(syms: seq<byte>, out: array<byte>, n: nat, ghost j: nat, o: nat, k: nat)
    requires |syms| == 4 && k < n && o == n * j && o + 4 * n <= out.Length
    modifies out
    ensures forall i :: 0 <= i < out.Length && !(o <= i < o + 4 * n && i % n == k) ==> out[i] == old(out[i])
    ensures forall i :: o <= i < o + 4 * n && i % n == k ==> j <= i / n < j + 4 && out[i] == syms[i / n - j]
  {
    var a, b, c, d := o + k, o + n + k, o + 2 * n + k, o + 3 * n + k;
    ghost var was := out[..];
    out[a], out[b], out[c], out[d] := syms[0], syms[1], syms[2], syms[3];
    FourPlaced(was, out[..], syms, n, j, o, k);
  }

  lemma FourPlaced(was: seq<byte>, out: seq<byte>, syms: seq<byte>, n: nat, j: nat, o: nat, k: nat)
    requires |syms| == 4 && k < n && o == n * j && o + 4 * n <= |out| == |was|
    requires out == was[o + k := syms[0]][o + n + k := syms[1]][o + 2 * n + k := syms[2]][o + 3 * n + k := syms[3]]
    ensures forall i :: 0 <= i < |out| && !(o <= i < o + 4 * n && i % n == k) ==> out[i] == was[i]
    ensures forall i :: o <= i < o + 4 * n && i % n == k ==> j <= i / n < j + 4 && out[i] == syms[i / n - j]
  {
    forall i | 0 <= i < |out| && !(o <= i < o + 4 * n && i % n == k) ensures out[i] == was[i] {
      RowIndex(n, j, 0, k);
      RowIndex(n, j, 1, k);
      RowIndex(n, j, 2, k);
      RowIndex(n, j, 3, k);
    }
    forall i | o <= i < o + 4 * n && i % n == k ensures j <= i / n < j + 4 && out[i] == syms[i / n - j] {
      RowOf(n, j, i);
      FourAt(was, out, syms, n, o, k, i / n - j, i);
    }
  }

  lemma FourAt(was: seq<byte>, out: seq<byte>, syms: seq<byte>, n: nat, o: nat, k: nat, r: nat, i: nat)
    requires |syms| == 4 && k < n && o + 4 * n <= |out| == |was| && r < 4 && i == o + r * n + k
    requires out == was[o + k := syms[0]][o + n + k := syms[1]][o + 2 * n + k := syms[2]][o + 3 * n + k := syms[3]]
    ensures 0 <= i < |out| && out[i] == syms[r]
  {
    if r == 0 {
      assert i == o + k;
    } else if r == 1 {
      assert i == o + n + k;
    } else if r == 2 {
      assert i == o + 2 * n + k;
    } else {
      assert i == o + 3 * n + k;
    }
  }

  method Batch(t: seq<Entry>, tb: nat, streams: seq<Stream>, b: array<nat>, ghost j: nat, out: array<byte>, o: nat)
    requires Usable(t, tb) && streams != [] && b.Length == |streams|
    requires o == |streams| * j && o + 4 * |streams| <= out.Length
    requires forall k :: 0 <= k < |streams| ==> StandsAt(t, tb, streams[k], b[k], j) && b[k] / 8 + 8 <= |streams[k].bytes|
    modifies b, out
    ensures forall k :: 0 <= k < |streams| ==> StandsAt(t, tb, streams[k], b[k], j + 4) && b[k] <= old(b[k]) + 4 * tb
    ensures RightBetween(t, tb, streams, out[..], o, o + 4 * |streams|)
    ensures forall i :: 0 <= i < out.Length && !(o <= i < o + 4 * |streams|) ==> out[i] == old(out[i])
  {
    hide Number, PosAt, SymAt, Pow2;
    var n := |streams|;
    for k := 0 to n
      invariant forall i :: 0 <= i < k ==> StandsAt(t, tb, streams[i], b[i], j + 4) && b[i] <= old(b[i]) + 4 * tb
      invariant forall i :: k <= i < n ==> b[i] == old(b[i])
      invariant forall i :: o <= i < o + 4 * n && i % n < k ==> out[i] == Expected(t, tb, streams, i)
      invariant forall i :: 0 <= i < out.Length && !(o <= i < o + 4 * n) ==> out[i] == old(out[i])
    {
      var syms, next := DecodeFour(t, tb, streams[k].bytes, b[k], j);
      b[k] := next;
      StoreFour(syms, out, n, j, o, k);
    }
  }

  // Bytes a batch can move a stream's load address.
  function BatchBytes(tb: nat): nat {
    (4 * tb + 7) / 8
  }

  // Batches one stream can take before a load might start past last.
  function SafeBatches(at: nat, last: nat, tb: nat): nat
    requires BatchBytes(tb) > 0
  {
    if at > last then 0 else (last - at) / BatchBytes(tb) + 1
  }

  // The last byte a whole load may start at.
  function Last(s: Stream): nat {
    if |s.bytes| >= PAD then |s.bytes| - PAD else 0
  }

  // With this many batches still to run, the address is far enough from the last one.
  ghost predicate Margin(b: nat, last: nat, batches: nat, tb: nat) {
    batches > 0 ==> b / 8 + (batches - 1) * BatchBytes(tb) <= last
  }

  lemma SafeMargin(b: nat, last: nat, tb: nat, batches: nat)
    requires BatchBytes(tb) > 0 && batches <= SafeBatches(b / 8, last, tb)
    ensures Margin(b, last, batches, tb)
  {
    hide BatchBytes;
    if batches > 0 {
      DivisionIs(last - b / 8, BatchBytes(tb));
      MulMonotone(batches - 1, (last - b / 8) / BatchBytes(tb), BatchBytes(tb));
    }
  }

  lemma MarginShrinks(b: nat, next: nat, last: nat, batches: nat, tb: nat)
    requires Margin(b, last, batches, tb) && batches > 0 && next <= b + 4 * tb
    ensures Margin(next, last, batches - 1, tb)
  {
    assert next / 8 <= b / 8 + BatchBytes(tb);
    if batches > 1 { OneLess(batches - 1, BatchBytes(tb)); }
  }

  lemma OneLess(n: nat, p: nat)
    requires n > 0
    ensures (n - 1) * p + p == n * p
  {
  }

  ghost predicate Standing(t: seq<Entry>, tb: nat, streams: seq<Stream>, b: seq<nat>, j: nat)
    requires |t| == Pow2(tb)
  {
    |b| == |streams| && forall k :: 0 <= k < |streams| ==> StandsAt(t, tb, streams[k], b[k], j)
  }

  // Streams with their padding.
  ghost predicate Sized(streams: seq<Stream>) {
    streams != [] && forall k :: 0 <= k < |streams| ==> |streams[k].bytes| >= PAD && streams[k].len <= |streams[k].bytes| - PAD
  }

  // The batches all streams can take.
  method SafeRun(tb: nat, streams: seq<Stream>, b: array<nat>, wanted: nat) returns (iters: nat)
    requires BatchBytes(tb) > 0 && Sized(streams) && b.Length == |streams|
    ensures iters <= wanted && Margins(streams, b[..], iters, tb)
  {
    hide BatchBytes, SafeBatches, Margin;
    iters := wanted;
    for k := 0 to |streams|
      invariant iters <= wanted
      invariant forall i :: 0 <= i < k ==> iters <= SafeBatches(b[i] / 8, Last(streams[i]), tb)
    {
      iters := Min(iters, SafeBatches(b[k] / 8, Last(streams[k]), tb));
    }
    forall k | 0 <= k < |streams| ensures Margin(b[k], Last(streams[k]), iters, tb) {
      SafeMargin(b[k], Last(streams[k]), tb, iters);
    }
  }

  ghost predicate Margins(streams: seq<Stream>, b: seq<nat>, batches: nat, tb: nat)
    requires |b| == |streams|
  {
    forall k :: 0 <= k < |streams| ==> Margin(b[k], Last(streams[k]), batches, tb)
  }

  // Before a batch: where every stream stands, and that it may be loaded there.
  lemma BatchReady(t: seq<Entry>, tb: nat, streams: seq<Stream>, b: seq<nat>, j: nat, batches: nat, k: nat)
    requires |t| == Pow2(tb) && Standing(t, tb, streams, b, j) && Margins(streams, b, batches, tb) && batches > 0
    requires k < |streams| && Sized(streams)
    ensures StandsAt(t, tb, streams[k], b[k], j) && b[k] / 8 + 8 <= |streams[k].bytes|
  {
    hide StandsAt;
    MarginIs(b[k], Last(streams[k]), batches, tb);
  }

  lemma MarginsShrink(streams: seq<Stream>, b: seq<nat>, next: seq<nat>, batches: nat, tb: nat)
    requires |b| == |next| == |streams| && Sized(streams) && Margins(streams, b, batches, tb) && batches > 0
    requires forall k :: 0 <= k < |streams| ==> next[k] <= b[k] + 4 * tb
    ensures Margins(streams, next, batches - 1, tb)
  {
    hide Margin;
    forall k | 0 <= k < |streams| ensures Margin(next[k], Last(streams[k]), batches - 1, tb) {
      MarginShrinks(b[k], next[k], Last(streams[k]), batches, tb);
    }
  }

  method OneBatch(t: seq<Entry>, tb: nat, streams: seq<Stream>, b: array<nat>, ghost j: nat, out: array<byte>, o: nat,
                  ghost batches: nat)
    requires Usable(t, tb) && Sized(streams) && b.Length == |streams| && batches > 0
    requires o == RowStart(|streams|, j) && o + 4 * |streams| <= out.Length
    requires Standing(t, tb, streams, b[..], j) && Margins(streams, b[..], batches, tb)
    requires RightBetween(t, tb, streams, out[..], 0, o)
    modifies b, out
    ensures Standing(t, tb, streams, b[..], j + 4) && Margins(streams, b[..], batches - 1, tb)
    ensures RightBetween(t, tb, streams, out[..], 0, o + 4 * |streams|)
    ensures forall i :: o + 4 * |streams| <= i < out.Length ==> out[i] == old(out[i])
  {
    hide Number, PosAt, Pow2, Expected, StandsAt, Margin, Margins, BatchBytes;
    TableSize(t, tb);
    ghost var was := b[..];
    forall k | 0 <= k < |streams| ensures StandsAt(t, tb, streams[k], b[k], j) && b[k] / 8 + 8 <= |streams[k].bytes| {
      BatchReady(t, tb, streams, was, j, batches, k);
    }
    Batch(t, tb, streams, b, j, out, o);
    MarginsShrink(streams, was, b[..], batches, tb);
  }

  // Where row j of the output starts.
  function RowStart(streams: nat, j: nat): nat {
    streams * j
  }

  lemma RowsOn(streams: nat, j: nat, k: nat)
    ensures RowStart(streams, j + 4) == RowStart(streams, j) + 4 * streams && RowStart(streams, 0) == 0
    ensures j <= k ==> RowStart(streams, j) <= RowStart(streams, k)
  {
    if j <= k { MulMonotone(j, k, streams); }
  }

  method RunBatches(t: seq<Entry>, tb: nat, streams: seq<Stream>, b: array<nat>, ghost j: nat, out: array<byte>, o: nat,
                    iters: nat)
    returns (at: nat)
    requires Usable(t, tb) && Sized(streams) && b.Length == |streams|
    requires o == RowStart(|streams|, j) && RowStart(|streams|, j + 4 * iters) <= out.Length
    requires Standing(t, tb, streams, b[..], j) && RowStart(|streams|, j) <= out.Length && RightBetween(t, tb, streams, out[..], 0, o)
    requires Margins(streams, b[..], iters, tb)
    modifies b, out
    ensures at == RowStart(|streams|, j + 4 * iters)
    ensures Standing(t, tb, streams, b[..], j + 4 * iters)
    ensures RightBetween(t, tb, streams, out[..], 0, RowStart(|streams|, j + 4 * iters))
    ensures out[RowStart(|streams|, j + 4 * iters)..] == old(out[RowStart(|streams|, j + 4 * iters)..])
  {
    hide Number, Pow2, Standing, RightBetween, Margins, Usable, RowStart;
    TableSize(t, tb);
    at := o;
    ghost var end := RowStart(|streams|, j + 4 * iters);
    for it := 0 to iters
      invariant at == RowStart(|streams|, j + 4 * it) <= out.Length && |t| == Pow2(tb)
      invariant Standing(t, tb, streams, b[..], j + 4 * it) && RightBetween(t, tb, streams, out[..], 0, at)
      invariant Margins(streams, b[..], iters - it, tb)
      invariant out[end..] == old(out[end..])
    {
      RowsOn(|streams|, j + 4 * it, j + 4 * iters);
      RowsOn(|streams|, j + 4 * (it + 1), j + 4 * iters);
      ghost var was := out[..];
      OneBatch(t, tb, streams, b, j + 4 * it, out, at, iters - it);
      SamePast(was, out[..], end);
      at := at + 4 * |streams|;
    }
  }

  lemma MarginIs(b: nat, last: nat, batches: nat, tb: nat)
    requires Margin(b, last, batches, tb) && batches > 0
    ensures b / 8 <= last
  {
    MulAtLeastZero(batches - 1, BatchBytes(tb));
  }

  lemma SamePast(a: seq<byte>, b: seq<byte>, end: nat)
    requires |a| == |b| && end <= |a| && forall i :: end <= i < |a| ==> b[i] == a[i]
    ensures b[end..] == a[end..]
  {
  }

  // ---------------------------------------------------------------- the tail

  // How many of the first n symbols are stream k's.
  function Share(n: nat, k: nat, streams: nat): nat
    requires streams > 0
  {
    if n <= k then 0 else (n - k - 1) / streams + 1
  }

  lemma ShareStep(i: nat, k: nat, streams: nat)
    requires k < streams
    ensures Share(i + 1, k, streams) == Share(i, k, streams) + (if i % streams == k then 1 else 0)
    ensures i % streams == k ==> Share(i, k, streams) == i / streams
  {
    hide Share;
    DivisionIs(i, streams);
    ShareIs(i, k, streams);
    ShareIs(i + 1, k, streams);
    DivisionIs(i + 1, streams);
    if i % streams == streams - 1 {
      OneMore(i / streams, streams);
      DivModIs(i + 1, streams, i / streams + 1, 0);
    } else {
      DivModIs(i + 1, streams, i / streams, i % streams + 1);
    }
  }

  lemma ShareIs(n: nat, k: nat, streams: nat)
    requires k < streams
    ensures Share(n, k, streams) == n / streams + (if n % streams > k then 1 else 0)
  {
    DivisionIs(n, streams);
    if n > k {
      ShareParts(n, k, streams, n / streams, n % streams);
    } else {
      DivModIs(n, streams, 0, n);
    }
  }

  lemma ShareParts(n: nat, k: nat, streams: nat, q: nat, r: nat)
    requires k < streams && k < n && r < streams && n == streams * q + r
    ensures (n - k - 1) / streams + 1 == q + (if r > k then 1 else 0)
  {
    if r > k {
      DivModIs(n - k - 1, streams, q, r - k - 1);
    } else {
      if q == 0 { assert false; }
      OneLess(q, streams);
      DivModIs(n - k - 1, streams, q - 1, r + streams - k - 1);
    }
  }

  lemma ShareWhole(j: nat, k: nat, streams: nat)
    requires k < streams
    ensures Share(streams * j, k, streams) == j
  {
    hide Share;
    ShareIs(streams * j, k, streams);
    DivModIs(streams * j, streams, j, 0);
  }

  ghost predicate AllPadded(streams: seq<Stream>) {
    forall k :: 0 <= k < |streams| ==> Padded(streams[k])
  }

  // One symbol from a clamped reader, at an index that has the stream's own bits right.
  method ReadSymbol(r: BitReader, t: seq<Entry>, tb: nat) returns (sym: byte, ghost i: nat)
    requires r.Valid() && Usable(t, tb)
    modifies r
    ensures r.Valid() && |t| == Pow2(tb) && i < |t| && sym == t[i].sym && r.pos == old(r.pos) + t[i].len
    ensures Agrees(r.src, old(r.pos), tb, i)
    ensures Padded(r.src) ==> i == Window(Number(r.src.bytes), old(r.pos), tb)
  {
    hide Number, Pow2, Window, Padded, Sure, Own;
    TableSize(t, tb);
    r.Refill();
    IndexSure(r.src, r.pos, tb, r.Peek(tb));
    i := r.Peek(tb);
    var e := t[r.Peek(tb)];
    r.Consume(e.len);
    sym := e.sym;
  }

  lemma IndexSure(s: Stream, pos: nat, tb: nat, i: nat)
    requires |s.bytes| >= PAD && s.len <= |s.bytes| - PAD && i < Pow2(tb)
    requires i % Pow2(Sure(s, pos, tb)) == Window(Number(s.bytes), pos, Sure(s, pos, tb))
    ensures Agrees(s, pos, tb, i) && (Padded(s) ==> i == Window(Number(s.bytes), pos, tb))
  {
    hide Number, Pow2, Window, Padded;
    SureLow(Number(s.bytes), pos, i, Sure(s, pos, tb), Own(s, pos, tb));
    DivModIs(i, Pow2(tb), 0, i);
  }

  // A reader that has left the bits of a stream without padding.
  ghost predicate Astray(s: Stream, pos: nat) {
    !Padded(s) && pos > 8 * s.len
  }

  // Where a reader may be after j symbols of its stream.
  ghost predicate InStep(t: seq<Entry>, tb: nat, s: Stream, pos: nat, j: nat)
    requires |t| == Pow2(tb)
  {
    StandsAt(t, tb, s, pos, j) || (!Padded(s) && Follows(t, tb, s, pos, j))
  }

  // What makes the first m symbols of a stream certain.
  ghost predicate Certain(t: seq<Entry>, tb: nat, s: Stream, m: nat)
    requires |t| == Pow2(tb)
  {
    Padded(s) || Settled(t, tb, s, m)
  }

  ghost predicate AllCertain(t: seq<Entry>, tb: nat, streams: seq<Stream>, n: nat)
    requires |t| == Pow2(tb) && streams != []
  {
    forall k :: 0 <= k < |streams| ==> Certain(t, tb, streams[k], Share(n, k, |streams|))
  }

  // One more symbol of one stream.
  lemma SymbolStep(t: seq<Entry>, tb: nat, s: Stream, pos: nat, j: nat, m: nat, i: nat)
    requires Usable(t, tb) && |t| == Pow2(tb) && i < |t| && Agrees(s, pos, tb, i)
    requires Padded(s) ==> i == Window(Number(s.bytes), pos, tb)
    requires Certain(t, tb, s, m) && j < m && InStep(t, tb, s, pos, j)
    ensures InStep(t, tb, s, pos + t[i].len, j + 1)
    ensures Astray(s, pos + t[i].len) || t[i].sym == SymAt(t, tb, Number(s.bytes), j)
  {
    hide Pow2, Number, PosAt, Agrees, Usable, Settled, Padded, Window;
    if Padded(s) {
      PosStep(t, tb, Number(s.bytes), j);
    } else {
      FollowsOn(t, tb, s, pos, j, m, i);
    }
  }

  // The readers' places in their streams after the first i symbols.
  ghost predicate Reading(t: seq<Entry>, tb: nat, streams: seq<Stream>, pos: seq<nat>, i: nat)
    requires |t| == Pow2(tb)
  {
    |pos| == |streams| && forall k :: 0 <= k < |pos| ==> InStep(t, tb, streams[k], pos[k], Share(i, k, |streams|))
  }

  // Symbols up to hi are right, but for those of readers gone astray.
  ghost predicate RightUnlessAstray(t: seq<Entry>, tb: nat, streams: seq<Stream>, pos: seq<nat>, out: seq<byte>, hi: nat)
    requires |t| == Pow2(tb) && streams != [] && hi <= |out| && |pos| == |streams|
  {
    forall i :: 0 <= i < hi ==> out[i] == Expected(t, tb, streams, i) || Astray(streams[i % |streams|], pos[i % |streams|])
  }

  ghost function Places(rs: seq<BitReader>): (r: seq<nat>)
    reads rs
    ensures |r| == |rs| && forall k :: 0 <= k < |rs| ==> r[k] == rs[k].pos
  {
    if rs == [] then [] else Places(rs[..|rs| - 1]) + [rs[|rs| - 1].pos]
  }

  ghost predicate Readers(rs: seq<BitReader>, streams: seq<Stream>)
    reads rs
  {
    && |rs| == |streams|
    && (forall k :: 0 <= k < |rs| ==> rs[k].src == streams[k] && rs[k].Valid())
    && (forall i, k :: 0 <= i < k < |rs| ==> rs[i] != rs[k])
  }

  method StartReaders(streams: seq<Stream>, b: array<nat>) returns (rs: seq<BitReader>)
    requires Sized(streams) && b.Length == |streams|
    ensures fresh(rs) && Readers(rs, streams) && Places(rs) == b[..]
  {
    rs := [];
    for k := 0 to |streams|
      invariant |rs| == k && fresh(rs)
      invariant forall i :: 0 <= i < k ==> rs[i].src == streams[i] && rs[i].Valid() && rs[i].pos == b[i]
      invariant forall i, j :: 0 <= i < j < k ==> rs[i] != rs[j]
    {
      var r := new BitReader(streams[k], b[k]);
      rs := rs + [r];
    }
  }

  lemma ReadingStep(t: seq<Entry>, tb: nat, streams: seq<Stream>, pos: seq<nat>, pos': seq<nat>, i: nat, n: nat, x: nat)
    requires Usable(t, tb) && |t| == Pow2(tb) && streams != [] && i < n && x < |t|
    requires AllCertain(t, tb, streams, n) && Reading(t, tb, streams, pos, i) && |pos'| == |pos|
    requires forall k :: 0 <= k < |pos| && k != i % |streams| ==> pos'[k] == pos[k]
    requires var k := i % |streams|; pos'[k] == pos[k] + t[x].len && Agrees(streams[k], pos[k], tb, x)
    requires var k := i % |streams|; Padded(streams[k]) ==> x == Window(Number(streams[k].bytes), pos[k], tb)
    ensures Reading(t, tb, streams, pos', i + 1)
    ensures Astray(streams[i % |streams|], pos'[i % |streams|]) || t[x].sym == Expected(t, tb, streams, i)
  {
    hide Number, PosAt, Share, Pow2, Padded, Window, Agrees, Usable, Certain, InStep, Astray, SymAt;
    var k := i % |streams|;
    ShareStep(i, k, |streams|);
    ShareMonotone(i + 1, n, k, |streams|);
    SymbolStep(t, tb, streams[k], pos[k], Share(i, k, |streams|), Share(n, k, |streams|), x);
    forall h | 0 <= h < |pos'| ensures InStep(t, tb, streams[h], pos'[h], Share(i + 1, h, |streams|)) {
      ShareStep(i, h, |streams|);
    }
  }

  lemma ShareMonotone(a: nat, b: nat, k: nat, streams: nat)
    requires a <= b && k < streams
    ensures Share(a, k, streams) <= Share(b, k, streams)
  {
    if k < a {
      DivisionIs(a - k - 1, streams);
      DivisionIs(b - k - 1, streams);
      var p, q := (a - k - 1) / streams, (b - k - 1) / streams;
      if p > q { MulMonotone(q + 1, p, streams); }
    }
  }

  // What one step leaves of the symbols before it: a reader that is astray stays so.
  lemma RightStep(t: seq<Entry>, tb: nat, streams: seq<Stream>, pos: seq<nat>, pos': seq<nat>, out: seq<byte>, out': seq<byte>,
                  i: nat)
    requires |t| == Pow2(tb) && streams != [] && |pos| == |pos'| == |streams| && i < |out| == |out'|
    requires RightUnlessAstray(t, tb, streams, pos, out, i)
    requires forall k :: 0 <= k < |pos| ==> pos[k] <= pos'[k]
    requires forall j :: 0 <= j < i ==> out'[j] == out[j]
    requires Astray(streams[i % |streams|], pos'[i % |streams|]) || out'[i] == Expected(t, tb, streams, i)
    ensures RightUnlessAstray(t, tb, streams, pos', out', i + 1)
  {
    hide Pow2, Expected, Padded;
    forall j | 0 <= j < i + 1
      ensures out'[j] == Expected(t, tb, streams, j) || Astray(streams[j % |streams|], pos'[j % |streams|])
    {
      if j < i { assert pos[j % |streams|] <= pos'[j % |streams|]; }
    }
  }

  // Before the readers start, and once none has overrun, nothing is astray.
  lemma NoneAstray(t: seq<Entry>, tb: nat, streams: seq<Stream>, pos: seq<nat>, out: seq<byte>, hi: nat)
    requires |t| == Pow2(tb) && streams != [] && |pos| == |streams| && hi <= |out|
    ensures RightBetween(t, tb, streams, out, 0, hi) ==> RightUnlessAstray(t, tb, streams, pos, out, hi)
    ensures RightUnlessAstray(t, tb, streams, pos, out, hi)
      && (AllPadded(streams) || forall k :: 0 <= k < |pos| ==> pos[k] <= 8 * streams[k].len)
      ==> RightBetween(t, tb, streams, out, 0, hi)
  {
    hide Pow2, Expected, Padded;
  }

  // The next symbol, from its stream's reader.
  method TailStep(t: seq<Entry>, tb: nat, streams: seq<Stream>, rs: seq<BitReader>, out: array<byte>, i: nat, ghost n: nat)
    requires Usable(t, tb) && |t| == Pow2(tb) && streams != [] && Readers(rs, streams) && i < out.Length && i < n
    requires AllCertain(t, tb, streams, n) ==>
      Reading(t, tb, streams, Places(rs), i) && RightUnlessAstray(t, tb, streams, Places(rs), out[..], i)
    modifies rs, out
    ensures Readers(rs, streams)
    ensures AllCertain(t, tb, streams, n) ==>
      Reading(t, tb, streams, Places(rs), i + 1) && RightUnlessAstray(t, tb, streams, Places(rs), out[..], i + 1)
    ensures forall j :: 0 <= j < out.Length && j != i ==> out[j] == old(out[j])
  {
    hide Number, PosAt, EntryAt, Share, Pow2, Expected, Padded, Reading, RightUnlessAstray, AllCertain, Agrees, Window, Astray, Usable;
    var k := i % |streams|;
    ghost var places, was := Places(rs), out[..];
    var sym, x := ReadSymbol(rs[k], t, tb);
    out[i] := sym;
    if AllCertain(t, tb, streams, n) {
      ReadingStep(t, tb, streams, places, Places(rs), i, n, x);
      RightStep(t, tb, streams, places, Places(rs), was, out[..], i);
    }
  }

  method NoneOverrun(rs: seq<BitReader>, ghost streams: seq<Stream>) returns (ok: bool)
    requires Readers(rs, streams)
    ensures ok <==> forall k :: 0 <= k < |rs| ==> rs[k].pos <= 8 * streams[k].len
  {
    ok := true;
    for k := 0 to |rs|
      invariant ok <==> forall i :: 0 <= i < k ==> rs[i].pos <= 8 * streams[i].len
    {
      if rs[k].Overrun() { ok := false; }
    }
  }

  // Every stream was read no further than its own bits.
  ghost predicate WithinBits(t: seq<Entry>, tb: nat, streams: seq<Stream>, n: nat)
    requires |t| == Pow2(tb) && streams != []
  {
    forall k :: 0 <= k < |streams| ==> PosAt(t, tb, Number(streams[k].bytes), Share(n, k, |streams|)) <= 8 * streams[k].len
  }

  lemma PlacesWithin(t: seq<Entry>, tb: nat, streams: seq<Stream>, pos: seq<nat>, n: nat)
    requires |t| == Pow2(tb) && streams != [] && Reading(t, tb, streams, pos, n)
    ensures WithinBits(t, tb, streams, n) <==> forall k :: 0 <= k < |pos| ==> pos[k] <= 8 * streams[k].len
  {
    hide Number, PosAt, Share, Pow2, Padded;
    forall k | 0 <= k < |pos|
      ensures pos[k] <= 8 * streams[k].len <==> PosAt(t, tb, Number(streams[k].bytes), Share(n, k, |streams|)) <= 8 * streams[k].len
    {
      assert InStep(t, tb, streams[k], pos[k], Share(n, k, |streams|));
    }
  }

  method Tail(t: seq<Entry>, tb: nat, streams: seq<Stream>, rs: seq<BitReader>, out: array<byte>, o: nat, n: nat)
    returns (ok: bool)
    requires Usable(t, tb) && |t| == Pow2(tb) && streams != [] && Readers(rs, streams) && o <= n <= out.Length
    requires Reading(t, tb, streams, Places(rs), o) && RightBetween(t, tb, streams, out[..], 0, o)
    modifies rs, out
    ensures AllCertain(t, tb, streams, n) ==>
      (ok <==> WithinBits(t, tb, streams, n)) && (ok || AllPadded(streams) ==> RightBetween(t, tb, streams, out[..], 0, n))
    ensures out[n..] == old(out[n..])
  {
    hide Number, Pow2, Padded, Reading, RightBetween, RightUnlessAstray, WithinBits, AllPadded, AllCertain, Usable, Places, Readers;
    PlacesShape(rs, streams);
    NoneAstray(t, tb, streams, Places(rs), out[..], o);
    for i := o to n
      invariant Readers(rs, streams) && |Places(rs)| == |streams|
      invariant AllCertain(t, tb, streams, n) ==>
        Reading(t, tb, streams, Places(rs), i) && RightUnlessAstray(t, tb, streams, Places(rs), out[..], i)
      invariant out[n..] == old(out[n..])
    {
      ghost var was := out[..];
      TailStep(t, tb, streams, rs, out, i, n);
      PlacesShape(rs, streams);
      SamePast(was, out[..], n);
    }
    ok := NoneOverrun(rs, streams);
    PlacesShape(rs, streams);
    TailEnds(t, tb, streams, Places(rs), out[..], n);
  }

  lemma PlacesShape(rs: seq<BitReader>, streams: seq<Stream>)
    requires Readers(rs, streams)
    ensures |rs| == |streams| == |Places(rs)| && forall k :: 0 <= k < |rs| ==> Places(rs)[k] == rs[k].pos
  {
  }

  // What the readers' last places say.
  lemma TailEnds(t: seq<Entry>, tb: nat, streams: seq<Stream>, pos: seq<nat>, out: seq<byte>, n: nat)
    requires |t| == Pow2(tb) && streams != [] && |pos| == |streams| && n <= |out|
    ensures Reading(t, tb, streams, pos, n) && RightUnlessAstray(t, tb, streams, pos, out, n) ==>
      var ok := forall k :: 0 <= k < |pos| ==> pos[k] <= 8 * streams[k].len;
      (ok <==> WithinBits(t, tb, streams, n)) && (ok || AllPadded(streams) ==> RightBetween(t, tb, streams, out, 0, n))
  {
    hide Pow2, Reading, RightBetween, RightUnlessAstray, WithinBits, AllPadded;
    if Reading(t, tb, streams, pos, n) { PlacesWithin(t, tb, streams, pos, n); }
    NoneAstray(t, tb, streams, pos, out, n);
  }

  // ---------------------------------------------------------------- the decoder

  // Batches of four symbols a stream that left symbols fill.
  function WholeBatches(left: nat, streams: nat): nat
    requires streams > 0
  {
    var batch := 4 * streams;
    QuotientAtLeastZero(left, batch);
    left / batch
  }

  method FastPart(t: seq<Entry>, tb: nat, streams: seq<Stream>, b: array<nat>, n: nat, out: array<byte>)
    returns (o: nat, ghost j: nat)
    requires Usable(t, tb) && tb > 0 && Sized(streams) && n <= out.Length && b.Length == |streams|
    requires Standing(t, tb, streams, b[..], 0)
    modifies b, out
    ensures o == RowStart(|streams|, j) && o <= n
    ensures Standing(t, tb, streams, b[..], j) && RightBetween(t, tb, streams, out[..], 0, o)
    ensures out[n..] == old(out[n..])
  {
    hide Number, Pow2, Standing, RightBetween, Margins, Usable, RowStart, WholeBatches;
    TableSize(t, tb);
    o, j := 0, 0;
    RowsOn(|streams|, 0, 0);
    NothingRight(t, tb, streams, out[..]);
    while true
      invariant o == RowStart(|streams|, j) && o <= n && |t| == Pow2(tb)
      invariant Standing(t, tb, streams, b[..], j) && RightBetween(t, tb, streams, out[..], 0, o)
      invariant out[n..] == old(out[n..])
      decreases n - o
    {
      var iters := SafeRun(tb, streams, b, WholeBatches(n - o, |streams|));
      if iters == 0 { break; }
      RoomForBatches(|streams|, j, n, iters);
      ghost var was := out[..];
      o := RunBatches(t, tb, streams, b, j, out, o, iters);
      j := j + 4 * iters;
      KeptFurther(was, out[..], o, n);
    }
  }

  lemma NothingRight(t: seq<Entry>, tb: nat, streams: seq<Stream>, out: seq<byte>)
    requires |t| == Pow2(tb) && streams != []
    ensures RightBetween(t, tb, streams, out, 0, 0)
  {
  }

  // Decode n symbols into the front of out; false if a stream was read past its own bits.
  // What is accepted is what the table says along each stream. The bytes behind a stream's
  // own may be anything, as long as its symbols are certain: every index says a symbol, or
  // the stream holds its symbols, or the bytes behind are zeros.
  method DecodeWith(t: seq<Entry>, tb: nat, streams: seq<Stream>, n: nat, out: array<byte>) returns (ok: bool)
    requires Usable(t, tb) && |t| == Pow2(tb) && tb > 0 && Sized(streams) && n <= out.Length
    modifies out
    ensures AllCertain(t, tb, streams, n) ==>
      (ok <==> WithinBits(t, tb, streams, n)) && (ok || AllPadded(streams) ==> RightBetween(t, tb, streams, out[..], 0, n))
    ensures out[n..] == old(out[n..])
  {
    hide Number, Pow2, Reading, RightBetween, WithinBits, AllPadded, AllCertain, Standing, Usable;
    TableSize(t, tb);
    var b := new nat[|streams|](_ => 0);
    AllStart(t, tb, streams, b[..]);
    var o, j := FastPart(t, tb, streams, b, n, out);
    ghost var was := out[n..];
    var rs := StartReaders(streams, b);
    StillStanding(t, tb, streams, b[..], j);
    ok := Tail(t, tb, streams, rs, out, o, n);
  }

  lemma AllStart(t: seq<Entry>, tb: nat, streams: seq<Stream>, b: seq<nat>)
    requires |t| == Pow2(tb) && |b| == |streams| && forall k :: 0 <= k < |b| ==> b[k] == 0
    ensures Standing(t, tb, streams, b, 0)
  {
  }

  lemma RoomForBatches(s: nat, j: nat, n: nat, iters: nat)
    requires s > 0 && RowStart(s, j) <= n && 0 < iters <= WholeBatches(n - RowStart(s, j), s)
    ensures RowStart(s, j) < RowStart(s, j + 4 * iters) <= n
  {
    var left := n - RowStart(s, j);
    DivisionIs(left, 4 * s);
    MulMonotone(iters, left / (4 * s), 4 * s);
    MulAtLeast(iters, 4 * s);
    RowsDone(s, j, iters);
  }

  lemma RowsDone(s: nat, j: nat, iters: nat)
    ensures s * (j + 4 * iters) == s * j + iters * (4 * s)
  {
  }

  lemma KeptFurther(a: seq<byte>, b: seq<byte>, from: nat, n: nat)
    requires from <= n <= |a| == |b| && b[from..] == a[from..]
    ensures b[n..] == a[n..]
  {
    assert b[n..] == b[from..][n - from..] && a[n..] == a[from..][n - from..];
  }

  lemma StillStanding(t: seq<Entry>, tb: nat, streams: seq<Stream>, b: seq<nat>, j: nat)
    requires |t| == Pow2(tb) && streams != [] && Standing(t, tb, streams, b, j)
    ensures Reading(t, tb, streams, b, |streams| * j)
  {
    hide Share, PosAt, Number, Padded;
    forall k | 0 <= k < |b| ensures StandsAt(t, tb, streams[k], b[k], Share(|streams| * j, k, |streams|)) {
      ShareWhole(j, k, |streams|);
    }
  }

  // ---------------------------------------------------------------- encoding, then decoding

  lemma TableUsable(l: seq<nat>, limit: nat, t: seq<Entry>)
    requires |l| == 256 && CodeLengthsOf(l, limit) && TableFor(l, limit, t)
    ensures Usable(t, limit)
  {
    hide Hits, Pow2, CodeSpace;
    forall i | 0 <= i < |t| ensures t[i].sym < 256 && t[i].len <= limit {
      assert EntryFor(l, |l|, i, t[i]);
    }
  }

  lemma ShareEvery(data: seq<byte>, k: nat, streams: nat)
    requires streams > 0
    ensures Share(|data|, k, streams) == |Every(data, k, streams)|
  {
    hide Every;
    var m, n := |Every(data, k, streams)|, |data|;
    EveryAt(data, k, streams, m);
    if n > k {
      EveryAt(data, k, streams, 0);
      EveryAt(data, k, streams, m - 1);
      OneLess(m, streams);
      DivModIs(n - k - 1, streams, m - 1, n - k - 1 - (m - 1) * streams);
    } else {
      EveryAt(data, k, streams, 0);
    }
  }

  // Every stream carries its symbols' part.
  ghost predicate Carried(l: seq<nat>, streams: seq<Stream>, parts: seq<seq<byte>>, data: seq<byte>, tail: seq<byte>) {
    && AllCoded(l, data) && streams != [] && AllCarry(streams, parts, tail) && PartsFor(l, parts, data, |streams|)
    && |tail| >= PAD
  }

  lemma CarriedStream(l: seq<nat>, limit: nat, t: seq<Entry>, streams: seq<Stream>, parts: seq<seq<byte>>, data: seq<byte>,
                      tail: seq<byte>, k: nat)
    requires CodeLengthsOf(l, limit) && TableFor(l, limit, t) && Carried(l, streams, parts, data, tail) && k < |streams|
    ensures |t| == Pow2(limit) && Settled(t, limit, streams[k], Share(|data|, k, |streams|))
    ensures PosAt(t, limit, Number(streams[k].bytes), Share(|data|, k, |streams|)) <= 8 * streams[k].len
    ensures forall j :: 0 <= j < |Every(data, k, |streams|)| ==>
      SymAt(t, limit, Number(streams[k].bytes), j) == Every(data, k, |streams|)[j]
  {
    hide Number, Pow2, TableFor, CodeLengthsOf, PosAt, SymAt, Every, Share, Carries, PartFor, Prefixed, NamedAt;
    EveryCoded(l, data, k, |streams|);
    TablePrefixed(l, limit, t);
    CarriedReads(l, limit, t, streams[k], parts[k], tail, Every(data, k, |streams|));
    ShareEvery(data, k, |streams|);
  }

  lemma CarriedSymbol(l: seq<nat>, limit: nat, t: seq<Entry>, streams: seq<Stream>, parts: seq<seq<byte>>, data: seq<byte>,
                      tail: seq<byte>, i: nat)
    requires CodeLengthsOf(l, limit) && TableFor(l, limit, t) && Carried(l, streams, parts, data, tail) && i < |data|
    ensures |t| == Pow2(limit) && Expected(t, limit, streams, i) == data[i]
  {
    hide Number, Pow2, TableFor, CodeLengthsOf, PosAt, SymAt, Every, Share, Carried;
    assert streams != [] by { CarriedShape(l, streams, parts, data, tail); }
    var n := |streams|;
    DivisionIs(i, n);
    CarriedStream(l, limit, t, streams, parts, data, tail, i % n);
    EveryAt(data, i % n, n, i / n);
  }

  lemma CarriedShape(l: seq<nat>, streams: seq<Stream>, parts: seq<seq<byte>>, data: seq<byte>, tail: seq<byte>)
    requires Carried(l, streams, parts, data, tail)
    ensures streams != [] && Sized(streams)
  {
    hide PartsFor, AllCoded;
    forall k | 0 <= k < |streams| ensures |streams[k].bytes| >= PAD && streams[k].len <= |streams[k].bytes| - PAD {
      assert Carries(streams[k], parts[k], tail);
    }
  }

  // So the decoder's contract says the data, with no stream overrun.
  lemma CarriedDecodes(l: seq<nat>, limit: nat, t: seq<Entry>, streams: seq<Stream>, parts: seq<seq<byte>>, data: seq<byte>,
                       tail: seq<byte>, out: seq<byte>)
    requires CodeLengthsOf(l, limit) && TableFor(l, limit, t) && Carried(l, streams, parts, data, tail)
    requires |out| == |data|
    ensures |t| == Pow2(limit) && streams != [] && AllCertain(t, limit, streams, |data|)
    ensures WithinBits(t, limit, streams, |data|)
    ensures RightBetween(t, limit, streams, out, 0, |data|) ==> out == data
  {
    hide Number, Pow2, TableFor, CodeLengthsOf, PosAt, Expected, Every, Share, Carried, Padded, Settled;
    CarriedShape(l, streams, parts, data, tail);
    forall k | 0 <= k < |streams|
      ensures |t| == Pow2(limit) && Settled(t, limit, streams[k], Share(|data|, k, |streams|))
        && PosAt(t, limit, Number(streams[k].bytes), Share(|data|, k, |streams|)) <= 8 * streams[k].len
    {
      CarriedStream(l, limit, t, streams, parts, data, tail, k);
    }
    assert |t| == Pow2(limit) by { CarriedStream(l, limit, t, streams, parts, data, tail, 0); }
    forall i | 0 <= i < |data| ensures Expected(t, limit, streams, i) == data[i] {
      CarriedSymbol(l, limit, t, streams, parts, data, tail, i);
    }
  }

  // A code that uses up its code space makes the decoder's contract say everything about
  // any streams: whatever the bytes, it refuses just the streams that run out.
  lemma FullCodeCertain(l: seq<nat>, limit: nat, t: seq<Entry>, streams: seq<Stream>, n: nat)
    requires CodeLengthsOf(l, limit) && CodeSpace(l, limit) == Pow2(limit) && TableFor(l, limit, t) && streams != []
    ensures |t| == Pow2(limit) && AllCertain(t, limit, streams, n)
  {
    hide Pow2, CodeSpace, Padded, Number, Share, PosAt, NamedAt;
    FullTable(l, limit, t);
    TablePrefixed(l, limit, t);
  }

  // A section of any framing comes apart into its streams.
  method TakeApart(framing: Framing, section: seq<byte>, rest: seq<byte>, ghost parts: seq<seq<byte>>)
    returns (streams: seq<Stream>)
    requires |parts| == framing.Streams() && SizesFit(framing, parts) && section == Section(framing, parts)
    requires framing != Wide ==> |rest| >= PAD
    ensures |streams| == framing.Streams() && AllCarry(streams, parts, if framing == Wide then Zeros(PAD) else rest)
  {
    hide AllCarry, Section, SplitWide, SplitCompact;
    match framing {
      case Wide =>
        WideSplits(parts);
        var r := Split(section);
        streams := r.value;
      case Compact =>
        CompactSplits(parts, rest);
        streams := SplitCompact(section + rest, |section|, false).value;
      case Single =>
        assert parts == [parts[0]];
        SingleSplits(parts[0], rest);
        streams := SplitCompact(section + rest, |section|, true).value;
    }
  }

  // For any data and any prefix code for its symbols, in every framing: the section
  // written decodes to the data. What follows a section of a compact payload is rest: any
  // eight bytes or more, whose content is never used.
  method CodedRoundTrip(data: seq<byte>, l: seq<nat>, limit: nat, framing: Framing, rest: seq<byte>)
    returns (r: Option<seq<byte>>)
    requires limit > 0 && CodeLengthsOf(l, limit) && AllCoded(l, data)
    requires framing != Wide ==> |rest| >= PAD
    ensures r.Some? ==> r.value == data
    ensures |data| <= 0x80_0000 ==> r.Some?
  {
    hide CodeLengthsOf, Carried, SizesFit, RightBetween, WithinBits, AllPadded, AllCertain, TableFor, Sized, Usable, AllCarry, PartsFor;
    InLimit(l, limit);
    var table := BuildTable(l, limit);
    var c := BuildEncoder(l, limit);
    var section, parts := EncodeWith(data, c, l, limit, framing);
    SmallFits(l, limit, data, framing, parts);
    if section.None? { return None; }
    var streams := TakeApart(framing, section.value, rest, parts);
    ghost var tail := if framing == Wide then Zeros(PAD) else rest;
    CarriedIs(l, streams, parts, data, tail);
    CarriedShape(l, streams, parts, data, tail);
    TableUsable(l, limit, table.value);
    TableShape(l, limit, table.value);
    var out := new byte[|data|];
    var ok := DecodeWith(table.value, limit, streams, |data|, out);
    CarriedDecodes(l, limit, table.value, streams, parts, data, tail, out[..]);
    assert ok;
    return Some(out[..]);
  }

  lemma CarriedIs(l: seq<nat>, streams: seq<Stream>, parts: seq<seq<byte>>, data: seq<byte>, tail: seq<byte>)
    requires AllCoded(l, data) && streams != [] && AllCarry(streams, parts, tail) && PartsFor(l, parts, data, |streams|)
    requires |tail| >= PAD
    ensures Carried(l, streams, parts, data, tail)
  {
  }

  // Up to eight megabytes every size fits its field.
  lemma SmallFits(l: seq<nat>, limit: nat, data: seq<byte>, framing: Framing, parts: seq<seq<byte>>)
    requires CodeLengthsOf(l, limit) && AllCoded(l, data) && PartsFor(l, parts, data, framing.Streams())
    ensures |data| <= 0x80_0000 ==> SizesFit(framing, parts)
  {
    hide Number, Pow2, Every, Bits, Value, CodeSpace;
    var n := framing.Streams();
    forall k | 0 <= k < |parts| ensures |data| <= 0x80_0000 ==> |parts[k]| < 0x100_0000 {
      var xs := Every(data, k, n);
      assert PartFor(l, parts[k], xs);
      BitsBound(l, limit, xs);
      EveryLength(data, k, n);
      MulAtLeastSelf(|xs|, n);
      MulMonotone(limit, 14, |xs|);
    }
  }

  lemma MulAtLeastSelf(x: nat, n: nat)
    requires n > 0
    ensures x <= x * n
  {
  }
}
