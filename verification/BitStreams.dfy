// src/bits.rs: bit streams, low bit first. A stream is a number: its first bit is the
// number's low bit, and its bytes are the number in little-endian order.

module BitStreams {
  import opened Common
  import opened ByteStrings

  const PAD: nat := 8
  const MAX_PUT: nat := 56

  // ---------------------------------------------------------------- numbers made of parts

  lemma {:induction false} NumberFits(s: seq<byte>)
    ensures Number(s) < Pow2(8 * |s|)
  {
    if s != [] {
      NumberFits(s[1..]);
      Pow2Add(8, 8 * |s[1..]|);
      assert Pow2(8) == 256;
    }
  }

  lemma NumberAppend(a: seq<byte>, b: seq<byte>)
    ensures Number(a + b) == Number(a) + Pow2(8 * |a|) * Number(b)
  {
    hide Number, Pow2;
    NumberSplit(a + b, |a|);
    assert (a + b)[..|a|] == a && (a + b)[|a|..] == b;
  }

  // A part below and a part above do not overlap.
  lemma PartsFit(lo: nat, p: nat, hi: nat, q: nat)
    requires lo < p && hi < q
    ensures lo + hi * p < q * p && lo + p * hi < p * q
  {
    MulMonotone(hi + 1, q, p);
  }

  // The first k bytes of a stored word.
  lemma StoredBytes(acc: nat, k: nat)
    requires acc < Pow2(64) && k <= 8
    ensures Number(Bytes(acc, 8)[..k]) == acc % Pow2(8 * k)
  {
    hide Number, Bytes, Pow2;
    NumberOfBytes(acc, 8);
    LowIs(Bytes(acc, 8), k);
  }

  // ---------------------------------------------------------------- the writer

  // A write cursor over a reserved buffer: acc holds the n pending bits.
  class BitCursor {
    const buf: array<byte>
    const base: nat
    const maxBits: nat
    var acc: nat
    var n: nat
    var p: nat
    // Everything put so far, as one number of total bits.
    ghost var value: nat
    ghost var total: nat

    ghost predicate Valid()
      reads this, buf
    {
      && base <= p && base + maxBits / 8 + 16 <= buf.Length && total <= maxBits
      && n < 8 && acc < Pow2(n) && total == 8 * (p - base) + n
      && value == Number(buf[base..p]) + Pow2(8 * (p - base)) * acc && value < Pow2(total)
    }

    constructor (buf: array<byte>, base: nat, maxBits: nat)
      requires base + maxBits / 8 + 16 <= buf.Length
      ensures Valid() && value == 0 && total == 0
      ensures this.buf == buf && this.base == base && this.maxBits == maxBits
    {
      this.buf, this.base, this.maxBits := buf, base, maxBits;
      acc, n, p := 0, 0, base;
      value, total := 0, 0;
      new;
      assert buf[base..base] == [];
    }

    method StoreWord(w: nat)
      requires p + 8 <= buf.Length
      modifies buf
      ensures buf[..p] == old(buf[..p]) && buf[p..p + 8] == Bytes(w, 8)
    {
      hide Bytes;
      var b := Bytes(w, 8);
      ghost var was := buf[..p];
      forall i | 0 <= i < 8 { buf[p + i] := b[i]; }
      SliceIs(buf[..], p, b, 0, 8);
      assert buf[..p] == was && b[0..8] == b;
      assert buf[p..p + 8] == buf[..][..p + 8][p..];
    }

    // The accumulator takes the bits, is stored whole, and keeps what is not a whole byte.
    method Shift(v: nat, bits: nat)
      requires base <= p && p + 8 <= buf.Length
      modifies `acc, `n, `p, buf
      ensures var w := old(acc) + v * Pow2(old(n));
        var bytes := (old(n) + bits) / 8;
        bytes <= 8 ==>
        && p == old(p) + bytes && n == (old(n) + bits) % 8 && acc == w / Pow2(8 * bytes)
        && p <= buf.Length && buf[base..p] == old(buf[base..p]) + Bytes(w, 8)[..bytes]
      ensures buf[..base] == old(buf[..base])
    {
      hide Bytes, Pow2;
      ghost var p0, was := p, buf[..];
      acc := acc + v * Pow2(n);
      n := n + bits;
      StoreWord(acc);
      var bytes := n / 8;
      StoredBehind(was, buf[..], base, p0, Bytes(acc, 8), Min(bytes, 8));
      p := p + bytes;
      acc := acc / Pow2(8 * bytes);
      n := n % 8;
    }

    // Append the low bits of v. One unaligned store covers whatever is complete.
    method Put(v: nat, bits: nat)
      requires Valid() && bits <= MAX_PUT && v < Pow2(bits) && total + bits <= maxBits
      modifies this, buf
      ensures Valid()
      ensures value == old(value) + v * Pow2(old(total)) && total == old(total) + bits
      ensures buf[..base] == old(buf[..base])
    {
      hide Number, Bytes, Pow2;
      PutMeans(buf[base..p], acc, n, v, bits, value, total);
      Shift(v, bits);
      value, total := value + v * Pow2(total), total + bits;
    }

    // Close the stream with the partial byte, if any.
    method Finish() returns (end: nat)
      requires Valid()
      modifies buf
      ensures base <= end <= buf.Length && end - base == (total + 7) / 8
      ensures Number(buf[base..end]) == value && value < Pow2(8 * (end - base))
      ensures buf[..base] == old(buf[..base])
    {
      hide Number, Pow2, Closed;
      ghost var was := buf[..];
      end := p + (if n > 0 then 1 else 0);
      ClosedMeans(buf[base..p], acc, n, value, total, end - base);
      buf[p] := acc % 256;
      ByteBehind(was, buf[..], base, p, end, acc);
    }
  }

  lemma ByteBehind(was: seq<byte>, b: seq<byte>, base: nat, p: nat, end: nat, x: byte)
    requires base <= p < |was| == |b| && b == was[p := x] && p <= end <= p + 1
    ensures b[base..end] == Closed(was[base..p], x, end - base) && b[..base] == was[..base]
  {
  }

  // Whole bytes, and a partial one if size says so.
  function Closed(before: seq<byte>, x: byte, size: nat): seq<byte> {
    if size > |before| then before + [x] else before
  }

  lemma ClosedMeans(before: seq<byte>, acc: nat, n: nat, value: nat, total: nat, size: nat)
    requires n < 8 && acc < Pow2(n) && total == 8 * |before| + n && size == |before| + (if n > 0 then 1 else 0)
    requires value == Number(before) + Pow2(8 * |before|) * acc && value < Pow2(total)
    ensures acc % 256 == acc && Number(Closed(before, acc % 256, size)) == value
    ensures size == (total + 7) / 8 && value < Pow2(8 * size)
  {
    hide Number, Pow2;
    NoBit();
    Pow2Words();
    Pow2Monotone(n, 8);
    NumberAppend(before, [acc]);
    NumberOne(acc);
    Pow2Monotone(total, 8 * size);
  }

  lemma StoredBehind(b: seq<byte>, b': seq<byte>, base: nat, p: nat, data: seq<byte>, k: nat)
    requires base <= p && p + |data| <= |b'| && p <= |b| && k <= |data|
    requires b'[..p] == b[..p] && b'[p..p + |data|] == data
    ensures b'[base..p + k] == b[base..p] + data[..k] && b'[..base] == b[..base]
  {
    assert b'[base..p + k] == b'[..p][base..] + b'[p..p + |data|][..k];
    assert b'[..base] == b'[..p][..base];
  }

  lemma NoBit()
    ensures Pow2(0) == 1
  {
  }

  lemma QuotientBelow(x: nat, p: nat, q: nat)
    requires p > 0 && x < p * q
    ensures x / p < q
  {
    assert x == p * (x / p) + x % p;
    if x / p >= q { MulMonotone(q, x / p, p); }
  }

  // What the number becomes when bits are shifted in above it.
  lemma PutMeans(before: seq<byte>, a0: nat, n0: nat, v: nat, bits: nat, value: nat, total: nat)
    requires n0 < 8 && a0 < Pow2(n0) && bits <= MAX_PUT && v < Pow2(bits) && total == 8 * |before| + n0
    requires value == Number(before) + Pow2(8 * |before|) * a0 && value < Pow2(total)
    ensures var w, bytes := a0 + v * Pow2(n0), (n0 + bits) / 8;
      && w / Pow2(8 * bytes) < Pow2((n0 + bits) % 8)
      && value + v * Pow2(total)
           == Number(before + Bytes(w, 8)[..bytes]) + Pow2(8 * (|before| + bytes)) * (w / Pow2(8 * bytes))
      && value + v * Pow2(total) < Pow2(total + bits)
  {
    hide Number, Bytes, Pow2;
    var w, bytes := a0 + v * Pow2(n0), (n0 + bits) / 8;
    PutFits(a0, n0, v, bits, w, bytes, (n0 + bits) % 8);
    StoredBytes(w, bytes);
    PutSplits(before, Bytes(w, 8)[..bytes], a0, n0, v, w, bytes, value, total);
    Pow2Add(total, bits);
    PartsFit(value, Pow2(total), v, Pow2(bits));
  }

  lemma PutFits(a0: nat, n0: nat, v: nat, bits: nat, w: nat, bytes: nat, rest: nat)
    requires n0 < 8 && a0 < Pow2(n0) && bits <= MAX_PUT && v < Pow2(bits)
    requires w == a0 + v * Pow2(n0) && n0 + bits == 8 * bytes + rest
    ensures w < Pow2(64) && w / Pow2(8 * bytes) < Pow2(rest)
  {
    hide Pow2;
    Pow2Add(n0, bits);
    PartsFit(a0, Pow2(n0), v, Pow2(bits));
    TopFits(w, 8 * bytes, rest);
    Pow2Monotone(n0 + bits, 64);
  }

  lemma TopFits(w: nat, low: nat, high: nat)
    requires w < Pow2(low + high)
    ensures w / Pow2(low) < Pow2(high)
  {
    hide Pow2;
    Pow2Add(low, high);
    QuotientBelow(w, Pow2(low), Pow2(high));
  }

  lemma PutSplits(before: seq<byte>, stored: seq<byte>, a0: nat, n0: nat, v: nat, w: nat, bytes: nat, value: nat, total: nat)
    requires w == a0 + v * Pow2(n0) && |stored| == bytes && Number(stored) == w % Pow2(8 * bytes)
    requires total == 8 * |before| + n0 && value == Number(before) + Pow2(8 * |before|) * a0
    ensures value + v * Pow2(total) == Number(before + stored) + Pow2(8 * (|before| + bytes)) * (w / Pow2(8 * bytes))
  {
    hide Number, Pow2;
    NumberAppend(before, stored);
    Pow2Add(8 * |before|, 8 * bytes);
    Pow2Add(8 * |before|, n0);
    PutAdds(Number(before), Pow2(8 * |before|), a0, v, Pow2(n0), w % Pow2(8 * bytes), Pow2(8 * bytes), w / Pow2(8 * bytes));
  }

  lemma PutAdds(num: nat, s: nat, a0: nat, v: nat, p0: nat, low: nat, pb: nat, acc: nat)
    requires a0 + v * p0 == pb * acc + low
    ensures num + s * a0 + v * (s * p0) == (num + s * low) + s * pb * acc
  {
    assert s * (a0 + v * p0) == s * (pb * acc + low);
  }

  // ---------------------------------------------------------------- windows into a stream

  // The n bits from bit pos on; beyond the number's end they are zeros.
  function Window(v: nat, pos: nat, n: nat): (w: nat)
    ensures w < Pow2(n)
  {
    v / Pow2(pos) % Pow2(n)
  }

  // A narrower window, and a later one.
  lemma WindowParts(v: nat, pos: nat, n: nat, k: nat)
    requires k <= n
    ensures Window(v, pos, n) % Pow2(k) == Window(v, pos, k)
    ensures Window(v, pos, n) / Pow2(k) == Window(v, pos + k, n - k)
  {
    hide Pow2;
    Pow2Add(k, n - k);
    ModMod(v / Pow2(pos), Pow2(k), Pow2(n - k));
    Pow2Add(pos, k);
    DivDiv(v, Pow2(pos), Pow2(k));
  }

  lemma NothingBeyond(v: nat, end: nat, pos: nat, n: nat)
    requires v < Pow2(end) && end <= pos
    ensures Window(v, pos, n) == 0
  {
    hide Pow2;
    Pow2Monotone(end, pos);
    DivModIs(v, Pow2(pos), 0, v);
    DivModIs(0, Pow2(n), 0, 0);
  }

  // Eight bytes loaded at a byte address.
  lemma LoadIsWindow(s: seq<byte>, at: nat)
    requires at + 8 <= |s|
    ensures Number(s[at..at + 8]) == Window(Number(s), 8 * at, 64)
  {
    hide Number, Pow2;
    NumberSplit(s, at);
    DivModIs(Number(s), Pow2(8 * at), Number(s[at..]), Number(s[..at]));
    LowIs(s[at..], 8);
    assert s[at..][..8] == s[at..at + 8];
  }

  // ---------------------------------------------------------------- or

  // The bitwise or of two numbers.
  function Or(a: nat, b: nat): nat
    decreases a + b
  {
    if a == 0 then b else if b == 0 then a
    else (if a % 2 == 1 || b % 2 == 1 then 1 else 0) + 2 * Or(a / 2, b / 2)
  }

  lemma OrStep(a: nat, b: nat)
    ensures Or(a, b) == (if a % 2 == 1 || b % 2 == 1 then 1 else 0) + 2 * Or(a / 2, b / 2)
  {
  }

  lemma {:induction false} OrFits(a: nat, b: nat, n: nat)
    requires a < Pow2(n) && b < Pow2(n)
    ensures Or(a, b) < Pow2(n)
  {
    if n > 0 {
      OrStep(a, b);
      OrFits(a / 2, b / 2, n - 1);
    }
  }

  // Or with bits already there changes nothing.
  lemma {:induction false} OrAgain(y: nat, k: nat)
    ensures Or(y % Pow2(k), y) == y
  {
    hide Pow2;
    TwoBits(k);
    if k == 0 {
      DivModIs(y, 1, y, 0);
    } else {
      ModMod(y, 2, Pow2(k - 1));
      OrStep(y % Pow2(k), y);
      OrAgain(y / 2, k - 1);
    }
  }

  lemma TwoBits(k: nat)
    ensures Pow2(0) == 1 && (k > 0 ==> Pow2(k) == 2 * Pow2(k - 1))
  {
  }

  // The low bits of an or are the or of the low bits.
  lemma {:induction false} OrLow(a: nat, b: nat, k: nat)
    ensures Or(a, b) % Pow2(k) == Or(a % Pow2(k), b % Pow2(k))
  {
    hide Pow2, Or;
    TwoBits(k);
    if k == 0 {
      OrNothing(0);
    } else {
      var q := Pow2(k - 1);
      LowSplit(a, q);
      LowSplit(b, q);
      LowSplit(Or(a, b), q);
      OrStep(a, b);
      OrStep(a % (2 * q), b % (2 * q));
      OrLow(a / 2, b / 2, k - 1);
    }
  }

  lemma LowSplit(x: nat, q: nat)
    requires q > 0
    ensures x % (2 * q) == x % 2 + 2 * (x / 2 % q)
    ensures x % (2 * q) / 2 == x / 2 % q && x % (2 * q) % 2 == x % 2
  {
    ModMod(x, 2, q);
  }

  lemma OrNothing(a: nat)
    ensures Or(a, 0) == a
  {
  }

  // Or with bits that all lie at c or above leaves the low ones alone.
  lemma {:induction false} OrAbove(lo: nat, hi: nat, y: nat, c: nat)
    requires lo < Pow2(c)
    ensures Or(lo + Pow2(c) * hi, Pow2(c) * y) == lo + Pow2(c) * Or(hi, y)
    decreases c
  {
    hide Pow2, Or;
    TwoBits(c);
    if c > 0 {
      var p := Pow2(c - 1);
      Halves(lo, hi, p);
      Halves(0, y, p);
      OrStep(lo + Pow2(c) * hi, Pow2(c) * y);
      OrAbove(lo / 2, hi, y, c - 1);
      Twice(lo, p, Or(hi, y));
    }
  }

  lemma Halves(lo: nat, hi: nat, p: nat)
    ensures (lo + 2 * p * hi) / 2 == lo / 2 + p * hi && (lo + 2 * p * hi) % 2 == lo % 2
  {
    assert lo + 2 * p * hi == (lo / 2 + p * hi) * 2 + lo % 2;
  }

  lemma Twice(lo: nat, p: nat, x: nat)
    ensures lo % 2 + 2 * (lo / 2 + p * x) == lo + 2 * p * x
  {
  }

  // ---------------------------------------------------------------- the reader

  // A sub-stream: its bytes run on to the end of the section, len of them are its own.
  datatype Stream = Stream(bytes: seq<byte>, len: nat)

  // The last eight bytes are zeros.
  ghost predicate Padded(s: Stream) {
    |s.bytes| >= PAD && Number(s.bytes) < Pow2(8 * (|s.bytes| - PAD))
  }

  // How many of the next n bits a reader is sure to have right, whatever the last eight
  // bytes hold.
  ghost function Sure(s: Stream, pos: nat, n: nat): (k: nat)
    requires |s.bytes| >= PAD
    ensures k <= n && (Padded(s) ==> k == n)
  {
    if Padded(s) then n else Min(n, Max(0, 8 * (|s.bytes| - PAD) - pos))
  }

  // Loading once more from where loaded bits end completes the window to 64 bits.
  lemma RefillCompletes(v: nat, pos: nat, cnt: nat, m: nat)
    requires cnt <= m <= 64 && cnt < 64
    ensures Or(Window(v, pos, m), Window(v, pos + cnt, 64) * Pow2(cnt) % Pow2(64)) == Window(v, pos, 64)
  {
    hide Pow2, Window, Or;
    var yy := Window(v, pos + cnt, 64 - cnt);
    WindowSplits(v, pos, m, cnt);
    WindowSplits(v, pos, 64, cnt);
    TopShifted(v, pos + cnt, cnt);
    WindowParts(v, pos + cnt, 64 - cnt, m - cnt);
    OrAgain(yy, m - cnt);
    OrAbove(Window(v, pos, cnt), Window(v, pos + cnt, m - cnt), yy, cnt);
  }

  lemma WindowSplits(v: nat, pos: nat, n: nat, k: nat)
    requires k <= n
    ensures Window(v, pos, n) == Window(v, pos, k) + Pow2(k) * Window(v, pos + k, n - k)
  {
    hide Pow2, Window;
    WindowParts(v, pos, n, k);
    var w := Window(v, pos, n);
    assert w == Pow2(k) * (w / Pow2(k)) + w % Pow2(k);
  }

  lemma TopShifted(v: nat, pos: nat, cnt: nat)
    requires cnt <= 64
    ensures Window(v, pos, 64) * Pow2(cnt) % Pow2(64) == Pow2(cnt) * Window(v, pos, 64 - cnt)
  {
    hide Pow2, Window;
    WindowParts(v, pos, 64, 64 - cnt);
    Pow2Add(64 - cnt, cnt);
    ModScaled(Window(v, pos, 64), Pow2(64 - cnt), Pow2(cnt));
  }

  lemma ModScaled(x: nat, p: nat, q: nat)
    requires p > 0 && q > 0
    ensures p * q > 0 && x * q % (p * q) == q * (x % p)
  {
    MulAtLeast(p, q);
    assert x == p * (x / p) + x % p;
    ScaledSplit(x, p, q, x / p, x % p);
    MulMonotone(x % p + 1, p, q);
    DivModIs(x * q, p * q, x / p, q * (x % p));
  }

  lemma ScaledSplit(x: nat, p: nat, q: nat, k: nat, r: nat)
    requires x == p * k + r
    ensures x * q == k * (p * q) + q * r && (r + 1) * q == q * r + q
  {
  }

  class BitReader {
    const src: Stream
    var p: nat
    var bits: nat
    var cnt: nat
    var filled: nat
    var budget: int
    // The bit the reader stands at, and how many bits it has loaded from there on.
    ghost var pos: nat
    ghost var loaded: nat

    ghost predicate Valid()
      reads this
    {
      && |src.bytes| >= PAD && src.len <= |src.bytes| - PAD && cnt <= filled <= 63
      && budget - (filled - cnt) == 8 * src.len - pos
      && Tracks()
    }

    // The sure bits are the stream's, however often some of them were loaded, and loading
    // goes on where they end, or in the padding.
    ghost predicate Tracks()
      reads this
    {
      && |src.bytes| >= PAD && cnt <= loaded <= 64 && bits < Pow2(loaded)
      && bits % Pow2(Sure(src, pos, loaded)) == Window(Number(src.bytes), pos, Sure(src, pos, loaded))
      && (pos + cnt == 8 * p || (p >= |src.bytes| - PAD && pos + cnt >= 8 * (|src.bytes| - PAD)))
    }

    // At absolute bit start of the stream.
    constructor (src: Stream, start: nat)
      requires |src.bytes| >= PAD && src.len <= |src.bytes| - PAD
      ensures Valid() && this.src == src && pos == start && cnt >= 49
    {
      this.src := src;
      var bit := start % 8;
      p := Min(start / 8, |src.bytes| - PAD);
      bits, cnt, filled := 0, 0, 0;
      budget := 8 * src.len - (start - bit);
      pos, loaded := start - bit, 0;
      new;
      NoBit();
      NothingLoaded(Number(src.bytes), pos);
      SureFits(src, pos, 0);
      Refill();
      Consume(bit);
    }

    method Refill()
      requires Valid()
      modifies this
      ensures Valid() && pos == old(pos) && cnt == 56 + old(cnt) % 8
    {
      hide Number, Pow2, Loaded, Window, Padded, Sure;
      budget := budget - (filled - cnt);
      var last := |src.bytes| - PAD;
      var from := if p > last then last else p;
      var load := Number(src.bytes[from..from + 8]);
      RefillTracks(src, from, p, pos, cnt, loaded, bits);
      LoadedFits(bits, loaded, load, cnt);
      bits := Loaded(bits, load, cnt);
      RefillAdvance(cnt);
      p := from + (63 - cnt) / 8;
      cnt := 56 + cnt % 8;
      filled := cnt;
      loaded := 64;
    }

    // The next n bits; all the sure ones are the stream's.
    function Peek(n: nat): (v: nat)
      requires Valid() && n <= cnt
      reads this
      ensures v < Pow2(n) && v % Pow2(Sure(src, pos, n)) == Window(Number(src.bytes), pos, Sure(src, pos, n))
    {
      PeekSure(src, pos, loaded, bits, n);
      bits % Pow2(n)
    }

    method Consume(n: nat)
      requires Valid() && n <= cnt
      modifies this
      ensures Valid() && pos == old(pos) + n && cnt == old(cnt) - n
    {
      hide Number, Pow2, Window, Padded, Sure;
      ConsumeSure(src, pos, loaded, bits, n);
      bits := bits / Pow2(n);
      cnt := cnt - n;
      pos := pos + n;
      loaded := loaded - n;
    }

    // More bits consumed than the stream holds, the start position counted.
    function Overrun(): (r: bool)
      requires Valid()
      reads this
      ensures r <==> pos > 8 * src.len
    {
      budget - (filled - cnt) < 0
    }
  }

  lemma NothingLoaded(v: nat, pos: nat)
    ensures Window(v, pos, 0) == 0
  {
    DivModIs(v / Pow2(pos), 1, v / Pow2(pos), 0);
  }

  lemma SureFits(src: Stream, pos: nat, n: nat)
    requires |src.bytes| >= PAD
    ensures Sure(src, pos, n) <= n
  {
  }

  // The low g bits of what is known to be right for longer.
  lemma SureLow(v: nat, pos: nat, bits: nat, g: nat, g': nat)
    requires g' <= g && bits % Pow2(g) == Window(v, pos, g)
    ensures bits % Pow2(g') == Window(v, pos, g')
  {
    hide Pow2, Window;
    Pow2Add(g', g - g');
    ModMod(bits, Pow2(g'), Pow2(g - g'));
    WindowParts(v, pos, g, g');
  }

  lemma PeekSure(src: Stream, pos: nat, loaded: nat, bits: nat, n: nat)
    requires |src.bytes| >= PAD && n <= loaded
    requires bits % Pow2(Sure(src, pos, loaded)) == Window(Number(src.bytes), pos, Sure(src, pos, loaded))
    ensures bits % Pow2(n) % Pow2(Sure(src, pos, n)) == Window(Number(src.bytes), pos, Sure(src, pos, n))
  {
    hide Pow2, Window, Number, Padded;
    var g := Sure(src, pos, n);
    SureLow(Number(src.bytes), pos, bits, Sure(src, pos, loaded), g);
    Pow2Add(g, n - g);
    ModMod(bits, Pow2(g), Pow2(n - g));
  }

  lemma ConsumeSure(src: Stream, pos: nat, loaded: nat, bits: nat, n: nat)
    requires |src.bytes| >= PAD && n <= loaded && bits < Pow2(loaded)
    requires bits % Pow2(Sure(src, pos, loaded)) == Window(Number(src.bytes), pos, Sure(src, pos, loaded))
    ensures 0 <= bits / Pow2(n) < Pow2(loaded - n)
    ensures var g := Sure(src, pos + n, loaded - n); bits / Pow2(n) % Pow2(g) == Window(Number(src.bytes), pos + n, g)
  {
    hide Pow2, Window, Number, Padded;
    var v, g := Number(src.bytes), Sure(src, pos + n, loaded - n);
    TopFits(bits, n, loaded - n);
    QuotientAtLeastZero(bits, Pow2(n));
    if g == 0 {
      NoBit();
      NothingLoaded(v, pos + n);
    } else {
      SureLow(v, pos, bits, Sure(src, pos, loaded), n + g);
      WindowParts(v, pos, n + g, n);
      Pow2Add(n, g);
      ModMod(bits, Pow2(n), Pow2(g));
    }
  }

  // A load ored in at cnt, in 64 bits.
  function Loaded(bits: nat, load: nat, cnt: nat): nat {
    Or(bits, load * Pow2(cnt) % Pow2(64))
  }

  lemma LoadedFits(bits: nat, loaded: nat, load: nat, cnt: nat)
    requires loaded <= 64 && bits < Pow2(loaded)
    ensures Loaded(bits, load, cnt) < Pow2(64)
  {
    hide Or, Pow2;
    Pow2Monotone(loaded, 64);
    OrFits(bits, load * Pow2(cnt) % Pow2(64), 64);
  }

  lemma RefillAdvance(cnt: nat)
    requires cnt < 64
    ensures 8 * ((63 - cnt) / 8) == 56 + cnt % 8 - cnt
  {
  }

  // What a load ored in at cnt leaves sure: everything before the padding, and the
  // padding too if it is zeros.
  lemma RefillTracks(src: Stream, from: nat, p: nat, pos: nat, cnt: nat, loaded: nat, bits: nat)
    requires |src.bytes| >= PAD && from == Min(p, |src.bytes| - PAD) && cnt < 64 && cnt <= loaded <= 64
    requires bits < Pow2(loaded)
    requires bits % Pow2(Sure(src, pos, loaded)) == Window(Number(src.bytes), pos, Sure(src, pos, loaded))
    requires pos + cnt == 8 * p || (p >= |src.bytes| - PAD && pos + cnt >= 8 * (|src.bytes| - PAD))
    ensures var w := Loaded(bits, Number(src.bytes[from..from + 8]), cnt);
      w % Pow2(Sure(src, pos, 64)) == Window(Number(src.bytes), pos, Sure(src, pos, 64))
  {
    hide Number, Pow2, Or, Window;
    var v, load, last := Number(src.bytes), Number(src.bytes[from..from + 8]), |src.bytes| - PAD;
    var g := Sure(src, pos, 64);
    LoadIsWindow(src.bytes, from);
    if Padded(src) {
      NothingBeyond(v, 8 * last, 8 * Max(last, from), 64);
      NothingBeyond(v, 8 * last, Max(8 * last, pos + cnt), 64);
    }
    if Padded(src) || 8 * from == pos + cnt {
      if Sure(src, pos, loaded) == loaded {
        DivModIs(bits, Pow2(loaded), 0, bits);
        RefillCompletes(v, pos, cnt, loaded);
        WindowParts(v, pos, 64, g);
      } else {
        RefillLow(v, pos, cnt, bits, g);
      }
    } else {
      LoadAbove(bits, load, cnt, g);
    }
  }

  // Bits wrong only beyond the first g stay so.
  lemma RefillLow(v: nat, pos: nat, cnt: nat, bits: nat, g: nat)
    requires cnt <= g <= 64 && cnt < 64 && bits % Pow2(g) == Window(v, pos, g)
    ensures Or(bits, Window(v, pos + cnt, 64) * Pow2(cnt) % Pow2(64)) % Pow2(g) == Window(v, pos, g)
  {
    hide Pow2, Window, Or;
    var x := Window(v, pos + cnt, 64) * Pow2(cnt) % Pow2(64);
    RefillCompletes(v, pos, cnt, g);
    OrLow(bits, x, g);
    OrLow(Window(v, pos, g), x, g);
    WindowParts(v, pos, 64, g);
    DivModIs(Window(v, pos, g), Pow2(g), 0, Window(v, pos, g));
  }

  // A load ored in at cnt leaves the bits below alone.
  lemma LoadAbove(bits: nat, load: nat, cnt: nat, g: nat)
    requires g <= cnt <= 64
    ensures Or(bits, load * Pow2(cnt) % Pow2(64)) % Pow2(g) == bits % Pow2(g)
  {
    hide Pow2, Or;
    Pow2Add(64 - cnt, cnt);
    ModScaled(load, Pow2(64 - cnt), Pow2(cnt));
    var hi := load % Pow2(64 - cnt);
    Pow2Add(g, cnt - g);
    TimesAgain(Pow2(g), Pow2(cnt - g), hi);
    DivModIs(Pow2(cnt) * hi, Pow2(g), Pow2(cnt - g) * hi, 0);
    OrLow(bits, Pow2(cnt) * hi, g);
    OrNothing(bits % Pow2(g));
  }

  lemma TimesAgain(p: nat, q: nat, x: nat)
    ensures p * q * x == q * x * p
  {
  }
}
