// src/resnappy.rs: the reference Snappy compressor, its decoder, and the search for
// the build that wrote a stream. The format is that of google/snappy's format
// description (section 2.1 literals, section 2.2 copies).

module Snappy {
  import opened Common
  import opened ByteStrings
  import opened Varints

  // A build of the reference: the log of its largest table, and its hash of four
  // bytes under an index mask. Any hash will do.
  datatype Build = Build(tableBits: nat, hash: (nat, nat) -> nat)

  const BLOCK: nat := 65536
  const MARGIN: nat := 15

  // ---------------------------------------------------------------- decoding

  // What one element says: its size in the stream and what it appends.
  datatype Element = Literal(size: nat, bytes: seq<byte>) | Copy(size: nat, offset: nat, len: nat)

  function Parse(s: seq<byte>): (r: Option<Element>)
    requires s != []
    ensures r.Some? ==> 1 <= r.value.size <= |s|
  {
    var kind, field := s[0] % 4, s[0] / 4;
    if kind == 0 then
      var count := if field >= 60 then field - 59 else 0;
      if 1 + count > |s| then None
      else
        var n := (if field >= 60 then Number(s[1..1 + count]) else field) + 1;
        if 1 + count + n > |s| then None else Some(Literal(1 + count + n, s[1 + count..1 + count + n]))
    else
      var count := if kind == 1 then 1 else if kind == 2 then 2 else 4;
      if 1 + count > |s| then None
      else
        var low := Number(s[1..1 + count]);
        if kind == 1 then Some(Copy(2, s[0] / 32 * 256 + low, 4 + field % 8))
        else Some(Copy(1 + count, low, 1 + field))
  }

  // The output after one element; None when it reaches outside it.
  function Apply(e: Element, out: seq<byte>): (r: Option<seq<byte>>) {
    match e
    case Literal(_, bytes) => Some(out + bytes)
    case Copy(_, offset, len) => if 0 < offset <= |out| then Some(Repeat(out, offset, len)) else None
  }

  // Decoding a whole stream of elements onto out, never past len bytes.
  function Decode(s: seq<byte>, out: seq<byte>, len: nat): Option<seq<byte>>
    decreases |s|
  {
    if s == [] then Some(out)
    else
      match Parse(s)
      case None => None
      case Some(e) =>
        match Apply(e, out)
        case None => None
        case Some(out') => if |out'| > len then None else Decode(s[e.size..], out', len)
  }

  function Content(s: seq<byte>): Option<seq<byte>> {
    match Varint(s, 0)
    case None => None
    case Some((len, n)) =>
      match Decode(s[n..], [], len)
      case None => None
      case Some(out) => if |out| == len then Some(out) else None
  }

  // A parsed element does not depend on what follows it.
  lemma ParseAppend(a: seq<byte>, b: seq<byte>)
    requires a != [] && Parse(a).Some?
    ensures Parse(a + b) == Parse(a)
  {
    var count := Parse(a).value.size;
    assert forall i, j :: 0 <= i <= j <= |a| ==> (a + b)[i..j] == a[i..j];
  }

  lemma {:induction false} DecodeAppend(a: seq<byte>, b: seq<byte>, out: seq<byte>, len: nat)
    requires Decode(a, out, len).Some?
    ensures Decode(a + b, out, len) == Decode(b, Decode(a, out, len).value, len)
    decreases |a|
  {
    if a == [] {
      assert a + b == b;
    } else {
      ParseAppend(a, b);
      var e := Parse(a).value;
      assert (a + b)[e.size..] == a[e.size..] + b;
      DecodeAppend(a[e.size..], b, Apply(e, out).value, len);
    }
  }

  // The length at the head of a stream: at most five bytes, seven bits each.
  method ReadVarint(s: seq<byte>) returns (r: Option<(nat, nat)>)
    ensures r == Varint(s, 0)
  {
    hide Varint, Pow2;
    var p, len, shift := 0, 0, 0;
    assert s[0..] == s;
    assert Pow2(0) >= 1;
    while true
      invariant p <= |s| && shift == 7 * p <= 28
      invariant Varint(s, 0) == match Varint(s[p..], shift) case None => None case Some((v, n)) => Some((len + v, p + n))
      decreases |s| - p
    {
      VarintStep(s[p..], shift);
      if p >= |s| { return None; }
      var b := s[p];
      assert s[p..][0] == b && s[p..][1..] == s[p + 1..];
      p := p + 1;
      len := len + b % 128 * Pow2(shift);
      if b < 128 { return Some((len, p)); }
      shift := shift + 7;
      if shift > 28 { return None; }
    }
  }

  // The decoder.
  method Decompress(s: seq<byte>) returns (r: Option<seq<byte>>)
    ensures r == Content(s)
  {
    hide Parse, Apply, Varint;
    var head := ReadVarint(s);
    if head.None? { return None; }
    var (len, p) := head.value;
    var out: seq<byte> := [];
    while p < |s|
      invariant p <= |s|
      invariant Content(s) == match Decode(s[p..], out, len) case None => None case Some(o) => if |o| == len then Some(o) else None
      decreases |s| - p
    {
      var e := ParseAt(s, p);
      if e.None? { return None; }
      var out' := ApplyTo(e.value, out);
      if out'.None? { return None; }
      assert s[p..][e.value.size..] == s[p + e.value.size..];
      p := p + e.value.size;
      out := out'.value;
      if |out| > len { return None; }
    }
    assert s[p..] == [];
    r := if |out| == len then Some(out) else None;
  }

  // Reads the element at p.
  method ParseAt(s: seq<byte>, p: nat) returns (e: Option<Element>)
    requires p < |s|
    ensures e == Parse(s[p..])
  {
    hide Number;
    ghost var rest := s[p..];
    var tag: int := s[p];
    var q := p + 1;
    var kind := tag % 4;
    if kind == 0 {
      var n := tag / 4;
      if n >= 60 {
        var count := n - 59;
        var v := 0;
        if q + count > |s| { return None; }
        v := LoadAt(s, q, count);
        assert rest[1..1 + count] == s[q..q + count];
        q := q + count;
        n := v;
      }
      n := n + 1;
      if q + n > |s| { return None; }
      assert rest[q - p..q - p + n] == s[q..q + n];
      return Some(Literal(q - p + n, s[q..q + n]));
    } else {
      var count := if kind == 1 then 1 else if kind == 2 then 2 else 4;
      if q + count > |s| { return None; }
      var low := LoadAt(s, q, count);
      assert rest[1..1 + count] == s[q..q + count];
      if kind == 1 {
        return Some(Copy(2, tag / 32 * 256 + low, 4 + tag / 4 % 8));
      } else {
        return Some(Copy(1 + count, low, 1 + tag / 4));
      }
    }
  }

  // count bytes, the lowest first.
  method LoadAt(s: seq<byte>, q: nat, count: nat) returns (v: nat)
    requires q + count <= |s|
    ensures v == Number(s[q..q + count])
  {
    hide Number;
    v := 0;
    for i := 0 to count
      invariant Number(s[q..q + count]) == v + Pow2(8 * i) * Number(s[q + i..q + count])
    {
      ghost var rest := s[q + i..q + count];
      assert rest[0] == s[q + i] && rest[1..] == s[q + i + 1..q + count];
      Pow2Add(8 * i, 8);
      Pow2Words();
      NumberIs(rest);
      HornerStep(Pow2(8 * i), s[q + i], Number(rest[1..]));
      v := v + s[q + i] * Pow2(8 * i);
    }
    NumberIs(s[q + count..q + count]);
  }

  lemma NumberIs(s: seq<byte>)
    ensures s == [] ==> Number(s) == 0
    ensures s != [] ==> Number(s) == s[0] + 256 * Number(s[1..])
  {
  }

  lemma HornerStep(p: int, b: int, n: int)
    ensures p * (b + 256 * n) == b * p + p * 256 * n
  {
  }

  method ApplyTo(e: Element, out: seq<byte>) returns (r: Option<seq<byte>>)
    ensures r == Apply(e, out)
  {
    match e
    case Literal(_, bytes) =>
      r := Some(out + bytes);
    case Copy(_, offset, len) =>
      if offset == 0 || offset > |out| { return None; }
      var from := |out| - offset;
      var o := out;
      for i := 0 to len
        invariant |o| == |out| + i
        invariant Repeat(out, offset, len) == Repeat(o, offset, len - i)
      {
        o := o + [o[from + i]];
      }
      r := Some(o);
  }

  // ---------------------------------------------------------------- writing elements

  function Log2(n: nat): nat
    requires n > 0
  {
    if n == 1 then 0 else 1 + Log2(n / 2)
  }

  lemma {:induction false} Log2Bounds(n: nat)
    requires n > 0
    ensures Pow2(Log2(n)) <= n < Pow2(Log2(n) + 1)
  {
    if n > 1 { Log2Bounds(n / 2); }
  }

  function LiteralBytes(lit: seq<byte>): seq<byte>
    requires 0 < |lit| <= 0x1_0000_0000
  {
    var n := |lit| - 1;
    if n < 60 then [n * 4] + lit
    else
      var count := Log2(n) / 8 + 1;
      Log2Small(n);
      [(59 + count) * 4] + Bytes(n, count) + lit
  }

  lemma Log2Small(n: nat)
    requires 0 < n < 0x1_0000_0000
    ensures Log2(n) < 32
  {
    hide Pow2;
    Log2Bounds(n);
    Pow2Words();
    if Log2(n) >= 32 { Pow2Monotone(32, Log2(n)); }
  }

  function ShortCopyBytes(offset: nat, len: nat): seq<byte>
    requires 4 <= len <= 64 && 0 < offset < 65536
  {
    if len < 12 && offset < 2048 then [1 + (len - 4) * 4 + offset / 256 * 32, offset % 256]
    else [2 + (len - 1) * 4, offset % 256, offset / 256]
  }

  function CopyTail(offset: nat, len: nat): seq<byte>
    requires 4 <= len < 68 && 0 < offset < 65536
  {
    if len > 64 then ShortCopyBytes(offset, 60) + ShortCopyBytes(offset, len - 60)
    else ShortCopyBytes(offset, len)
  }

  function CopyBytes(offset: nat, len: nat): seq<byte>
    requires 4 <= len && 0 < offset < 65536
  {
    if len >= 68 then ShortCopyBytes(offset, 64) + CopyBytes(offset, len - 64)
    else CopyTail(offset, len)
  }

  // A sink for compressed bytes: the program's growing vector.
  class Sink {
    var bytes: seq<byte>

    constructor ()
      ensures bytes == []
    {
      bytes := [];
    }

    method EmitLiteral(lit: seq<byte>)
      requires 0 < |lit| <= 0x1_0000_0000
      modifies this
      ensures bytes == old(bytes) + LiteralBytes(lit)
    {
      hide Log2, Bytes;
      var n := |lit| - 1;
      if n < 60 {
        bytes := bytes + [n * 4];
      } else {
        var count := Log2(n) / 8 + 1;
        Log2Small(n);
        bytes := bytes + [(59 + count) * 4];
        bytes := bytes + Bytes(n, count);
      }
      bytes := bytes + lit;
    }

    method EmitCopyAtMost64(offset: nat, len: nat)
      requires 4 <= len <= 64 && 0 < offset < 65536
      modifies this
      ensures bytes == old(bytes) + ShortCopyBytes(offset, len)
    {
      if len < 12 && offset < 2048 {
        bytes := bytes + [1 + (len - 4) * 4 + offset / 256 * 32];
        bytes := bytes + [offset % 256];
      } else {
        bytes := bytes + [2 + (len - 1) * 4];
        bytes := bytes + [offset % 256, offset / 256];
      }
    }

    method EmitCopy(offset: nat, length: nat)
      requires 4 <= length && 0 < offset < 65536
      modifies this
      ensures bytes == old(bytes) + CopyBytes(offset, length)
    {
      hide ShortCopyBytes;
      var len := length;
      if len < 12 {
        EmitCopyAtMost64(offset, len);
        return;
      }
      while len >= 68
        invariant len >= 4
        invariant bytes + CopyBytes(offset, len) == old(bytes) + CopyBytes(offset, length)
      {
        ghost var before := bytes;
        EmitCopyAtMost64(offset, 64);
        len := len - 64;
        Assoc(before, ShortCopyBytes(offset, 64), CopyBytes(offset, len));
      }
      ghost var before := bytes;
      if len > 64 {
        EmitCopyAtMost64(offset, 60);
        len := len - 60;
        Assoc(before, ShortCopyBytes(offset, 60), ShortCopyBytes(offset, len));
      }
      EmitCopyAtMost64(offset, len);
    }
  }

  // ---------------------------------------------------------------- the writer's elements decode

  lemma LiteralDecodes(lit: seq<byte>, out: seq<byte>, len: nat)
    requires 0 < |lit| <= 0x1_0000_0000 && |out| + |lit| <= len
    ensures Decode(LiteralBytes(lit), out, len) == Some(out + lit)
  {
    hide Parse, LiteralBytes;
    var s := LiteralBytes(lit);
    LiteralParses(lit);
    assert s[|s|..] == [];
  }

  lemma LiteralParses(lit: seq<byte>)
    requires 0 < |lit| <= 0x1_0000_0000
    ensures LiteralBytes(lit) != []
    ensures Parse(LiteralBytes(lit)) == Some(Literal(|LiteralBytes(lit)|, lit))
  {
    hide Log2, Bytes, Number, Pow2;
    var s, n := LiteralBytes(lit), |lit| - 1;
    if n < 60 {
      assert s[1..1 + |lit|] == lit;
    } else {
      var count := Log2(n) / 8 + 1;
      Log2Small(n);
      Log2Bounds(n);
      Pow2Monotone(Log2(n) + 1, 8 * count);
      NumberOfBytes(n, count);
      assert s[1..1 + count] == Bytes(n, count);
      assert s[1 + count..1 + count + |lit|] == lit;
    }
  }

  // Of all the elements that say a literal, the one written is the shortest, and the only
  // one of its size.
  lemma LiteralShortest(e: seq<byte>, lit: seq<byte>)
    requires 0 < |lit| <= 0x1_0000_0000 && e != [] && Parse(e) == Some(Literal(|e|, lit))
    ensures |LiteralBytes(lit)| <= |e| && (|e| == |LiteralBytes(lit)| ==> e == LiteralBytes(lit))
  {
    hide Parse, Log2, Bytes, Number, Pow2;
    var n := |lit| - 1;
    var num := LiteralParts(e, lit);
    if num != [] && n >= 60 {
      NumberSplit(num, |num|);
      assert num[..|num|] == num;
      WidthNeeded(n, |num|);
      NumberOfBytes(n, |num|);
      if Log2(n) / 8 + 1 == |num| { NumberInjective(num, Bytes(n, |num|)); }
    }
  }

  // A literal element: its tag, its length in some bytes or in the tag itself, its bytes.
  lemma LiteralParts(e: seq<byte>, lit: seq<byte>) returns (num: seq<byte>)
    requires 0 < |lit| && e != [] && Parse(e) == Some(Literal(|e|, lit))
    ensures |num| <= 4 && e == [if num == [] then (|lit| - 1) * 4 else (59 + |num|) * 4] + num + lit
    ensures num == [] ==> |lit| <= 60
    ensures num != [] ==> Number(num) == |lit| - 1
  {
    hide Number;
    if e[0] / 4 < 60 {
      num := [];
      assert e == [e[0]] + [] + e[1..1 + |lit|];
    } else {
      var count: nat := e[0] / 4 - 59;
      num := e[1..1 + count];
      assert e == [e[0]] + num + e[1 + count..1 + count + |lit|];
    }
  }

  // A number below 256^count has at most count significant bytes.
  lemma WidthNeeded(n: nat, count: nat)
    requires 0 < n < Pow2(8 * count)
    ensures Log2(n) / 8 + 1 <= count
  {
    hide Log2, Pow2;
    Log2Bounds(n);
    if Log2(n) >= 8 * count { Pow2Monotone(8 * count, Log2(n)); }
  }

  // The same of a copy of up to 64 bytes.
  lemma CopyShortest(e: seq<byte>, offset: nat, n: nat)
    requires 4 <= n <= 64 && 0 < offset < 65536 && e != [] && Parse(e) == Some(Copy(|e|, offset, n))
    ensures |ShortCopyBytes(offset, n)| <= |e| && (|e| == |ShortCopyBytes(offset, n)| ==> e == ShortCopyBytes(offset, n))
  {
    hide Parse;
    CopyParts(e, offset, n);
    ThreeFields(e[0]);
    if e[0] % 4 == 1 {
      DivModIs(offset, 256, e[0] / 32, e[1]);
    } else if e[0] % 4 == 2 {
      DivModIs(offset, 256, e[2], e[1]);
    }
  }

  // The three kinds of copy element.
  lemma CopyParts(e: seq<byte>, offset: nat, n: nat)
    requires e != [] && Parse(e) == Some(Copy(|e|, offset, n))
    ensures match e[0] % 4
      case 0 => false
      case 1 => |e| == 2 && e == [e[0], e[1]] && offset == e[0] as nat / 32 * 256 + e[1] && n == 4 + e[0] / 4 % 8
      case 2 => |e| == 3 && e == [e[0], e[1], e[2]] && offset == e[2] as nat * 256 + e[1] && n == 1 + e[0] / 4
      case _ => |e| == 5
  {
    if e[0] % 4 == 1 {
      assert e[1..2] == [e[1]];
      NumberOne(e[1]);
    } else if e[0] % 4 == 2 {
      assert e[1..3] == [e[1], e[2]];
      NumberOne(e[2]);
      assert [e[1], e[2]][1..] == [e[2]];
    }
  }

  lemma ThreeFields(x: nat)
    ensures x == x % 4 + x / 4 % 8 * 4 + x / 32 * 32
  {
    DivDiv(x, 4, 8);
  }

  // The same element n times.
  function Times(s: seq<byte>, n: nat): seq<byte> {
    if n == 0 then [] else s + Times(s, n - 1)
  }

  // How a long copy is cut: into 64s and the rest, the last 64 giving four of its bytes
  // to a rest of one, two or three.
  function Pieces(offset: nat, n: nat): seq<byte>
    requires 4 <= n && 0 < offset < 65536
  {
    var q, r := n / 64, n % 64;
    if r == 0 then Times(ShortCopyBytes(offset, 64), q)
    else if r >= 4 then Times(ShortCopyBytes(offset, 64), q) + ShortCopyBytes(offset, r)
    else Times(ShortCopyBytes(offset, 64), q - 1) + (ShortCopyBytes(offset, 60) + ShortCopyBytes(offset, r + 4))
  }

  lemma {:induction false} CopyInPieces(offset: nat, n: nat)
    requires 4 <= n && 0 < offset < 65536
    ensures CopyBytes(offset, n) == Pieces(offset, n)
  {
    hide ShortCopyBytes, Times, Pieces;
    if n >= 68 {
      CopyInPieces(offset, n - 64);
      PiecesMore(offset, n - 64);
    } else {
      FewPieces(offset, n);
    }
  }

  lemma FewPieces(offset: nat, n: nat)
    requires 4 <= n < 68 && 0 < offset < 65536
    ensures CopyTail(offset, n) == Pieces(offset, n)
  {
    hide ShortCopyBytes, Times;
    NoTimes(ShortCopyBytes(offset, 64));
    if n > 64 {
      DivModIs(n, 64, 1, n - 64);
      assert [] + (ShortCopyBytes(offset, 60) + ShortCopyBytes(offset, n - 60)) == CopyTail(offset, n);
    } else if n == 64 {
      assert ShortCopyBytes(offset, 64) + [] == ShortCopyBytes(offset, 64);
    } else {
      DivModIs(n, 64, 0, n);
      assert [] + ShortCopyBytes(offset, n) == CopyTail(offset, n);
    }
  }

  lemma NoTimes(s: seq<byte>)
    ensures Times(s, 0) == [] && Times(s, 1) == s + []
  {
  }

  lemma PiecesMore(offset: nat, n: nat)
    requires 4 <= n && 0 < offset < 65536
    ensures Pieces(offset, n + 64) == ShortCopyBytes(offset, 64) + Pieces(offset, n)
  {
    hide ShortCopyBytes, Times;
    var s, q, r := ShortCopyBytes(offset, 64), n / 64, n % 64;
    DivModIs(n + 64, 64, q + 1, r);
    OneTimeMore(s, q);
    if r == 0 {
    } else if r >= 4 {
      Assoc(s, Times(s, q), ShortCopyBytes(offset, r));
    } else {
      OneTimeMore(s, q - 1);
      Assoc(s, Times(s, q - 1), ShortCopyBytes(offset, 60) + ShortCopyBytes(offset, r + 4));
    }
  }

  lemma OneTimeMore(s: seq<byte>, n: nat)
    ensures Times(s, n + 1) == s + Times(s, n)
  {
  }

  lemma ShortCopyDecodes(offset: nat, n: nat, out: seq<byte>, len: nat)
    requires 4 <= n <= 64 && 0 < offset < 65536 && offset <= |out| && |out| + n <= len
    ensures Decode(ShortCopyBytes(offset, n), out, len) == Some(Repeat(out, offset, n))
  {
    hide Parse, ShortCopyBytes;
    var s := ShortCopyBytes(offset, n);
    ShortCopyParses(offset, n);
    assert s[|s|..] == [];
  }

  lemma ShortCopyParses(offset: nat, n: nat)
    requires 4 <= n <= 64 && 0 < offset < 65536
    ensures ShortCopyBytes(offset, n) != []
    ensures Parse(ShortCopyBytes(offset, n)) == Some(Copy(|ShortCopyBytes(offset, n)|, offset, n))
  {
    var s := ShortCopyBytes(offset, n);
    if n < 12 && offset < 2048 {
      TwoFields(n - 4, offset / 256, 1);
      assert s[1..2] == [offset % 256];
      NumberOne(offset % 256);
    } else {
      assert s[1..3] == [offset % 256, offset / 256];
      NumberOne(offset / 256);
      assert [offset % 256, offset / 256][1..] == [offset / 256];
      assert s[0] == 2 + (n - 1) * 4;
    }
  }

  // The tag of a two-byte copy holds a length in bits 2 to 4 and an offset's top in 5 to 7.
  lemma TwoFields(a: nat, b: nat, kind: nat)
    requires a < 8 && b < 8 && kind < 4
    ensures var t := kind + a * 4 + b * 32; t % 4 == kind && t / 4 % 8 == a && t / 32 == b && t < 256
  {
    var t := kind + a * 4 + b * 32;
    DivModIs(t, 4, a + b * 8, kind);
    DivModIs(a + b * 8, 8, b, a);
    DivModIs(t, 32, b, kind + a * 4);
  }

  lemma {:induction false} CopyDecodes(offset: nat, n: nat, out: seq<byte>, len: nat)
    requires 4 <= n && 0 < offset < 65536 && offset <= |out| && |out| + n <= len
    ensures Decode(CopyBytes(offset, n), out, len) == Some(Repeat(out, offset, n))
    decreases n
  {
    hide ShortCopyBytes, Decode, Repeat;
    if n > 64 {
      var a := if n >= 68 then 64 else 60;
      ShortCopyDecodes(offset, a, out, len);
      CopyDecodes(offset, n - a, Repeat(out, offset, a), len);
      DecodeAppend(ShortCopyBytes(offset, a), CopyBytes(offset, n - a), out, len);
      RepeatSplit(out, offset, a, n - a);
    } else {
      ShortCopyDecodes(offset, n, out, len);
    }
  }

  // ---------------------------------------------------------------- what the compressor writes

  function TableSize(n: nat, maxBits: nat): (size: nat)
    ensures size > 0
  {
    if n > Pow2(maxBits) then Pow2(maxBits)
    else if n < 256 then 256
    else 2 * Pow2(Log2(n - 1))
  }

  lemma NextPower(k: nat)
    ensures Pow2(k + 1) == 2 * Pow2(k)
  {
  }

  // The table is a power of two: the largest for a block that is longer than that, and
  // otherwise the smallest that holds the block, but not under 256.
  lemma TableSizeFits(n: nat, maxBits: nat)
    ensures exists k :: TableSize(n, maxBits) == Pow2(k)
    ensures n > Pow2(maxBits) ==> TableSize(n, maxBits) == Pow2(maxBits)
    ensures n <= Pow2(maxBits) && n < 256 ==> TableSize(n, maxBits) == 256
    ensures 256 <= n <= Pow2(maxBits) ==> n <= TableSize(n, maxBits) < 2 * n
    ensures n <= TableSize(n, maxBits) || TableSize(n, maxBits) == Pow2(maxBits)
    ensures maxBits >= 8 ==> TableSize(n, maxBits) <= Pow2(maxBits)
  {
    hide Pow2, Log2;
    Pow2Words();
    if n > Pow2(maxBits) {
    } else if n < 256 {
      if maxBits >= 8 { Pow2Monotone(8, maxBits); }
    } else {
      var k := Log2(n - 1);
      Log2Bounds(n - 1);
      NextPower(k);
      assert TableSize(n, maxBits) == Pow2(k + 1);
      if maxBits <= k { Pow2Monotone(maxBits, k); } else { Pow2Monotone(k + 1, maxBits); }
    }
  }

  // The entry for four bytes: the hash under the mask 2 * (size - 1), halved.
  function Entry(b: Build, dword: nat, size: nat): (e: nat)
    requires size > 0
    ensures e < size
  {
    b.hash(dword, 2 * (size - 1)) / 2 % size
  }

  ghost predicate Below(t: seq<nat>, at: nat) {
    forall e :: 0 <= e < |t| ==> t[e] < at
  }

  // A match found at ip with an earlier candidate, or none.
  datatype Found = Hit(table: seq<nat>, ip: nat, candidate: nat) | Miss(table: seq<nat>)

  ghost predicate IsHit(input: seq<byte>, t: seq<nat>, f: Found, lo: nat, hi: int) {
    f.Hit? ==>
      && lo <= f.ip <= hi && f.ip + 4 <= |input| && f.candidate < f.ip
      && input[f.candidate..f.candidate + 4] == input[f.ip..f.ip + 4]
      && |f.table| == |t| && Below(f.table, f.ip + 1)
  }

  // k positions probed one by one.
  function Probe(input: seq<byte>, b: Build, t: seq<nat>, at: nat, k: nat): (f: Found)
    requires |t| > 0 && Below(t, at) && at + k + 3 <= |input|
    ensures IsHit(input, t, f, at, at + k - 1)
    ensures f.Miss? ==> |f.table| == |t| && Below(f.table, at + k)
    decreases k
  {
    if k == 0 then Miss(t)
    else
      var dword := Load32(input, at);
      var e := Entry(b, dword, |t|);
      if Load32(input, t[e]) == dword then
        Load32Injective(input, t[e], at);
        Hit(t[e := at], at, t[e])
      else Probe(input, b, t[e := at], at + 1, k - 1)
  }

  // Positions probed at a widening step, up to limit.
  function Scan(input: seq<byte>, b: Build, t: seq<nat>, ip: nat, skip: nat, limit: nat): (f: Found)
    requires |t| > 0 && Below(t, ip) && skip >= 32 && ip <= limit + 1 && limit + MARGIN == |input|
    ensures IsHit(input, t, f, ip, limit)
    decreases limit + 1 - ip
  {
    var dword := Load32(input, ip);
    var e := Entry(b, dword, |t|);
    var next := ip + skip / 32;
    if next > limit then Miss(t)
    else if dword == Load32(input, t[e]) then
      Load32Injective(input, t[e], ip);
      Hit(t[e := ip], ip, t[e])
    else Scan(input, b, t[e := ip], next, skip + skip / 32, limit)
  }

  // From the literal run starting at ip, the next match.
  function Search(input: seq<byte>, b: Build, t: seq<nat>, ip: nat, limit: nat): (f: Found)
    requires |t| > 0 && Below(t, ip + 1) && ip <= limit && limit + MARGIN == |input|
    ensures IsHit(input, t, f, ip + 1, limit)
  {
    if ip + 1 <= limit && limit - (ip + 1) >= 16 then
      var f := Probe(input, b, t, ip + 1, 16);
      if f.Hit? then f else Scan(input, b, f.table, ip + 17, 48, limit)
    else Scan(input, b, t, ip + 1, 32, limit)
  }

  // The sixteen probes one by one only unroll the scan.
  lemma {:induction false} ProbesAreScan(input: seq<byte>, b: Build, t: seq<nat>, at: nat, k: nat, skip: nat, limit: nat)
    requires |t| > 0 && Below(t, at) && at + k <= limit && limit + MARGIN == |input| && 32 <= skip && skip + k <= 64
    ensures var f := Probe(input, b, t, at, k);
      Scan(input, b, t, at, skip, limit) == if f.Hit? then f else Scan(input, b, f.table, at + k, skip + k, limit)
    decreases k
  {
    hide Entry, Load32, Scan;
    if k > 0 {
      var dword := Load32(input, at);
      var e := Entry(b, dword, |t|);
      ScanOne(input, b, t, at, skip, limit);
      if Load32(input, t[e]) != dword { ProbesAreScan(input, b, t[e := at], at + 1, k - 1, skip + 1, limit); }
    }
  }

  // While the skip counter is under 64 a scan takes single steps.
  lemma ScanOne(input: seq<byte>, b: Build, t: seq<nat>, at: nat, skip: nat, limit: nat)
    requires |t| > 0 && Below(t, at) && at + 1 <= limit && limit + MARGIN == |input| && 32 <= skip < 64
    ensures var dword := Load32(input, at);
      var e := Entry(b, dword, |t|);
      Scan(input, b, t, at, skip, limit)
        == if Load32(input, t[e]) == dword then Hit(t[e := at], at, t[e]) else Scan(input, b, t[e := at], at + 1, skip + 1, limit)
  {
    hide Entry, Load32;
  }

  lemma SearchIsScan(input: seq<byte>, b: Build, t: seq<nat>, ip: nat, limit: nat)
    requires |t| > 0 && Below(t, ip + 1) && ip <= limit && limit + MARGIN == |input|
    ensures Search(input, b, t, ip, limit) == Scan(input, b, t, ip + 1, 32, limit)
  {
    hide Probe, Scan;
    if ip + 1 <= limit && limit - (ip + 1) >= 16 { ProbesAreScan(input, b, t, ip + 1, 16, 32, limit); }
  }

  // Where probe j of a search from a position stands: the step is one, and one more for
  // every 32 bytes come.
  function ProbeAt(from: nat, j: nat): (p: nat)
    ensures p >= from
  {
    if j == 0 then from else
      var p := ProbeAt(from, j - 1);
      p + 1 + (p - from) / 32
  }

  function WordIn(input: seq<byte>, p: nat): nat {
    if p + 4 <= |input| then Load32(input, p) else 0
  }

  // The table once the first j positions are entered.
  function Entered(input: seq<byte>, b: Build, t: seq<nat>, from: nat, j: nat): (r: seq<nat>)
    requires |t| > 0
    ensures |r| == |t|
  {
    if j == 0 then t else
      var p := ProbeAt(from, j - 1);
      Entered(input, b, t, from, j - 1)[Entry(b, WordIn(input, p), |t|) := p]
  }

  // The position the table then has for probe j's bytes.
  function CandidateAt(input: seq<byte>, b: Build, t: seq<nat>, from: nat, j: nat): nat
    requires |t| > 0
  {
    Entered(input, b, t, from, j)[Entry(b, WordIn(input, ProbeAt(from, j)), |t|)]
  }

  predicate HitsAt(input: seq<byte>, b: Build, t: seq<nat>, from: nat, j: nat)
    requires |t| > 0
  {
    WordIn(input, CandidateAt(input, b, t, from, j)) == WordIn(input, ProbeAt(from, j))
  }

  // Probe j is made, as long as the next one stays within the limit, and finds nothing.
  predicate MissesAt(input: seq<byte>, b: Build, t: seq<nat>, from: nat, j: nat, limit: nat)
    requires |t| > 0
  {
    ProbeAt(from, j + 1) <= limit && !HitsAt(input, b, t, from, j)
  }

  // What a scan that has come to probe j finds, if it finds it at probe k.
  ghost predicate FoundAt(input: seq<byte>, b: Build, t: seq<nat>, from: nat, k: nat, limit: nat, f: Found)
    requires |t| > 0
  {
    if ProbeAt(from, k + 1) <= limit then
      f.Hit? && HitsAt(input, b, t, from, k) && f.ip == ProbeAt(from, k) && f.candidate == CandidateAt(input, b, t, from, k)
    else f.Miss?
  }

  ghost predicate ScanReady(input: seq<byte>, b: Build, t: seq<nat>, from: nat, j: nat, limit: nat)
    requires |t| > 0
  {
    limit + MARGIN == |input| && ProbeAt(from, j) <= limit + 1 && Below(Entered(input, b, t, from, j), ProbeAt(from, j))
  }

  function ScanFrom(input: seq<byte>, b: Build, t: seq<nat>, from: nat, j: nat, limit: nat): Found
    requires |t| > 0 && ScanReady(input, b, t, from, j, limit)
  {
    Scan(input, b, Entered(input, b, t, from, j), ProbeAt(from, j), 32 + ProbeAt(from, j) - from, limit)
  }

  lemma ScanStep(input: seq<byte>, b: Build, t: seq<nat>, from: nat, j: nat, limit: nat)
    requires |t| > 0 && ScanReady(input, b, t, from, j, limit)
    ensures !MissesAt(input, b, t, from, j, limit) ==> FoundAt(input, b, t, from, j, limit, ScanFrom(input, b, t, from, j, limit))
    ensures MissesAt(input, b, t, from, j, limit) ==>
      ScanReady(input, b, t, from, j + 1, limit)
      && ScanFrom(input, b, t, from, j, limit) == ScanFrom(input, b, t, from, j + 1, limit)
    ensures ProbeAt(from, j + 1) > ProbeAt(from, j)
  {
    hide Entry, Load32;
    StepWidth(from, j);
  }

  // A search stops at the first probe whose candidate has the same four bytes.
  lemma {:induction false} ScanFirst(input: seq<byte>, b: Build, t: seq<nat>, from: nat, j: nat, limit: nat)
    returns (k: nat)
    requires |t| > 0 && ScanReady(input, b, t, from, j, limit)
    ensures j <= k && forall i :: j <= i < k ==> MissesAt(input, b, t, from, i, limit)
    ensures FoundAt(input, b, t, from, k, limit, ScanFrom(input, b, t, from, j, limit))
    decreases limit + 1 - ProbeAt(from, j)
  {
    hide ProbeAt, MissesAt, FoundAt, ScanFrom;
    k := j;
    ScanStep(input, b, t, from, j, limit);
    if MissesAt(input, b, t, from, j, limit) {
      k := ScanFirst(input, b, t, from, j + 1, limit);
    }
  }

  // The skip counter is the distance come and 32.
  lemma StepWidth(from: nat, j: nat)
    ensures var p := ProbeAt(from, j); ProbeAt(from, j + 1) == p + (32 + p - from) / 32 && ProbeAt(from, j + 1) > p
  {
  }

  // So the search of a literal run finds the first hit of its probes.
  lemma SearchFirst(input: seq<byte>, b: Build, t: seq<nat>, ip: nat, from: nat, limit: nat) returns (k: nat)
    requires |t| > 0 && Below(t, ip + 1) && from == ip + 1 <= limit + 1 && limit + MARGIN == |input|
    ensures forall i :: 0 <= i < k ==> MissesAt(input, b, t, from, i, limit)
    ensures FoundAt(input, b, t, from, k, limit, Search(input, b, t, ip, limit))
  {
    hide Scan, Search, MissesAt, FoundAt;
    SearchIsScan(input, b, t, ip, limit);
    assert ProbeAt(from, 0) == from && Entered(input, b, t, from, 0) == t;
    k := ScanFirst(input, b, t, from, 0, limit);
  }

  // Bytes matching from a and b on.
  function MatchLen(s: seq<byte>, a: nat, b: nat): (n: nat)
    requires a <= b <= |s|
    ensures b + n <= |s|
    decreases |s| - b
  {
    if b < |s| && s[a] == s[b] then 1 + MatchLen(s, a + 1, b + 1) else 0
  }

  lemma {:induction false} MatchLenIs(s: seq<byte>, a: nat, b: nat)
    requires a <= b <= |s|
    ensures var n := MatchLen(s, a, b);
      s[a..a + n] == s[b..b + n] && (b + n < |s| ==> s[a + n] != s[b + n])
    decreases |s| - b
  {
    if b < |s| && s[a] == s[b] {
      MatchLenIs(s, a + 1, b + 1);
      var n := MatchLen(s, a + 1, b + 1);
      assert s[a..a + 1 + n] == [s[a]] + s[a + 1..a + 1 + n];
      assert s[b..b + 1 + n] == [s[b]] + s[b + 1..b + 1 + n];
    }
  }

  function Matched(input: seq<byte>, ip: nat, candidate: nat): (n: nat)
    requires candidate < ip && ip + 4 <= |input| && input[candidate..candidate + 4] == input[ip..ip + 4]
    ensures n >= 4 && ip + n <= |input| && input[candidate..candidate + n] == input[ip..ip + n]
  {
    var n := MatchLen(input, candidate + 4, ip + 4);
    MatchLenIs(input, candidate + 4, ip + 4);
    assert input[candidate..candidate + 4 + n] == input[candidate..candidate + 4] + input[candidate + 4..candidate + 4 + n];
    assert input[ip..ip + 4 + n] == input[ip..ip + 4] + input[ip + 4..ip + 4 + n];
    4 + n
  }

  // The table after the two positions at the end of a match are entered.
  function Index(input: seq<byte>, b: Build, t: seq<nat>, ip: nat): (r: seq<nat>)
    requires |t| > 0 && 0 < ip && ip + 4 <= |input| && Below(t, ip)
    ensures |r| == |t| && Below(r, ip)
  {
    t[Entry(b, Load32(input, ip - 1), |t|) := ip - 1]
  }

  // Copies written one after another, until the bytes after one do not match.
  datatype Copied = Copied(bytes: seq<byte>, table: seq<nat>, ip: nat, done: bool)

  function Copies(input: seq<byte>, b: Build, t: seq<nat>, ip: nat, candidate: nat, limit: nat): (c: Copied)
    requires |t| > 0 && Below(t, ip + 1) && limit + MARGIN == |input| <= BLOCK && candidate < ip && ip + 4 <= |input|
    requires input[candidate..candidate + 4] == input[ip..ip + 4]
    ensures ip < c.ip <= |input| && |c.table| == |t|
    ensures !c.done ==> c.ip <= limit && Below(c.table, c.ip + 1)
    decreases |input| - ip
  {
    var n := Matched(input, ip, candidate);
    var ip' := ip + n;
    var bytes := CopyBytes(ip - candidate, n);
    if ip' >= limit then Copied(bytes, t, ip', true)
    else
      var t' := Index(input, b, t, ip');
      var dword := Load32(input, ip');
      var e := Entry(b, dword, |t|);
      if dword != Load32(input, t'[e]) then Copied(bytes, t'[e := ip'], ip', false)
      else
        Load32Injective(input, t'[e], ip');
        var c := Copies(input, b, t'[e := ip'], ip', t'[e], limit);
        Copied(bytes + c.bytes, c.table, c.ip, c.done)
  }

  // Where the copies end both the last position matched and the next one are in the table,
  // unless they share an entry, when the next one has it.
  lemma {:induction false} CopiesEnter(input: seq<byte>, b: Build, t: seq<nat>, ip: nat, candidate: nat, limit: nat)
    requires |t| > 0 && Below(t, ip + 1) && limit + MARGIN == |input| <= BLOCK && candidate < ip && ip + 4 <= |input|
    requires input[candidate..candidate + 4] == input[ip..ip + 4]
    ensures var c := Copies(input, b, t, ip, candidate, limit);
      c.done <==> c.ip >= limit
    ensures var c := Copies(input, b, t, ip, candidate, limit);
      !c.done ==>
        var next, last := Entry(b, Load32(input, c.ip), |t|), Entry(b, Load32(input, c.ip - 1), |t|);
        c.table[next] == c.ip && (last != next ==> c.table[last] == c.ip - 1)
    decreases |input| - ip
  {
    hide Entry, Load32, CopyBytes, Matched, Index;
    var ip' := ip + Matched(input, ip, candidate);
    if ip' < limit {
      var t' := Index(input, b, t, ip');
      var e := Entry(b, Load32(input, ip'), |t|);
      BothEntered(input, b, t, ip');
      if Load32(input, ip') == Load32(input, t'[e]) {
        Load32Injective(input, t'[e], ip');
        CopiesEnter(input, b, t'[e := ip'], ip', t'[e], limit);
      }
    }
  }

  lemma BothEntered(input: seq<byte>, b: Build, t: seq<nat>, ip: nat)
    requires |t| > 0 && 0 < ip && ip + 4 <= |input| && Below(t, ip)
    ensures var next, last := Entry(b, Load32(input, ip), |t|), Entry(b, Load32(input, ip - 1), |t|);
      last != next ==> Index(input, b, t, ip)[next := ip][last] == ip - 1
  {
    hide Entry, Load32;
  }

  function Tail(input: seq<byte>, ip: nat): seq<byte>
    requires ip <= |input| <= BLOCK
  {
    if ip < |input| then LiteralBytes(input[ip..]) else []
  }

  // Everything written for input[ip..], ip starting a literal run.
  function Fragment(input: seq<byte>, b: Build, t: seq<nat>, ip: nat, limit: nat): seq<byte>
    requires |t| > 0 && Below(t, ip + 1) && ip <= limit && limit + MARGIN == |input| <= BLOCK
    decreases |input| - ip
  {
    var f := Search(input, b, t, ip, limit);
    if f.Miss? then Tail(input, ip)
    else
      var c := Copies(input, b, f.table, f.ip, f.candidate, limit);
      LiteralBytes(input[ip..f.ip]) + (c.bytes +
        if c.done then Tail(input, c.ip) else Fragment(input, b, c.table, c.ip, limit))
  }

  function EmptyTable(size: nat): (t: seq<nat>)
    ensures |t| == size && Below(t, 1)
  {
    seq(size, _ => 0)
  }

  function Block(input: seq<byte>, b: Build): seq<byte>
    requires |input| <= BLOCK
  {
    if |input| < MARGIN then Tail(input, 0)
    else Fragment(input, b, EmptyTable(TableSize(|input|, b.tableBits)), 0, |input| - MARGIN)
  }

  function Blocks(input: seq<byte>, b: Build): seq<byte> {
    if |input| <= BLOCK then (if input == [] then [] else Block(input, b))
    else Block(input[..BLOCK], b) + Blocks(input[BLOCK..], b)
  }

  function Compressed(input: seq<byte>, b: Build): seq<byte> {
    VarintBytes(|input|) + Blocks(input, b)
  }

  // ---------------------------------------------------------------- it decodes

  // A match inside a block, seen after the bytes before the block.
  lemma MatchDecodes(pre: seq<byte>, input: seq<byte>, ip: nat, candidate: nat, n: nat, len: nat)
    requires candidate < ip && n >= 4 && ip + n <= |input| <= BLOCK && input[candidate..candidate + n] == input[ip..ip + n]
    requires |pre| + |input| <= len
    ensures Decode(CopyBytes(ip - candidate, n), pre + input[..ip], len) == Some(pre + input[..ip + n])
  {
    hide Decode, CopyBytes, Repeat;
    var data, at, offset := pre + input, |pre| + ip, ip - candidate;
    assert data[..at] == pre + input[..ip] && data[..at + n] == pre + input[..ip + n];
    forall i | at <= i < at + n ensures data[i] == data[i - offset] {
      var k := i - at;
      assert input[ip..ip + n][k] == input[candidate..candidate + n][k];
    }
    RepeatExtends(data, at, offset, n);
    CopyDecodes(offset, n, data[..at], len);
  }

  lemma {:induction false} CopiesDecode(pre: seq<byte>, input: seq<byte>, b: Build, t: seq<nat>, ip: nat, candidate: nat,
                                        limit: nat, len: nat)
    requires |t| > 0 && Below(t, ip + 1) && limit + MARGIN == |input| <= BLOCK && candidate < ip && ip + 4 <= |input|
    requires input[candidate..candidate + 4] == input[ip..ip + 4] && |pre| + |input| <= len
    ensures var c := Copies(input, b, t, ip, candidate, limit);
      Decode(c.bytes, pre + input[..ip], len) == Some(pre + input[..c.ip])
    decreases |input| - ip
  {
    hide Decode, CopyBytes, Matched, Index, Entry, Load32;
    var n := Matched(input, ip, candidate);
    var ip' := ip + n;
    MatchDecodes(pre, input, ip, candidate, n, len);
    if ip' < limit {
      var t' := Index(input, b, t, ip');
      var dword := Load32(input, ip');
      var e := Entry(b, dword, |t|);
      if dword == Load32(input, t'[e]) {
        Load32Injective(input, t'[e], ip');
        CopiesDecode(pre, input, b, t'[e := ip'], ip', t'[e], limit, len);
        DecodeAppend(CopyBytes(ip - candidate, n), Copies(input, b, t'[e := ip'], ip', t'[e], limit).bytes, pre + input[..ip], len);
      }
    }
  }

  lemma TailDecodes(pre: seq<byte>, input: seq<byte>, ip: nat, len: nat)
    requires ip <= |input| <= BLOCK && |pre| + |input| <= len
    ensures Decode(Tail(input, ip), pre + input[..ip], len) == Some(pre + input)
  {
    hide LiteralBytes;
    if ip < |input| {
      LiteralDecodes(input[ip..], pre + input[..ip], len);
      assert pre + input[..ip] + input[ip..] == pre + input;
    } else {
      assert input[..ip] == input;
    }
  }

  lemma {:induction false} FragmentDecodes(pre: seq<byte>, input: seq<byte>, b: Build, t: seq<nat>, ip: nat, limit: nat, len: nat)
    requires |t| > 0 && Below(t, ip + 1) && ip <= limit && limit + MARGIN == |input| <= BLOCK && |pre| + |input| <= len
    ensures Decode(Fragment(input, b, t, ip, limit), pre + input[..ip], len) == Some(pre + input)
    decreases |input| - ip
  {
    hide Decode, LiteralBytes, Tail, Copies, Search;
    var f := Search(input, b, t, ip, limit);
    if f.Miss? {
      TailDecodes(pre, input, ip, len);
    } else {
      var c := Copies(input, b, f.table, f.ip, f.candidate, limit);
      var rest := if c.done then Tail(input, c.ip) else Fragment(input, b, c.table, c.ip, limit);
      LiteralDecodes(input[ip..f.ip], pre + input[..ip], len);
      assert pre + input[..ip] + input[ip..f.ip] == pre + input[..f.ip];
      CopiesDecode(pre, input, b, f.table, f.ip, f.candidate, limit, len);
      if c.done { TailDecodes(pre, input, c.ip, len); } else { FragmentDecodes(pre, input, b, c.table, c.ip, limit, len); }
      DecodeAppend(c.bytes, rest, pre + input[..f.ip], len);
      DecodeAppend(LiteralBytes(input[ip..f.ip]), c.bytes + rest, pre + input[..ip], len);
    }
  }

  lemma BlockDecodes(pre: seq<byte>, input: seq<byte>, b: Build, len: nat)
    requires |input| <= BLOCK && |pre| + |input| <= len
    ensures Decode(Block(input, b), pre, len) == Some(pre + input)
  {
    hide Decode, Fragment, Tail;
    assert pre + input[..0] == pre;
    if |input| < MARGIN {
      TailDecodes(pre, input, 0, len);
    } else {
      FragmentDecodes(pre, input, b, EmptyTable(TableSize(|input|, b.tableBits)), 0, |input| - MARGIN, len);
    }
  }

  lemma NothingDecodes(out: seq<byte>, len: nat)
    ensures Decode([], out, len) == Some(out)
  {
  }

  lemma {:induction false} BlocksDecode(pre: seq<byte>, input: seq<byte>, b: Build, len: nat)
    requires |pre| + |input| <= len
    ensures Decode(Blocks(input, b), pre, len) == Some(pre + input)
    decreases |input|
  {
    hide Block, Decode;
    if |input| <= BLOCK {
      if input == [] {
        assert pre + input == pre;
        NothingDecodes(pre, len);
      } else {
        BlockDecodes(pre, input, b, len);
      }
    } else {
      BlockDecodes(pre, input[..BLOCK], b, len);
      BlocksDecode(pre + input[..BLOCK], input[BLOCK..], b, len);
      DecodeAppend(Block(input[..BLOCK], b), Blocks(input[BLOCK..], b), pre, len);
      assert pre + input[..BLOCK] + input[BLOCK..] == pre + input;
    }
  }

  // The compressor loses nothing, whatever the build's hash.
  lemma RoundTrip(input: seq<byte>, b: Build)
    requires |input| < 0x1_0000_0000
    ensures Content(Compressed(input, b)) == Some(input)
  {
    hide Decode, Varint, Blocks, VarintBytes;
    var head, s := VarintBytes(|input|), Compressed(input, b);
    Pow2Words();
    assert |input| * Pow2(0) == |input|;
    VarintDecodes(|input|, 0, Blocks(input, b));
    assert s[|head|..] == Blocks(input, b);
    BlocksDecode([], input, b, |input|);
    assert [] + input == input;
  }

  // ---------------------------------------------------------------- the compressor

  // The loops of one block work on a mutable table; each returns what the function of
  // the same step says, and leaves the table as it says.

  ghost predicate FoundAs(f: Found, table: seq<nat>, found: bool, at: nat, candidate: nat) {
    && found == f.Hit? && f.table == table
    && (found ==> at == f.ip && candidate == f.candidate)
  }

  method ProbeTable(input: seq<byte>, b: Build, table: array<nat>, ip: nat, count: nat)
    returns (found: bool, at: nat, candidate: nat)
    requires table.Length > 0 && Below(table[..], ip) && ip + count + 3 <= |input|
    modifies table
    ensures FoundAs(Probe(input, b, old(table[..]), ip, count), table[..], found, at, candidate)
  {
    hide Below, Load32, Entry, IsHit;
    found, at, candidate := false, 0, 0;
    ghost var f := Probe(input, b, table[..], ip, count);
    for i := 0 to count
      invariant Below(table[..], ip + i) && f == Probe(input, b, table[..], ip + i, count - i)
    {
      ghost var t := table[..];
      var here: nat := ip + i;
      var dword := Load32(input, here);
      var e := Entry(b, dword, table.Length);
      BelowAt(t, here, e);
      candidate := table[e];
      table[e] := here;
      assert table[..] == t[e := here];
      if Load32(input, candidate) == dword {
        found, at := true, here;
        return;
      }
      BelowUpdate(t, here, e);
    }
  }

  lemma BelowAt(t: seq<nat>, at: nat, e: nat)
    requires Below(t, at) && e < |t|
    ensures t[e] < at
  {
  }

  lemma BelowUpdate(t: seq<nat>, at: nat, e: nat)
    requires Below(t, at) && e < |t|
    ensures Below(t[e := at], at + 1)
  {
  }

  method ScanTable(input: seq<byte>, b: Build, table: array<nat>, start: nat, width: nat, limit: nat)
    returns (found: bool, at: nat, candidate: nat)
    requires table.Length > 0 && Below(table[..], start) && width >= 32
    requires start <= limit + 1 && limit + MARGIN == |input|
    modifies table
    ensures FoundAs(Scan(input, b, old(table[..]), start, width, limit), table[..], found, at, candidate)
  {
    hide Load32, Entry, IsHit;
    var ip: nat, skip: nat := start, width;
    ghost var f := Scan(input, b, table[..], start, width, limit);
    while true
      invariant Below(table[..], ip) && skip >= 32 && ip <= limit + 1
      invariant f == Scan(input, b, table[..], ip, skip, limit)
      decreases limit + 1 - ip
    {
      ghost var t := table[..];
      var dword := Load32(input, ip);
      var e := Entry(b, dword, table.Length);
      var between := skip / 32;
      skip := skip + between;
      var next := ip + between;
      if next > limit { return false, 0, 0; }
      BelowAt(t, ip, e);
      candidate := table[e];
      table[e] := ip;
      assert table[..] == t[e := ip];
      if dword == Load32(input, candidate) { return true, ip, candidate; }
      BelowUpdate(t, ip, e);
      ip := next;
    }
  }

  method SearchTable(input: seq<byte>, b: Build, table: array<nat>, ip: nat, limit: nat)
    returns (found: bool, at: nat, candidate: nat)
    requires table.Length > 0 && Below(table[..], ip + 1) && ip <= limit && limit + MARGIN == |input|
    modifies table
    ensures FoundAs(Search(input, b, old(table[..]), ip, limit), table[..], found, at, candidate)
  {
    hide Probe, Scan, IsHit;
    if ip + 1 <= limit && limit - (ip + 1) >= 16 {
      found, at, candidate := ProbeTable(input, b, table, ip + 1, 16);
      if !found {
        found, at, candidate := ScanTable(input, b, table, ip + 17, 48, limit);
      }
    } else {
      found, at, candidate := ScanTable(input, b, table, ip + 1, 32, limit);
    }
  }

  method MatchLength(s: seq<byte>, a: nat, b: nat) returns (n: nat)
    requires a <= b <= |s|
    ensures n == MatchLen(s, a, b)
  {
    n := 0;
    while b + n < |s| && s[a + n] == s[b + n]
      invariant b + n <= |s| && MatchLen(s, a, b) == n + MatchLen(s, a + n, b + n)
    {
      n := n + 1;
    }
  }

  ghost predicate CopiedAs(c: Copied, table: seq<nat>, ip: nat, done: bool) {
    c.table == table && c.ip == ip && c.done == done
  }

  method WriteCopies(input: seq<byte>, b: Build, table: array<nat>, at: nat, first: nat, limit: nat, out: Sink)
    returns (ip: nat, done: bool)
    requires table.Length > 0 && Below(table[..], at + 1) && limit + MARGIN == |input| <= BLOCK
    requires first < at && at + 4 <= |input| && input[first..first + 4] == input[at..at + 4]
    modifies table, out
    ensures var c := Copies(input, b, old(table[..]), at, first, limit);
      CopiedAs(c, table[..], ip, done) && out.bytes == old(out.bytes) + c.bytes
  {
    hide Load32, Entry, CopyBytes, MatchLen, Below;
    ip := at;
    var candidate: nat := first;
    ghost var c := Copies(input, b, table[..], at, first, limit);
    ghost var goal := out.bytes + c.bytes;
    while true
      invariant Below(table[..], ip + 1)
      invariant candidate < ip && ip + 4 <= |input| && input[candidate..candidate + 4] == input[ip..ip + 4]
      invariant out.bytes + Copies(input, b, table[..], ip, candidate, limit).bytes == goal
      invariant var k := Copies(input, b, table[..], ip, candidate, limit);
        c.table == k.table && c.ip == k.ip && c.done == k.done
      decreases |input| - ip
    {
      ghost var t, written := table[..], out.bytes;
      ghost var now := Copies(input, b, t, ip, candidate, limit);
      var base := ip;
      var n := MatchLength(input, candidate + 4, ip + 4);
      var matched := 4 + n;
      assert matched == Matched(input, ip, candidate);
      ip := ip + matched;
      ghost var copy := CopyBytes(base - candidate, matched);
      out.EmitCopy(base - candidate, matched);
      if ip >= limit { return ip, true; }
      var e := Entry(b, Load32(input, ip - 1), table.Length);
      BelowWeaken(t, base + 1, ip);
      table[e] := ip - 1;
      ghost var t1 := Index(input, b, t, ip);
      assert table[..] == t1;
      var dword := Load32(input, ip);
      e := Entry(b, dword, table.Length);
      BelowAt(t1, ip, e);
      candidate := table[e];
      table[e] := ip;
      assert table[..] == t1[e := ip];
      if dword != Load32(input, candidate) { return ip, false; }
      Load32Injective(input, candidate, ip);
      BelowUpdate(t1, ip, e);
      Assoc(written, copy, Copies(input, b, table[..], ip, candidate, limit).bytes);
    }
  }

  lemma BelowWeaken(t: seq<nat>, a: nat, b: nat)
    requires Below(t, a) && a <= b
    ensures Below(t, b)
  {
  }

  method WriteTail(input: seq<byte>, ip: nat, out: Sink)
    requires ip <= |input| <= BLOCK
    modifies out
    ensures out.bytes == old(out.bytes) + Tail(input, ip)
  {
    if ip < |input| { out.EmitLiteral(input[ip..]); }
  }

  // One block.
  method CompressBlock(input: seq<byte>, b: Build, out: Sink)
    requires |input| <= BLOCK
    modifies out
    ensures out.bytes == old(out.bytes) + Block(input, b)
  {
    hide Search, Copies, LiteralBytes, Tail, Below, TableSize, IsHit;
    var n := |input|;
    if n < MARGIN {
      WriteTail(input, 0, out);
      return;
    }
    var limit := n - MARGIN;
    var size := TableSize(n, b.tableBits);
    var table := new nat[size](_ => 0);
    assert table[..] == EmptyTable(size);
    var ip := 0;
    ghost var goal := out.bytes + Block(input, b);
    while true
      modifies table, out
      invariant table.Length > 0 && ip <= limit && Below(table[..], ip + 1)
      invariant out.bytes + Fragment(input, b, table[..], ip, limit) == goal
      decreases n - ip
    {
      ghost var t, written := table[..], out.bytes;
      var start := ip;
      var found, at, candidate := SearchTable(input, b, table, ip, limit);
      if !found { break; }
      HitFacts(input, b, t, ip, limit);
      ghost var lit := LiteralBytes(input[start..at]);
      out.EmitLiteral(input[start..at]);
      ghost var f, t1 := Search(input, b, t, start, limit), table[..];
      var done;
      ip, done := WriteCopies(input, b, table, at, candidate, limit, out);
      ghost var c := Copies(input, b, t1, at, candidate, limit);
      Assoc(written, lit, c.bytes);
      if done {
        Assoc(written, lit, c.bytes + Tail(input, ip));
        Assoc(written + lit, c.bytes, Tail(input, ip));
        WriteTail(input, ip, out);
        return;
      }
      Assoc(written, lit, c.bytes + Fragment(input, b, table[..], ip, limit));
      Assoc(written + lit, c.bytes, Fragment(input, b, table[..], ip, limit));
    }
    WriteTail(input, ip, out);
  }

  lemma HitFacts(input: seq<byte>, b: Build, t: seq<nat>, ip: nat, limit: nat)
    requires |t| > 0 && Below(t, ip + 1) && ip <= limit && limit + MARGIN == |input|
    ensures var f := Search(input, b, t, ip, limit);
      f.Hit? ==>
        && ip < f.ip <= limit && f.ip + 4 <= |input| && f.candidate < f.ip
        && input[f.candidate..f.candidate + 4] == input[f.ip..f.ip + 4]
        && |f.table| == |t| && Below(f.table, f.ip + 1)
  {
  }

  method PutVarint(out: Sink, value: nat)
    modifies out
    ensures out.bytes == old(out.bytes) + VarintBytes(value)
  {
    var v := value;
    ghost var goal := out.bytes + VarintBytes(value);
    while v >= 128
      invariant out.bytes + VarintBytes(v) == goal
    {
      ghost var written := out.bytes;
      Assoc(written, [v % 128 + 128], VarintBytes(v / 128));
      out.bytes := out.bytes + [v % 128 + 128];
      v := v / 128;
    }
    out.bytes := out.bytes + [v];
  }

  // The whole compressor. The length is written as a 32-bit number.
  method Compress(input: seq<byte>, b: Build) returns (s: seq<byte>)
    requires |input| < 0x1_0000_0000
    ensures s == Compressed(input, b)
    ensures Content(s) == Some(input)
  {
    hide Block, Content, VarintBytes;
    var out := new Sink();
    PutVarint(out, |input|);
    var at := 0;
    assert input[0..] == input;
    ghost var goal := Compressed(input, b);
    while |input| - at > BLOCK
      modifies out
      invariant at <= |input| && out.bytes + Blocks(input[at..], b) == goal
    {
      ghost var rest, written := input[at..], out.bytes;
      assert rest[..BLOCK] == input[at..at + BLOCK] && rest[BLOCK..] == input[at + BLOCK..];
      Assoc(written, Block(rest[..BLOCK], b), Blocks(rest[BLOCK..], b));
      CompressBlock(input[at..at + BLOCK], b, out);
      at := at + BLOCK;
    }
    if at < |input| { CompressBlock(input[at..], b, out); }
    s := out.bytes;
    RoundTrip(input, b);
  }

  // The content of a stream and the first build that writes the stream again.
  method Reproduce(stream: seq<byte>, builds: seq<Build>) returns (r: Option<(seq<byte>, nat)>)
    ensures r.Some? ==>
      && Content(stream) == Some(r.value.0) && |r.value.0| < 0x1_0000_0000 && r.value.1 < |builds|
      && Compressed(r.value.0, builds[r.value.1]) == stream
      && forall i :: 0 <= i < r.value.1 ==> Compressed(r.value.0, builds[i]) != stream
    ensures r.None? && Content(stream).Some? && |Content(stream).value| < 0x1_0000_0000 ==>
      forall i :: 0 <= i < |builds| ==> Compressed(Content(stream).value, builds[i]) != stream
    // Complete: whatever a listed build wrote is reproduced, with its own content.
    ensures forall input: seq<byte>, i ::
      |input| < 0x1_0000_0000 && 0 <= i < |builds| && stream == Compressed(input, builds[i]) ==>
        r.Some? && r.value.0 == input && r.value.1 <= i
  {
    hide Content, Compressed;
    var plain := Decompress(stream);
    forall input: seq<byte>, i | |input| < 0x1_0000_0000 && 0 <= i < |builds| && stream == Compressed(input, builds[i])
      ensures plain == Some(input)
    {
      RoundTrip(input, builds[i]);
    }
    if plain.None? || |plain.value| >= 0x1_0000_0000 { return None; }
    for i := 0 to |builds|
      invariant forall j :: 0 <= j < i ==> Compressed(plain.value, builds[j]) != stream
    {
      var s := Compress(plain.value, builds[i]);
      if s == stream { return Some((plain.value, i)); }
    }
    return None;
  }
}
