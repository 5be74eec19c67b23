// Little-endian numbers in byte strings, and the copy that repeats what lies offset back.

module ByteStrings {
  import opened Common

  // ---------------------------------------------------------------- little-endian numbers

  function Bytes(v: nat, count: nat): (s: seq<byte>)
    ensures |s| == count
  {
    if count == 0 then [] else [v % 256] + Bytes(v / 256, count - 1)
  }

  function Number(s: seq<byte>): nat {
    if s == [] then 0 else s[0] + 256 * Number(s[1..])
  }

  lemma {:induction false} NumberOfBytes(v: nat, count: nat)
    requires v < Pow2(8 * count)
    ensures Number(Bytes(v, count)) == v
  {
    hide Pow2, Number, Bytes;
    BytesStep(v, count);
    if count > 0 {
      Pow2Words();
      Pow2Add(8, 8 * (count - 1));
      NumberOfBytes(v / 256, count - 1);
      NumberFront(v % 256, Bytes(v / 256, count - 1));
    }
  }

  lemma BytesStep(v: nat, count: nat)
    ensures count > 0 ==> Bytes(v, count) == [v % 256] + Bytes(v / 256, count - 1)
    ensures count == 0 ==> Number(Bytes(v, count)) == 0 && Pow2(8 * count) == 1
  {
  }

  lemma NumberFront(b: byte, s: seq<byte>)
    ensures Number([b] + s) == b + 256 * Number(s)
  {
    assert ([b] + s)[1..] == s;
  }

  lemma NumberOne(b: byte)
    ensures Number([b]) == b
  {
  }

  // Two bytes as one number, the low one first.
  function Word(lo: nat, hi: nat): nat {
    lo + 256 * hi
  }

  function Load32(s: seq<byte>, at: nat): nat
    requires at + 4 <= |s|
  {
    Number(s[at..at + 4])
  }

  lemma Load32Injective(s: seq<byte>, a: nat, b: nat)
    requires a + 4 <= |s| && b + 4 <= |s| && Load32(s, a) == Load32(s, b)
    ensures s[a..a + 4] == s[b..b + 4]
  {
    NumberInjective(s[a..a + 4], s[b..b + 4]);
  }

  lemma {:induction false} NumberInjective(a: seq<byte>, b: seq<byte>)
    requires |a| == |b| && Number(a) == Number(b)
    ensures a == b
  {
    if a != [] {
      NumberInjective(a[1..], b[1..]);
      assert a == [a[0]] + a[1..] && b == [b[0]] + b[1..];
    }
  }

  lemma {:induction false} NumberSplit(s: seq<byte>, n: nat)
    requires n <= |s|
    ensures Number(s[..n]) < Pow2(8 * n) && Number(s) == Number(s[..n]) + Pow2(8 * n) * Number(s[n..])
  {
    if n > 0 {
      NumberSplit(s[1..], n - 1);
      assert s[..n][1..] == s[1..][..n - 1] && s[1..][n - 1..] == s[n..];
      Pow2Add(8, 8 * (n - 1));
      assert Pow2(8) == 256;
      Scaled(Number(s[1..]), Number(s[1..][..n - 1]), Pow2(8 * (n - 1)), Number(s[n..]));
    }
  }

  lemma Scaled(a: int, b: int, p: int, c: int)
    requires a == b + p * c
    ensures 256 * a == 256 * b + 256 * p * c
  {
  }

  lemma LowIs(s: seq<byte>, n: nat)
    requires n <= |s|
    ensures Number(s) % Pow2(8 * n) == Number(s[..n])
  {
    hide Number, Pow2;
    NumberSplit(s, n);
    DivModIs(Number(s), Pow2(8 * n), Number(s[n..]), Number(s[..n]));
  }

  // ---------------------------------------------------------------- copies

  // len more bytes, each repeating the one offset back: the source may overlap them.
  function Repeat(out: seq<byte>, offset: nat, len: nat): (r: seq<byte>)
    requires 0 < offset <= |out|
    ensures |r| == |out| + len && r[..|out|] == out
    decreases len
  {
    if len == 0 then out else Repeat(out + [out[|out| - offset]], offset, len - 1)
  }

  lemma RepeatNone(out: seq<byte>, offset: nat)
    requires 0 < offset <= |out|
    ensures Repeat(out, offset, 0) == out
  {
  }

  lemma RepeatStep(out: seq<byte>, offset: nat, len: nat)
    requires 0 < offset <= |out| && len > 0
    ensures Repeat(out, offset, len) == Repeat(out + [out[|out| - offset]], offset, len - 1)
  {
  }

  lemma {:induction false} RepeatIs(out: seq<byte>, offset: nat, len: nat)
    requires 0 < offset <= |out|
    ensures forall i :: |out| <= i < |out| + len ==> Repeat(out, offset, len)[i] == Repeat(out, offset, len)[i - offset]
    decreases len
  {
    if len > 0 {
      RepeatIs(out + [out[|out| - offset]], offset, len - 1);
      var r := Repeat(out, offset, len);
      assert r[..|out| + 1] == out + [out[|out| - offset]];
      assert r[|out|] == r[..|out| + 1][|out|] && r[|out| - offset] == r[..|out| + 1][|out| - offset];
    }
  }

  // data[..at] extended by a copy is a longer prefix of data, if data repeats there.
  lemma {:induction false} RepeatExtends(data: seq<byte>, at: nat, offset: nat, len: nat)
    requires 0 < offset <= at && at + len <= |data|
    requires forall i :: at <= i < at + len ==> data[i] == data[i - offset]
    ensures Repeat(data[..at], offset, len) == data[..at + len]
    decreases len
  {
    if len > 0 {
      assert data[..at] + [data[..at][at - offset]] == data[..at + 1];
      RepeatExtends(data, at + 1, offset, len - 1);
    }
  }

  lemma {:induction false} RepeatSplit(out: seq<byte>, offset: nat, a: nat, b: nat)
    requires 0 < offset <= |out|
    ensures Repeat(Repeat(out, offset, a), offset, b) == Repeat(out, offset, a + b)
    decreases a
  {
    if a > 0 { RepeatSplit(out + [out[|out| - offset]], offset, a - 1, b); }
  }

  lemma SliceIs(a: seq<byte>, at: nat, src: seq<byte>, from: nat, n: nat)
    requires at + n <= |a| && from + n <= |src|
    requires forall i :: at <= i < at + n ==> a[i] == src[from + i - at]
    ensures a[..at + n] == a[..at] + src[from..from + n]
  {
    var x, y := a[..at + n], a[..at] + src[from..from + n];
    forall i | 0 <= i < at + n ensures x[i] == y[i] {
      if i >= at { assert src[from..from + n][i - at] == src[from + i - at]; }
    }
  }
}
