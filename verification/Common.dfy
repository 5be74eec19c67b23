// Shared vocabulary: bytes, powers of two and finite sums.

module Common {

  datatype Option<+T> = None | Some(value: T)

  // Bytes are kept as small integers so that stream positions, offsets and
  // lengths can be added to them; the wrap-around of Rust's casts is written out.
  type byte = b: int | 0 <= b < 256
  type u16 = v: int | 0 <= v < 0x1_0000

  function Min(a: int, b: int): (m: int)
    ensures m <= a && m <= b && (m == a || m == b)
  {
    if a <= b then a else b
  }

  function Max(a: int, b: int): (m: int)
    ensures a <= m && b <= m && (m == a || m == b)
  {
    if a <= b then b else a
  }

  // ---------------------------------------------------------------- powers of two

  function Pow2(n: nat): (p: nat)
    ensures p >= 1
  {
    if n == 0 then 1 else 2 * Pow2(n - 1)
  }

  lemma {:induction false} Pow2Add(a: nat, b: nat)
    ensures Pow2(a + b) == Pow2(a) * Pow2(b)
  {
    if a > 0 {
      Pow2Add(a - 1, b);
      assert Pow2(a + b) == 2 * Pow2(a - 1 + b);
    }
  }

  lemma {:induction false} Pow2Monotone(a: nat, b: nat)
    requires a <= b
    ensures Pow2(a) <= Pow2(b)
    decreases b
  {
    if a < b { Pow2Monotone(a, b - 1); }
  }

  lemma Pow2Words()
    ensures Pow2(8) == 256 && Pow2(16) == 0x1_0000 && Pow2(32) == 0x1_0000_0000
  {
    assert Pow2(8) == 256;
    Pow2Add(8, 8);
    Pow2Add(16, 16);
  }

  // ---------------------------------------------------------------- quotients

  lemma MulAtLeast(x: int, p: int)
    requires x >= 1 && p >= 0
    ensures x * p >= p
  {
  }

  lemma SmallMultiple(k: int, p: int)
    requires -p < k * p < p
    ensures k == 0
  {
    if k >= 1 { MulAtLeast(k, p); } else if k <= -1 { MulAtLeast(-k, p); }
  }

  lemma QuotientAtLeastZero(x: int, p: int)
    requires x >= 0 && p > 0
    ensures x / p >= 0
  {
    var q := x / p;
    assert x == p * q + x % p;
    if q < 0 { MulMonotone(q, -1, p); }
  }

  lemma OneMore(n: int, p: int)
    ensures (n + 1) * p == n * p + p
  {
  }

  // Quotient and remainder are what they must be.
  lemma DivModIs(c: int, p: int, q: int, r: int)
    requires 0 <= r < p && c == q * p + r
    ensures c / p == q && c % p == r
  {
    var k := c / p - q;
    assert c == p * (c / p) + c % p;
    assert k * p == r - c % p;
    SmallMultiple(k, p);
  }

  lemma DivDiv(c: int, a: int, b: int)
    requires a > 0 && b > 0
    ensures a * b > 0 && c / (a * b) == c / a / b
  {
    var q, r, s := c / a / b, c / a % b, c % a;
    MulAtLeast(a, b);
    MulMonotone(r + 1, b, a);
    MulMonotone(0, r, a);
    Nested(c, a, b, c / a, q, r, s);
    DivModIs(c, a * b, q, r * a + s);
  }

  lemma Nested(c: int, a: int, b: int, m: int, q: int, r: int, s: int)
    requires c == a * m + s && m == b * q + r
    ensures c == q * (a * b) + (r * a + s)
    ensures (r + 1) * a == r * a + a
  {
  }

  lemma MulMonotone(x: int, y: int, p: int)
    requires x <= y && p >= 0
    ensures x * p <= y * p
  {
  }

  lemma DivisionIs(x: nat, p: nat)
    requires p > 0
    ensures x == p * (x / p) + x % p && x % p < p
  {
  }

  lemma ThreeParts(x: nat, p: nat, q: nat, k: nat, m: nat, r: nat)
    requires m < q && r < p && x == p * (q * k + m) + r && p * q > 0
    ensures x % (p * q) == m * p + r && (m * p + r) % p == r && (m * p + r) / p == m
  {
    MulMonotone(m + 1, q, p);
    Regroup(k, q, p, m, r);
    DivModIs(x, p * q, k, m * p + r);
    DivModIs(m * p + r, p, m, r);
  }

  lemma Regroup(k: nat, q: nat, p: nat, m: nat, r: nat)
    ensures p * (q * k + m) + r == k * (p * q) + (m * p + r) && (m + 1) * p == m * p + p
  {
  }

  lemma ModMod(x: nat, p: nat, q: nat)
    requires p > 0 && q > 0
    ensures p * q > 0 && x % (p * q) % p == x % p && x % (p * q) / p == x / p % q
  {
    MulAtLeast(p, q);
    DivisionIs(x, p);
    DivisionIs(x / p, q);
    ThreeParts(x, p, q, x / p / q, x / p % q, x % p);
  }

  lemma Assoc<T>(a: seq<T>, b: seq<T>, c: seq<T>)
    ensures (a + b) + c == a + (b + c)
  {
  }

  // ---------------------------------------------------------------- sums

  function Sum(s: seq<int>): int {
    if s == [] then 0 else s[0] + Sum(s[1..])
  }

  lemma {:induction false} SumAppend(a: seq<int>, b: seq<int>)
    ensures Sum(a + b) == Sum(a) + Sum(b)
  {
    if a == [] {
      assert a + b == b;
    } else {
      assert (a + b)[1..] == a[1..] + b;
      SumAppend(a[1..], b);
    }
  }

  lemma SumSnoc(a: seq<int>, x: int)
    ensures Sum(a + [x]) == Sum(a) + x
  {
    SumAppend(a, [x]);
  }

  lemma SumSplitAt(s: seq<int>, k: nat)
    requires k < |s|
    ensures Sum(s) == Sum(s[..k]) + s[k] + Sum(s[k + 1..])
  {
    assert s == s[..k] + ([s[k]] + s[k + 1..]);
    SumAppend(s[..k], [s[k]] + s[k + 1..]);
    SumAppend([s[k]], s[k + 1..]);
  }

  lemma SumUpdate(s: seq<int>, k: nat, x: int)
    requires k < |s|
    ensures Sum(s[k := x]) == Sum(s) - s[k] + x
  {
    SumSplitAt(s, k);
    SumSplitAt(s[k := x], k);
  }

  function RemoveAt<T>(s: seq<T>, k: nat): (r: seq<T>)
    requires k < |s|
    ensures |r| == |s| - 1
    ensures forall i :: 0 <= i < |r| ==> r[i] == if i < k then s[i] else s[i + 1]
  {
    s[..k] + s[k + 1..]
  }

  lemma SumRemoveAt(s: seq<int>, k: nat)
    requires k < |s|
    ensures Sum(RemoveAt(s, k)) == Sum(s) - s[k]
  {
    SumSplitAt(s, k);
    SumAppend(s[..k], s[k + 1..]);
  }

  lemma {:induction false} SumMonotone(a: seq<int>, b: seq<int>)
    requires |a| == |b|
    requires forall i :: 0 <= i < |a| ==> a[i] <= b[i]
    ensures Sum(a) <= Sum(b)
  {
    if a != [] { SumMonotone(a[1..], b[1..]); }
  }

  lemma {:induction false} SumNonNegative(a: seq<int>)
    requires forall i :: 0 <= i < |a| ==> a[i] >= 0
    ensures Sum(a) >= 0
  {
    if a != [] { SumNonNegative(a[1..]); }
  }

  lemma {:induction false} SumScale(a: seq<int>, b: seq<int>, c: int)
    requires |a| == |b|
    requires forall i :: 0 <= i < |a| ==> b[i] == c * a[i]
    ensures Sum(b) == c * Sum(a)
  {
    if a != [] {
      SumScale(a[1..], b[1..], c);
      assert c * (a[0] + Sum(a[1..])) == c * a[0] + c * Sum(a[1..]);
    }
  }

  // The sum of the first k elements.
  function Before(f: seq<nat>, k: nat): nat
    requires k <= |f|
  {
    if k == 0 then 0 else Before(f, k - 1) + f[k - 1]
  }

  lemma {:induction false} BeforeMonotone(f: seq<nat>, a: nat, b: nat)
    requires a <= b <= |f|
    ensures Before(f, a) <= Before(f, b)
    decreases b
  {
    if a < b { BeforeMonotone(f, a, b - 1); }
  }

  lemma {:induction false} BeforePrefix(a: seq<nat>, b: seq<nat>, k: nat)
    requires k <= |a|
    ensures Before(a + b, k) == Before(a, k)
  {
    if k > 0 { BeforePrefix(a, b, k - 1); }
  }
}
