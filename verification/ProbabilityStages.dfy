// src/cm.rs: the last stages of the predictor -- squash, its inverse, the adaptive
// probability maps and the final mix -- whose output drives the arithmetic coder.

module ProbabilityStages {
  import opened Common

  // The logistic curve at every 128th logit.
  const CURVE: seq<int> := [1, 2, 3, 6, 10, 16, 27, 45, 73, 120, 194, 310, 488, 747, 1101, 1546, 2047, 2549, 2994,
    3348, 3607, 3785, 3901, 3975, 4024, 4050, 4068, 4079, 4085, 4089, 4092, 4093, 4094]

  lemma CurveAscends(i: nat)
    requires i < 32
    ensures 1 <= CURVE[i] <= CURVE[i + 1] <= 4094
  {
  }

  function Squash(d: int): int {
    if d > 2047 then 4095
    else if d < -2047 then 0
    else Cell(d / 128 + 16, d % 128)
  }

  // The curve interpolated w 128ths of the way into its cell i.
  function Cell(i: nat, w: nat): int
    requires i < 32 && w <= 128
  {
    (CURVE[i] * (128 - w) + CURVE[i + 1] * w + 64) / 128
  }

  // A probability between two neighbours of the curve.
  lemma SquashBetween(d: int)
    requires -2047 <= d <= 2047
    ensures CURVE[d / 128 + 16] <= Squash(d) <= CURVE[d / 128 + 17]
  {
    var w, i := d % 128, d / 128 + 16;
    CurveAscends(i);
    Interpolated(CURVE[i], CURVE[i + 1], w, 128);
  }

  // Interpolating with weights that add up to n stays between the two values.
  lemma Interpolated(a: int, b: int, w: int, n: int)
    requires 0 <= w <= n && n > 0
    ensures Min(a, b) * n <= a * (n - w) + b * w <= Max(a, b) * n
  {
    var lo, hi := Min(a, b), Max(a, b);
    MulMonotone(lo, a, n - w);
    MulMonotone(lo, b, w);
    MulMonotone(a, hi, n - w);
    MulMonotone(b, hi, w);
    assert lo * (n - w) + lo * w == lo * n && hi * (n - w) + hi * w == hi * n;
  }

  // The curve is a logistic one: what a logit says for a 1 its negative says for a 0, but
  // for the table's rounding.
  lemma SquashMirrored(d: int)
    ensures 4093 <= Squash(d) + Squash(-d) <= 4099
  {
    hide Cell, Squash;
    SquashAt(d);
    SquashAt(-d);
    if -2047 <= d <= 2047 {
      DivisionOf(d);
      MirroredAt(d, d / 128 + 16, d % 128);
    }
  }

  lemma MirroredAt(d: int, i: nat, w: nat)
    requires d == 128 * (i - 16) + w && w < 128 && -2047 <= d <= 2047
    ensures 4093 <= Squash(d) + Squash(-d) <= 4099
  {
    hide Cell, Squash;
    SquashAt(d);
    SquashAt(-d);
    DivModIs(d, 128, i - 16, w);
    if w == 0 {
      DivModIs(-d, 128, 16 - i, 0);
      KnotIs(i);
      KnotIs(32 - i);
      CurveMirrored(i);
    } else {
      DivModIs(-d, 128, 15 - i, 128 - w);
      CellsMirrored(i, w);
    }
  }

  lemma SquashAt(d: int)
    ensures d > 2047 ==> Squash(d) == 4095
    ensures d < -2047 ==> Squash(d) == 0
    ensures -2047 <= d <= 2047 ==> 0 <= d / 128 + 16 < 32 && Squash(d) == Cell(d / 128 + 16, d % 128)
  {
    hide Cell;
  }

  lemma DivisionOf(d: int)
    ensures d == 128 * (d / 128) + d % 128
  {
  }

  lemma KnotIs(i: nat)
    requires i < 32
    ensures Cell(i, 0) == CURVE[i]
  {
  }

  lemma CurveMirrored(i: nat)
    requires i <= 32
    ensures 4094 <= CURVE[i] + CURVE[32 - i] <= 4097
  {
  }

  lemma CellsMirrored(i: nat, w: nat)
    requires i < 32 && 0 < w < 128
    ensures 4093 <= Cell(i, w) + Cell(31 - i, 128 - w) <= 4099
  {
    hide Cell;
    CurveMirrored(i);
    CurveMirrored(i + 1);
    CellAt(i, w);
    CellAt(31 - i, 128 - w);
    CornersMirrored(CURVE[i], CURVE[i + 1], CURVE[31 - i], CURVE[32 - i], w);
  }

  lemma CellAt(i: nat, w: nat)
    requires i < 32 && w <= 128
    ensures Cell(i, w) == (CURVE[i] * (128 - w) + CURVE[i + 1] * w + 64) / 128
  {
  }

  lemma CornersMirrored(a: int, b: int, c: int, d: int, w: nat)
    requires w <= 128 && 4094 <= a + d <= 4097 && 4094 <= b + c <= 4097
    ensures 4093 <= (a * (128 - w) + b * w + 64) / 128 + (c * (128 - (128 - w)) + d * (128 - w) + 64) / 128 <= 4099
  {
    MirroredSum(a, d, 128 - w);
    MirroredSum(b, c, w);
    RoundedSum(a * (128 - w) + b * w, c * w + d * (128 - w));
  }

  lemma RoundedSum(x: int, y: int)
    requires 4094 * 128 <= x + y <= 4097 * 128
    ensures 4093 <= (x + 64) / 128 + (y + 64) / 128 <= 4099
  {
  }

  lemma MirroredSum(a: int, b: int, n: nat)
    requires 4094 <= a + b <= 4097
    ensures 4094 * n <= a * n + b * n <= 4097 * n
  {
    MulMonotone(4094, a + b, n);
    MulMonotone(a + b, 4097, n);
    assert (a + b) * n == a * n + b * n;
  }

  lemma SquashStep(d: int)
    ensures 0 <= Squash(d) <= 4095
    ensures Squash(d) <= Squash(d + 1)
  {
    hide Cell;
    if -2047 <= d <= 2047 { SquashBounds(d); }
    if -2047 <= d + 1 <= 2047 { SquashBounds(d + 1); }
    if -2047 <= d < 2047 { SquashInside(d); }
  }

  lemma SquashInside(d: int)
    requires -2047 <= d < 2047
    ensures Squash(d) <= Squash(d + 1)
  {
    hide Cell;
    var i, w := d / 128 + 16, d % 128;
    if w < 127 {
      DivModIs(d + 1, 128, i - 16, w + 1);
      CellStep(i, w);
    } else {
      DivModIs(d + 1, 128, i - 15, 0);
      SquashBetween(d);
      SquashBetween(d + 1);
    }
  }

  lemma SquashBounds(d: int)
    requires -2047 <= d <= 2047
    ensures 1 <= Squash(d) <= 4094
  {
    CurveAscends(d / 128 + 16);
    SquashBetween(d);
  }

  lemma CellStep(i: nat, w: nat)
    requires i < 32 && w < 128
    ensures Cell(i, w) <= Cell(i, w + 1)
  {
    CurveAscends(i);
    OneMoreStep(CURVE[i], CURVE[i + 1], w);
  }

  lemma OneMoreStep(a: int, b: int, w: int)
    requires a <= b
    ensures a * (128 - w) + b * w + 64 <= a * (128 - (w + 1)) + b * (w + 1) + 64
  {
    assert a * (128 - (w + 1)) + b * (w + 1) == a * (128 - w) + b * w + (b - a);
  }

  // More evidence for a 1 never lowers its probability.
  lemma {:induction false} SquashMonotone(a: int, b: int)
    requires a <= b
    ensures 0 <= Squash(a) <= Squash(b) <= 4095
    decreases b - a
  {
    SquashStep(a);
    if a < b { SquashMonotone(a + 1, b); }
  }

  // The least logit whose probability reaches i; the greatest logit when none does.
  ghost predicate IsStretch(i: nat, x: int) {
    && -2047 <= x <= 2047
    && (forall y :: -2047 <= y < x ==> Squash(y) < i)
    && (Squash(x) >= i || x == 2047)
  }

  method BuildStretch() returns (stretch: array<int>)
    ensures fresh(stretch) && stretch.Length == 4096
    ensures forall i :: 0 <= i < 4096 ==> IsStretch(i, stretch[i])
  {
    hide Squash;
    stretch := new int[4096](i => 0);
    var pi := 0;
    SquashMonotone(-2047, -2047);
    for x := -2047 to 2048
      invariant 0 <= pi <= 4096
      invariant forall y :: -2047 <= y < x ==> Squash(y) < pi
      invariant forall i :: 0 <= i < pi ==> IsStretch(i, stretch[i])
      invariant pi == if x == -2047 then 0 else Squash(x - 1) + 1
    {
      SquashMonotone(x, x);
      if x > -2047 { SquashMonotone(x - 1, x); }
      var v := Squash(x);
      var i := pi;
      while i <= v
        invariant pi <= i <= v + 1
        invariant forall j :: 0 <= j < i ==> IsStretch(j, stretch[j])
      {
        stretch[i] := x;
        i := i + 1;
      }
      pi := v + 1;
      forall y | -2047 <= y <= x ensures Squash(y) < pi {
        SquashMonotone(y, x);
      }
    }
    for i := pi to 4096
      invariant forall j :: 0 <= j < i ==> IsStretch(j, stretch[j])
    {
      stretch[i] := 2047;
    }
  }

  // An adaptive probability map: 33 probabilities of 16 bits for each context.
  class Apm {
    const t: array<nat>
    const contexts: nat
    var index: nat

    // Every entry is a 16-bit probability, and the pair last read is in the table.
    ghost predicate Valid()
      reads this, t
    {
      && contexts > 0 && t.Length == contexts * 33 && index + 1 < t.Length
      && forall i :: 0 <= i < t.Length ==> t[i] <= 65535
    }

    constructor (n: nat)
      requires n > 0
      ensures Valid() && contexts == n && fresh(t)
      ensures forall k :: 0 <= k < t.Length ==> t[k] == Squash((k % 33 - 16) * 128) * 16
    {
      hide Squash;
      MulMonotone(1, n, 33);
      contexts, index := n, 0;
      t := new nat[n * 33](i => 0);
      new;
      for i := 0 to n
        modifies t
        invariant forall k :: 0 <= k < i * 33 ==> t[k] == Squash((k % 33 - 16) * 128) * 16
      {
        for j := 0 to 33
          modifies t
          invariant forall k :: 0 <= k < i * 33 + j ==> t[k] == Squash((k % 33 - 16) * 128) * 16
        {
          SquashMonotone((j - 16) * 128, (j - 16) * 128);
          MulMonotone(i + 1, n, 33);
          t[i * 33 + j] := Squash((j - 16) * 128) * 16;
          DivModIs(i * 33 + j, 33, i, j);
        }
      }
      forall k | 0 <= k < t.Length ensures t[k] <= 65535 {
        SquashMonotone((k % 33 - 16) * 128, (k % 33 - 16) * 128);
      }
    }

    // What the map says of a logit s (from zero on) in context cx: the entry pair lies 128 of
    // s apart, and p is the value on the line between them where s stands, rounded down.
    ghost predicate Says(s: int, cx: nat, p: int)
      reads this, t
    {
      && index + 1 < t.Length && index >= cx * 33
      && var w := s - 128 * (index - cx * 33);
         && 0 <= w < 128
         && 2048 * p <= 128 * t[index] + w * (t[index + 1] as int - t[index]) < 2048 * (p + 1)
    }

    // On an entry it is that entry's 12 high bits.
    lemma SaysEntry(s: int, cx: nat, p: int)
      requires Valid() && Says(s, cx, p) && s == 128 * (index - cx * 33)
      ensures p == t[index] / 16
    {
    }

    // The probability refined in context cx: between the two entries read, 12 bits.
    method Pp(pr: int, cx: nat, stretch: array<int>) returns (p: int)
      requires Valid() && stretch.Length == 4096 && 0 <= pr < 4096 && cx < contexts
      requires -2047 <= stretch[pr] <= 2047
      modifies `index
      ensures Valid() && cx * 33 <= index < cx * 33 + 32
      ensures Min(t[index], t[index + 1]) / 16 <= p <= Max(t[index], t[index + 1]) / 16
      ensures 0 <= p <= 4095 && Says(stretch[pr] + 2048, cx, p)
    {
      var s := stretch[pr] + 2048;
      var w := s % 128;
      MulMonotone(cx + 1, contexts, 33);
      index := s / 128 + cx * 33;
      OnTheLine(t[index], t[index + 1], w);
      Interpolated(t[index], t[index + 1], w, 128);
      p := (t[index] * (128 - w) + t[index + 1] * w) / 2048;
    }

    // Both entries move towards the bit, and stop only at its end of the scale.
    method Update(bit: nat, rate: nat)
      requires Valid() && bit <= 1
      modifies t
      ensures Valid()
      ensures forall i :: 0 <= i < t.Length && i != index && i != index + 1 ==> t[i] == old(t[i])
      ensures Towards(bit, old(t[index]), t[index]) && Towards(bit, old(t[index + 1]), t[index + 1])
      ensures Nearer(bit, old(t[index]), t[index], Pow2(rate)) && Nearer(bit, old(t[index + 1]), t[index + 1], Pow2(rate))
    {
      t[index] := Moved(bit, t[index], rate);
      t[index + 1] := Moved(bit, t[index + 1], rate);
    }
  }

  // One entry's update, cast to 16 bits as the program does.
  function Moved(bit: nat, t: nat, rate: nat): (n: nat)
    requires bit <= 1 && t <= 65535
    ensures Towards(bit, t, n) && Nearer(bit, t, n, Pow2(rate))
  {
    MoveTowards(bit, t, Pow2(rate));
    MovesNearer(bit, t, Pow2(rate));
    var g := bit * 65536 + bit * Pow2(rate) - bit - bit;
    (t + (g - t) / Pow2(rate)) % 65536
  }

  ghost predicate Towards(bit: nat, before: nat, after: nat) {
    if bit == 1 then before < after <= 65535 || before == after == 65535
    else after < before || before == after == 0
  }

  // By one p-th of the distance to the end of the scale, rounded up.
  ghost predicate Nearer(bit: nat, before: nat, after: nat, p: nat) {
    if bit == 1 then before <= 65535 && p * (after - before - 1) < 65535 - before <= p * (after - before)
    else p * (before - after - 1) < before <= p * (before - after)
  }

  // Interpolating by weights is following the line from the left entry.
  lemma OnTheLine(a: nat, b: nat, w: nat)
    requires w <= 128
    ensures 0 <= a * (128 - w) + b * w && a * (128 - w) + b * w == 128 * a + w * (b - a)
  {
    MulMonotone(0, a, 128 - w);
    MulMonotone(0, b, w);
  }

  // The 16-bit cast of the update never wraps.
  lemma MoveTowards(bit: nat, t: nat, p: nat)
    requires bit <= 1 && t <= 65535 && p >= 1
    ensures var n := t + (bit * 65536 + bit * p - bit - bit - t) / p;
      0 <= n <= 65535 && Towards(bit, t, n)
  {
    if bit == 1 {
      var u := 65535 - t;
      var q, r := (u + p - 1) / p, (u + p - 1) % p;
      assert u + p - 1 == p * q + r;
      if u > 0 {
        FloorAtMost(q, p, u);
        FloorAtLeast(q, p, r, u);
      } else {
        DivModIs(p - 1, p, 0, p - 1);
      }
    } else {
      FloorNegative(0 - t, p);
    }
  }

  lemma MovesNearer(bit: nat, t: nat, p: nat)
    requires bit <= 1 && t <= 65535 && p >= 1
    ensures var n := t + (bit * 65536 + bit * p - bit - bit - t) / p; n >= 0 ==> Nearer(bit, t, n, p)
  {
    if bit == 1 {
      StepRoundsUp(65535 - t, p, 65535 - t + p - 1);
    } else {
      FloorIs(0 - t, p);
    }
  }

  lemma StepRoundsUp(u: nat, p: nat, x: nat)
    requires p >= 1 && x == u + p - 1
    ensures p * (x / p - 1) < u <= p * (x / p)
  {
    FloorIs(x, p);
  }

  lemma FloorIs(x: int, p: int)
    requires p >= 1
    ensures p * (x / p) <= x < p * (x / p) + p && p * (0 - x / p) == 0 - p * (x / p) && p * (x / p - 1) == p * (x / p) - p
    ensures p * (0 - x / p - 1) == 0 - p * (x / p) - p
  {
    assert x == p * (x / p) + x % p;
  }

  lemma FloorAtMost(q: int, p: int, u: int)
    requires p >= 1 && u >= 1 && p * q <= u + p - 1
    ensures q <= u
  {
    if q >= u + 1 { MulMonotone(u + 1, q, p); MulAtLeast(p, u); }
  }

  lemma FloorAtLeast(q: int, p: int, r: int, u: int)
    requires p >= 1 && u >= 1 && u + p - 1 == p * q + r && r < p
    ensures q >= 1
  {
    if q <= 0 { MulMonotone(q, 0, p); }
  }

  lemma FloorNegative(x: int, p: int)
    requires p >= 1 && x <= 0
    ensures x <= x / p <= 0 && (x < 0 ==> x / p < 0)
  {
    var q, r := x / p, x % p;
    assert x == p * q + r;
    if q >= 1 { MulAtLeast(q, p); }
    if q < x { MulMonotone(q + 1, x, p); MulMonotone(1, p, -x); }
    if q == 0 { assert x == r; }
  }

  // Predictor::predict: one map at full weight, the other at three times it.
  method FinalMix(a1: Apm, a2: Apm, prMix: int, cx1: nat, cx2: nat, stretch: array<int>)
    returns (pr: int, ghost says1: int, ghost says2: int)
    requires a1.Valid() && a2.Valid() && a1 != a2 && a1.t != a2.t && stretch.Length == 4096
    requires 0 <= prMix < 4096 && cx1 < a1.contexts && cx2 < a2.contexts && -2047 <= stretch[prMix] <= 2047
    modifies a1`index, a2`index
    ensures a1.Valid() && a2.Valid() && 0 <= pr <= 4095
    ensures a1.Says(stretch[prMix] + 2048, cx1, says1) && a2.Says(stretch[prMix] + 2048, cx2, says2)
    ensures -2 <= says1 + 3 * says2 - 4 * pr <= 1
  {
    var p1 := a1.Pp(prMix, cx1, stretch);
    var p2 := a2.Pp(prMix, cx2, stretch);
    says1, says2 := p1, p2;
    pr := (p1 + 3 * p2 + 2) / 4;
  }
}
