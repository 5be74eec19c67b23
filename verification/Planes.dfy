// src/safetensors.rs: elements of w bytes as byte planes -- all first bytes, then all
// second bytes -- and back.

module Planes {
  import opened Common

  // Where byte j of element i goes, among n elements.
  lemma IndexParts(i: nat, j: nat, n: nat, w: nat)
    requires i < n && j < w
    ensures 0 <= i * w + j < n * w && (i * w + j) / w == i && (i * w + j) % w == j
  {
    DivModIs(i * w + j, w, i, j);
    MulMonotone(i + 1, n, w);
    OneMore(i, w);
  }

  // n elements of w bytes; bytes behind the last whole element are dropped.
  function Split(data: seq<byte>, w: nat): (p: seq<byte>)
    requires w > 0
    ensures |p| <= |data|
  {
    var n := Count(|data|, w);
    seq(n * w, k requires 0 <= k < n * w => (PlaneByte(k, n, w); data[k % n * w + k / n]))
  }

  // The whole elements in len bytes.
  function Count(len: nat, w: nat): (n: nat)
    requires w > 0
    ensures 0 <= n * w <= len && (len % w == 0 ==> n * w == len)
  {
    QuotientAtLeastZero(len, w);
    DivisionIs(len, w);
    len / w
  }

  lemma PlaneByte(k: nat, n: nat, w: nat)
    requires k < n * w
    ensures n > 0 && 0 <= k / n < w && 0 <= k % n * w + k / n < n * w
  {
    if n == 0 { assert false; }
    DivisionIs(k, n);
    QuotientAtLeastZero(k, n);
    if k / n >= w { MulMonotone(w, k / n, n); }
    IndexParts(k % n, k / n, n, w);
  }

  function Join(planes: seq<byte>, w: nat): (r: Option<seq<byte>>)
    ensures r.Some? <==> w > 0 && |planes| % w == 0
    ensures r.Some? ==> |r.value| == |planes|
  {
    if w == 0 || |planes| % w != 0 then None
    else
      var n := Count(|planes|, w);
      Some(seq(|planes|, k requires 0 <= k < |planes| => (ElementByte(k, n, w); planes[k % w * n + k / w])))
  }

  lemma ElementByte(k: nat, n: nat, w: nat)
    requires k < n * w
    ensures w > 0 && 0 <= k / w < n && 0 <= k % w * n + k / w < n * w
  {
    PlaneByte(k, w, n);
  }

  // Joining what was split gives the whole elements back.
  lemma JoinSplit(data: seq<byte>, w: nat)
    requires w > 0
    ensures |Split(data, w)| % w == 0
    ensures Join(Split(data, w), w) == Some(data[..Count(|data|, w) * w])
  {
    hide Split, Join, Count;
    var n, p := Count(|data|, w), Split(data, w);
    SplitLength(data, w);
    CountWhole(n, w);
    forall k | 0 <= k < n * w ensures Join(p, w).value[k] == data[k] {
      JoinAt(p, w, k);
      var i, j := k / w, k % w;
      DivisionIs(k, w);
      IndexParts(j, i, w, n);
      SplitAt(data, w, j * n + i);
      assert i * w + j == k;
    }
    assert Join(p, w).value == data[..n * w];
  }

  lemma CountWhole(n: nat, w: nat)
    requires w > 0
    ensures 0 <= n * w && n * w % w == 0 && Count(n * w, w) == n
  {
    DivModIs(n * w, w, n, 0);
  }

  lemma JoinAt(planes: seq<byte>, w: nat, k: nat)
    requires w > 0 && |planes| % w == 0 && k < |planes|
    ensures var n := Count(|planes|, w);
      0 <= k / w < n && 0 <= k % w * n + k / w < |planes| && Join(planes, w).value[k] == planes[k % w * n + k / w]
  {
    ElementByte(k, Count(|planes|, w), w);
  }

  // The loop that spreads every element over the planes.
  method SplitPlanes(data: seq<byte>, w: nat) returns (p: seq<byte>)
    requires w > 0
    ensures p == Split(data, w)
  {
    hide Filled, Row, Split;
    var n := Count(|data|, w);
    var dst := new byte[n * w];
    NoneFilled(dst[..], data, n, w);
    for i := 0 to n
      invariant Filled(dst[..], data, i, n, w)
    {
      RowStarts(dst[..], data, i, n, w);
      for j := 0 to w
        invariant Filled(dst[..], data, i, n, w) && Row(dst[..], data, i, j, n, w)
      {
        IndexParts(j, i, w, n);
        IndexParts(i, j, n, w);
        ghost var was := dst[..];
        dst[j * n + i] := data[i * w + j];
        StillPlaced(was, dst[..], data, i, j, n, w);
      }
      RowEnds(dst[..], data, i, n, w);
    }
    p := dst[..];
    AllPlaced(p, data, n, w);
  }

  // The first i elements are in their places, and the first j bytes of element i.
  ghost predicate Filled(p: seq<byte>, data: seq<byte>, i: nat, n: nat, w: nat) {
    forall e, j :: 0 <= e < i && 0 <= j < w ==> Placed(p, data, e, j, n, w)
  }

  ghost predicate Row(p: seq<byte>, data: seq<byte>, i: nat, j: nat, n: nat, w: nat) {
    forall k :: 0 <= k < j ==> Placed(p, data, i, k, n, w)
  }

  ghost predicate Placed(p: seq<byte>, data: seq<byte>, i: nat, j: nat, n: nat, w: nat) {
    && 0 <= j * n + i < |p| && 0 <= i * w + j < |data|
    && p[j * n + i] == data[i * w + j]
  }

  lemma NoneFilled(p: seq<byte>, data: seq<byte>, n: nat, w: nat)
    ensures Filled(p, data, 0, n, w)
  {
  }

  lemma RowStarts(p: seq<byte>, data: seq<byte>, i: nat, n: nat, w: nat)
    ensures Row(p, data, i, 0, n, w)
  {
  }

  lemma RowEnds(p: seq<byte>, data: seq<byte>, i: nat, n: nat, w: nat)
    requires Filled(p, data, i, n, w) && Row(p, data, i, w, n, w)
    ensures Filled(p, data, i + 1, n, w)
  {
    hide Placed;
  }

  // Storing one byte leaves the bytes of other elements and planes.
  lemma StillPlaced(was: seq<byte>, p: seq<byte>, data: seq<byte>, i: nat, j: nat, n: nat, w: nat)
    requires i < n && j < w && |was| == n * w && 0 <= j * n + i < n * w && 0 <= i * w + j < |data|
    requires p == was[j * n + i := data[i * w + j]]
    requires Filled(was, data, i, n, w) && Row(was, data, i, j, n, w)
    ensures Filled(p, data, i, n, w) && Row(p, data, i, j + 1, n, w)
  {
    hide Placed;
    forall e, k | 0 <= e < i && 0 <= k < w ensures Placed(p, data, e, k, n, w) {
      OtherPlaced(was, p, data, i, j, e, k, n, w);
    }
    forall k | 0 <= k < j + 1 ensures Placed(p, data, i, k, n, w) {
      OtherPlaced(was, p, data, i, j, i, k, n, w);
    }
  }

  lemma OtherPlaced(was: seq<byte>, p: seq<byte>, data: seq<byte>, i: nat, j: nat, e: nat, k: nat, n: nat, w: nat)
    requires i < n && j < w && |was| == n * w && 0 <= j * n + i < n * w && 0 <= i * w + j < |data|
    requires p == was[j * n + i := data[i * w + j]]
    requires e < n && k < w && ((e == i && k == j) || Placed(was, data, e, k, n, w))
    ensures Placed(p, data, e, k, n, w)
  {
    IndexParts(k, e, w, n);
    IndexParts(j, i, w, n);
  }

  lemma AllPlaced(p: seq<byte>, data: seq<byte>, n: nat, w: nat)
    requires w > 0 && n == Count(|data|, w) && |p| == n * w
    requires Filled(p, data, n, n, w)
    ensures p == Split(data, w)
  {
    hide Split, Filled;
    SplitLength(data, w);
    forall k | 0 <= k < n * w ensures p[k] == Split(data, w)[k] {
      SplitAt(data, w, k);
      FilledAt(p, data, k, n, w);
    }
  }

  lemma SplitLength(data: seq<byte>, w: nat)
    requires w > 0
    ensures |Split(data, w)| == Count(|data|, w) * w
  {
  }

  lemma SplitAt(data: seq<byte>, w: nat, k: nat)
    requires w > 0 && k < |Split(data, w)|
    ensures var n := Count(|data|, w);
      n > 0 && 0 <= k / n < w && 0 <= k % n * w + k / n < |data| && Split(data, w)[k] == data[k % n * w + k / n]
  {
    PlaneByte(k, Count(|data|, w), w);
  }

  lemma FilledAt(p: seq<byte>, data: seq<byte>, k: nat, n: nat, w: nat)
    requires n > 0 && 0 <= k / n < w && Filled(p, data, n, n, w)
    ensures k < |p| && 0 <= k % n * w + k / n < |data| && p[k] == data[k % n * w + k / n]
  {
    hide Placed;
    assert Placed(p, data, k % n, k / n, n, w);
    PlacedAt(p, data, k, n, w);
  }

  lemma PlacedAt(p: seq<byte>, data: seq<byte>, k: nat, n: nat, w: nat)
    requires n > 0 && 0 <= k / n && Placed(p, data, k % n, k / n, n, w)
    ensures k < |p| && 0 <= k % n * w + k / n < |data| && p[k] == data[k % n * w + k / n]
  {
    DivisionIs(k, n);
  }

  // The loop that gathers every element from the planes.
  method JoinPlanes(planes: seq<byte>, w: nat) returns (r: Option<seq<byte>>)
    ensures r == Join(planes, w)
  {
    if w == 0 || |planes| % w != 0 { return None; }
    var n := Count(|planes|, w);
    var out: seq<byte> := [];
    for i := 0 to n
      invariant |out| == i * w && i * w <= n * w
      invariant forall k :: 0 <= k < i * w ==> out[k] == Join(planes, w).value[k]
    {
      MulMonotone(i + 1, n, w);
      OneMore(i, w);
      for j := 0 to w
        invariant |out| == i * w + j
        invariant forall k :: 0 <= k < i * w + j ==> out[k] == Join(planes, w).value[k]
      {
        IndexParts(i, j, n, w);
        IndexParts(j, i, w, n);
        out := out + [planes[j * n + i]];
      }
    }
    r := Some(out);
    assert out == Join(planes, w).value;
  }
}
