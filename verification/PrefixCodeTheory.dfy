// Length assignments of prefix codes: their cost, the Kraft inequality, and the
// exchange argument that makes one Huffman merge safe.

module PrefixCodeTheory {
  import opened Common

  // The cost of giving node i, of weight w[i], a code of l[i] bits.
  ghost function Products(w: seq<nat>, l: seq<nat>): (p: seq<int>)
    requires |w| == |l|
    ensures |p| == |w|
    ensures forall i :: 0 <= i < |p| ==> p[i] == w[i] * l[i]
  {
    seq(|w|, i requires 0 <= i < |w| => w[i] * l[i])
  }

  ghost function Cost(w: seq<nat>, l: seq<nat>): int
    requires |w| == |l|
  {
    Sum(Products(w, l))
  }

  ghost predicate Within(l: seq<nat>, limit: nat) {
    forall i :: 0 <= i < |l| ==> l[i] <= limit
  }

  // The share of the code space a code of l[i] bits takes, in units of 2^-limit.
  ghost function Shares(l: seq<nat>, limit: nat): (s: seq<int>)
    requires Within(l, limit)
    ensures |s| == |l|
    ensures forall i :: 0 <= i < |s| ==> s[i] == Pow2(limit - l[i])
  {
    seq(|l|, i requires 0 <= i < |l| => Pow2(limit - l[i]))
  }

  ghost function Kraft(l: seq<nat>, limit: nat): int
    requires Within(l, limit)
  {
    Sum(Shares(l, limit))
  }

  // l gives every one of n nodes a place in one binary tree of height at most limit.
  ghost predicate Feasible(l: seq<nat>, limit: nat) {
    Within(l, limit) && Kraft(l, limit) <= Pow2(limit)
  }

  lemma CostUpdate(w: seq<nat>, l: seq<nat>, k: nat, x: nat)
    requires |w| == |l| && k < |l|
    ensures Cost(w, l[k := x]) == Cost(w, l) + w[k] * (x - l[k])
  {
    assert Products(w, l[k := x]) == Products(w, l)[k := w[k] * x];
    SumUpdate(Products(w, l), k, w[k] * x);
    assert w[k] * x - w[k] * l[k] == w[k] * (x - l[k]);
  }

  lemma KraftUpdate(l: seq<nat>, k: nat, x: nat, limit: nat)
    requires k < |l| && Within(l, limit) && x <= limit
    ensures Within(l[k := x], limit)
    ensures Kraft(l[k := x], limit) == Kraft(l, limit) - Pow2(limit - l[k]) + Pow2(limit - x)
  {
    assert Shares(l[k := x], limit) == Shares(l, limit)[k := Pow2(limit - x)];
    SumUpdate(Shares(l, limit), k, Pow2(limit - x));
  }

  // Measuring against one more bit doubles every share.
  lemma KraftDeeper(l: seq<nat>, limit: nat)
    requires Within(l, limit)
    ensures Within(l, limit + 1) && Kraft(l, limit + 1) == 2 * Kraft(l, limit)
  {
    SumScale(Shares(l, limit), Shares(l, limit + 1), 2);
  }

  // Two nodes do not fit a code of no bits.
  lemma NoRoom(l: seq<nat>)
    requires |l| >= 2 && Within(l, 0)
    ensures Kraft(l, 0) > Pow2(0)
  {
    assert Shares(l, 0)[..2] == [1, 1];
    SumAppend(Shares(l, 0)[..2], Shares(l, 0)[2..]);
    assert Shares(l, 0) == Shares(l, 0)[..2] + Shares(l, 0)[2..];
    SumNonNegative(Shares(l, 0)[2..]);
    SumSnoc([1], 1);
  }

  // Two nodes at the deepest level of a feasible assignment that costs no more.
  lemma {:induction false} Tighten(w: seq<nat>, l: seq<nat>, limit: nat)
    returns (l': seq<nat>, limit': nat, p: nat, q: nat)
    requires |w| == |l| >= 2 && Feasible(l, limit)
    ensures |l'| == |l| && Feasible(l', limit') && Cost(w, l') <= Cost(w, l)
    ensures p < |l| && q < |l| && p != q && limit' >= 1 && l'[p] == limit' == l'[q]
    decreases limit
  {
    hide Sum, Products, Shares;
    if limit == 0 {
      NoRoom(l);
      assert false;
    } else if i, j :| 0 <= i < j < |l| && l[i] == limit && l[j] == limit {
      l', limit', p, q := l, limit, i, j;
    } else if k :| 0 <= k < |l| && l[k] == limit {
      // A lone deepest node leaves its sibling's place free: it can move up.
      var m := l[k := limit - 1];
      KraftUpdate(l, k, limit - 1, limit);
      assert Within(m, limit - 1);
      KraftDeeper(m, limit - 1);
      CostUpdate(w, l, k, limit - 1);
      assert w[k] * (limit - 1 - l[k]) <= 0;
      l', limit', p, q := Tighten(w, m, limit - 1);
    } else {
      assert Within(l, limit - 1);
      KraftDeeper(l, limit - 1);
      l', limit', p, q := Tighten(w, l, limit - 1);
    }
  }

  // Exchanging two nodes' lengths so that the lighter one gets the longer code.
  lemma Exchange(w: seq<nat>, l: seq<nat>, limit: nat, light: nat, deep: nat) returns (l': seq<nat>)
    requires |w| == |l| && light < |l| && deep < |l| && Feasible(l, limit)
    requires w[light] <= w[deep] && l[light] <= l[deep]
    ensures l' == l[light := l[deep]][deep := l[light]]
    ensures Feasible(l', limit) && Cost(w, l') <= Cost(w, l)
  {
    var m := l[light := l[deep]];
    l' := m[deep := l[light]];
    CostUpdate(w, l, light, l[deep]);
    KraftUpdate(l, light, l[deep], limit);
    CostUpdate(w, m, deep, l[light]);
    KraftUpdate(m, deep, l[light], limit);
    if light != deep {
      ExchangeGain(w[light], w[deep], l[light], l[deep]);
    }
  }

  lemma ExchangeGain(x: int, y: int, m: int, n: int)
    requires x <= y && m <= n
    ensures x * (n - m) + y * (m - n) <= 0
  {
    assert x * (n - m) + y * (m - n) == (x - y) * (n - m);
  }

  // The two lightest nodes a and b (b's index is taken after a's removal), moved
  // to the deepest level together.
  lemma LightestDeepest(w: seq<nat>, l: seq<nat>, limit: nat, a: nat, b: nat)
    returns (l': seq<nat>, limit': nat)
    requires |w| == |l| >= 2 && Feasible(l, limit) && a < |w| && b < |w| && a != b
    requires forall i :: 0 <= i < |w| ==> w[a] <= w[i]
    requires forall i :: 0 <= i < |w| && i != a ==> w[b] <= w[i]
    ensures |l'| == |l| && Feasible(l', limit') && Cost(w, l') <= Cost(w, l)
    ensures limit' >= 1 && l'[a] == limit' == l'[b]
  {
    var t, lim, p, q := Tighten(w, l, limit);
    var u := Exchange(w, t, lim, a, p);
    var q' := if q == a then p else q;
    assert u[a] == lim && u[q'] == lim && q' != a;
    l' := Exchange(w, u, lim, b, q');
    limit' := lim;
  }

  function Merged(w: seq<nat>, a: nat, b: nat): seq<nat>
    requires a < |w| && b < |w| - 1
  {
    RemoveAt(RemoveAt(w, a), b) + [w[a] + RemoveAt(w, a)[b]]
  }

  // A node removed takes its cost and its share with it.
  lemma RemoveNode(w: seq<nat>, l: seq<nat>, limit: nat, k: nat)
    requires |w| == |l| && k < |l| && Within(l, limit)
    ensures Within(RemoveAt(l, k), limit)
    ensures Cost(RemoveAt(w, k), RemoveAt(l, k)) == Cost(w, l) - w[k] * l[k]
    ensures Kraft(RemoveAt(l, k), limit) == Kraft(l, limit) - Pow2(limit - l[k])
  {
    hide Sum, Pow2;
    assert RemoveAt(Products(w, l), k) == Products(RemoveAt(w, k), RemoveAt(l, k));
    SumRemoveAt(Products(w, l), k);
    assert RemoveAt(Shares(l, limit), k) == Shares(RemoveAt(l, k), limit);
    SumRemoveAt(Shares(l, limit), k);
  }

  // A node added brings its own.
  lemma AppendNode(w: seq<nat>, l: seq<nat>, limit: nat, weight: nat, len: nat)
    requires |w| == |l| && Within(l, limit) && len <= limit
    ensures Within(l + [len], limit)
    ensures Cost(w + [weight], l + [len]) == Cost(w, l) + weight * len
    ensures Kraft(l + [len], limit) == Kraft(l, limit) + Pow2(limit - len)
  {
    hide Sum, Pow2;
    assert Products(w + [weight], l + [len]) == Products(w, l) + [weight * len];
    SumSnoc(Products(w, l), weight * len);
    assert Shares(l + [len], limit) == Shares(l, limit) + [Pow2(limit - len)];
    SumSnoc(Shares(l, limit), Pow2(limit - len));
  }

  // Two deepest nodes replaced by their parent, one level up.
  lemma MergeDeepest(w: seq<nat>, d: seq<nat>, limit: nat, a: nat, b: nat) returns (l': seq<nat>)
    requires |w| == |d| >= 2 && Feasible(d, limit) && a < |w| && b < |w| - 1
    requires limit >= 1 && d[a] == limit == RemoveAt(d, a)[b]
    ensures |l'| == |w| - 1 && Feasible(l', limit)
    ensures Cost(Merged(w, a, b), l') + w[a] + RemoveAt(w, a)[b] == Cost(w, d)
  {
    var w1, d1 := RemoveAt(w, a), RemoveAt(d, a);
    RemoveNode(w, d, limit, a);
    RemoveNode(w1, d1, limit, b);
    AppendNode(RemoveAt(w1, b), RemoveAt(d1, b), limit, w[a] + w1[b], limit - 1);
    l' := RemoveAt(d1, b) + [limit - 1];
    ParentCost(w[a], w1[b], limit);
    assert Pow2(1) == 2 * Pow2(0);
  }

  lemma ParentCost(x: int, y: int, n: int)
    ensures (x + y) * (n - 1) + x + y == x * n + y * n
  {
  }

  // A feasible assignment for the nodes gives one for the nodes after the
  // merge of the two lightest, cheaper by the merged weight.
  lemma MergeStep(w: seq<nat>, l: seq<nat>, limit: nat, a: nat, b: nat)
    returns (l': seq<nat>, limit': nat)
    requires |w| == |l| >= 2 && Feasible(l, limit) && a < |w| && b < |w| - 1
    requires forall i :: 0 <= i < |w| ==> w[a] <= w[i]
    requires forall i :: 0 <= i < |w| - 1 ==> RemoveAt(w, a)[b] <= RemoveAt(w, a)[i]
    ensures |l'| == |w| - 1 && Feasible(l', limit')
    ensures Cost(Merged(w, a, b), l') + w[a] + RemoveAt(w, a)[b] <= Cost(w, l)
  {
    var b0 := if b < a then b else b + 1;
    forall i | 0 <= i < |w| && i != a ensures w[b0] <= w[i] {
      var j := if i < a then i else i - 1;
      assert RemoveAt(w, a)[j] == w[i];
    }
    var d, lim := LightestDeepest(w, l, limit, a, b0);
    l' := MergeDeepest(w, d, lim, a, b);
    limit' := lim;
  }

  // No assignment for the weights w0 costs less than acc plus what some
  // assignment for the weights w costs.
  ghost predicate Dominated(w0: seq<nat>, w: seq<nat>, acc: nat) {
    forall l: seq<nat>, limit: nat :: |l| == |w0| && Feasible(l, limit) ==>
      exists l': seq<nat>, limit': nat ::
        |l'| == |w| && Feasible(l', limit') && Cost(w, l') + acc <= Cost(w0, l)
  }

  // Merging the two lightest nodes keeps the bound.
  lemma DominatedMerge(w0: seq<nat>, w: seq<nat>, acc: nat, a: nat, b: nat)
    requires Dominated(w0, w, acc) && |w| >= 2 && a < |w| && b < |w| - 1
    requires forall i :: 0 <= i < |w| ==> w[a] <= w[i]
    requires forall i :: 0 <= i < |w| - 1 ==> RemoveAt(w, a)[b] <= RemoveAt(w, a)[i]
    ensures Dominated(w0, Merged(w, a, b), acc + w[a] + RemoveAt(w, a)[b])
  {
    var acc' := acc + w[a] + RemoveAt(w, a)[b];
    forall l: seq<nat>, limit: nat | |l| == |w0| && Feasible(l, limit)
      ensures exists l': seq<nat>, limit': nat ::
        |l'| == |Merged(w, a, b)| && Feasible(l', limit') && Cost(Merged(w, a, b), l') + acc' <= Cost(w0, l)
    {
      var m: seq<nat>, lim: nat :| |m| == |w| && Feasible(m, lim) && Cost(w, m) + acc <= Cost(w0, l);
      var l', limit' := MergeStep(w, m, lim, a, b);
    }
  }

  // Once one node is left, the accumulated merges are a lower bound.
  lemma DominatedEnd(w0: seq<nat>, w: seq<nat>, acc: nat, l: seq<nat>, limit: nat)
    requires Dominated(w0, w, acc) && |l| == |w0| && Feasible(l, limit)
    ensures acc <= Cost(w0, l)
  {
    var m: seq<nat>, lim: nat :| |m| == |w| && Feasible(m, lim) && Cost(w, m) + acc <= Cost(w0, l);
    SumNonNegative(Products(w, m));
  }
}
