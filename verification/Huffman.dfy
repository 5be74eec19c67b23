// src/huffman.rs: minimum-cost code lengths by two-queue Huffman construction.
//
// The alphabet size is a parameter (256 in the program) and counts are unbounded.

module Huffman {
  import opened Common
  import opened PrefixCodeTheory
  import opened CodeLengths

  // ---------------------------------------------------------------- trees

  datatype Tree = Leaf(id: nat) | Fork(left: Tree, right: Tree)

  ghost function LeafCount(t: Tree): nat {
    match t
    case Leaf(_) => 1
    case Fork(a, b) => LeafCount(a) + LeafCount(b)
  }

  ghost predicate LeavesBelow(t: Tree, n: nat) {
    match t
    case Leaf(id) => id < n
    case Fork(a, b) => LeavesBelow(a, n) && LeavesBelow(b, n)
  }

  ghost function Weight(t: Tree, w: seq<nat>): nat
    requires LeavesBelow(t, |w|)
  {
    match t
    case Leaf(id) => w[id]
    case Fork(a, b) => Weight(a, w) + Weight(b, w)
  }

  // The weights of all merged nodes of the tree.
  ghost function Inner(t: Tree, w: seq<nat>): nat
    requires LeavesBelow(t, |w|)
  {
    match t
    case Leaf(id) => 0
    case Fork(a, b) => Weight(t, w) + Inner(a, w) + Inner(b, w)
  }

  ghost function Ids(t: Tree): multiset<nat> {
    match t
    case Leaf(id) => multiset{id}
    case Fork(a, b) => Ids(a) + Ids(b)
  }

  ghost function LeafSeq(t: Tree): seq<nat> {
    match t
    case Leaf(id) => [id]
    case Fork(a, b) => LeafSeq(a) + LeafSeq(b)
  }

  lemma {:induction false} LeafSeqIds(t: Tree, n: nat)
    requires LeavesBelow(t, n)
    ensures multiset(LeafSeq(t)) == Ids(t)
    ensures |LeafSeq(t)| == LeafCount(t) >= 1
    ensures forall i :: 0 <= i < |LeafSeq(t)| ==> LeafSeq(t)[i] < n
  {
    match t
    case Leaf(_) =>
    case Fork(a, b) =>
      LeafSeqIds(a, n);
      LeafSeqIds(b, n);
  }

  ghost function TreeSum(t: Tree, f: seq<int>): int
    requires LeavesBelow(t, |f|)
  {
    match t
    case Leaf(id) => f[id]
    case Fork(a, b) => TreeSum(a, f) + TreeSum(b, f)
  }

  // l gives each leaf of t its depth, t's root being at depth d.
  ghost predicate DepthsAre(t: Tree, d: nat, l: seq<nat>) {
    match t
    case Leaf(id) => id < |l| && l[id] == d
    case Fork(a, b) => DepthsAre(a, d + 1, l) && DepthsAre(b, d + 1, l)
  }

  lemma {:induction false} TreeSumListed(t: Tree, f: seq<int>)
    requires LeavesBelow(t, |f|)
    requires forall i :: 0 <= i < |LeafSeq(t)| ==> LeafSeq(t)[i] < |f|
    ensures TreeSum(t, f) == Sum(PickInt(f, LeafSeq(t)))
  {
    match t
    case Leaf(id) =>
      assert PickInt(f, LeafSeq(t)) == [f[id]];
      assert [] + [f[id]] == [f[id]];
      SumSnoc([], f[id]);
    case Fork(a, b) =>
      LeafSeqIds(a, |f|);
      LeafSeqIds(b, |f|);
      TreeSumListed(a, f);
      TreeSumListed(b, f);
      PickIntAppend(f, LeafSeq(a), LeafSeq(b));
      SumAppend(PickInt(f, LeafSeq(a)), PickInt(f, LeafSeq(b)));
  }

  // A tree over all the leaves sums them all.
  lemma TreeSumAll(t: Tree, f: seq<int>)
    requires LeavesBelow(t, |f|) && Ids(t) == multiset(Identity(|f|))
    ensures TreeSum(t, f) == Sum(f)
  {
    LeafSeqIds(t, |f|);
    TreeSumListed(t, f);
    SumPermuted(f, LeafSeq(t));
  }

  // The weighted depths of the leaves add up to the merged weights ...
  lemma {:induction false} DepthsCost(t: Tree, d: nat, w: seq<nat>, l: seq<nat>)
    requires LeavesBelow(t, |w|) && |l| == |w| && DepthsAre(t, d, l)
    ensures TreeSum(t, Products(w, l)) == Weight(t, w) * d + Inner(t, w)
  {
    match t
    case Leaf(id) =>
    case Fork(a, b) =>
      DepthsCost(a, d + 1, w, l);
      DepthsCost(b, d + 1, w, l);
      OneDeeper(Weight(a, w), Weight(b, w), d);
  }

  lemma OneDeeper(x: int, y: int, d: int)
    ensures x * (d + 1) + y * (d + 1) == (x + y) * d + x + y
  {
  }

  // ... and their shares of the code space to the whole of it.
  lemma {:induction false} DepthsKraft(t: Tree, d: nat, l: seq<nat>, limit: nat)
    requires LeavesBelow(t, |l|) && DepthsAre(t, d, l) && d <= limit && Within(l, limit)
    ensures TreeSum(t, Shares(l, limit)) == Pow2(limit - d)
  {
    match t
    case Leaf(id) =>
    case Fork(a, b) =>
      assert d < limit by { var id := SomeLeaf(a, d + 1, l); }
      DepthsKraft(a, d + 1, l, limit);
      DepthsKraft(b, d + 1, l, limit);
  }

  lemma {:induction false} SomeLeaf(t: Tree, d: nat, l: seq<nat>) returns (id: nat)
    requires DepthsAre(t, d, l)
    ensures id < |l| && l[id] >= d
  {
    match t
    case Leaf(i) => id := i;
    case Fork(a, b) => id := SomeLeaf(a, d + 1, l);
  }

  lemma {:induction false} DepthsBelow(t: Tree, d: nat, l: seq<nat>, id: nat)
    requires DepthsAre(t, d, l) && id in Ids(t)
    ensures id < |l| && l[id] < d + LeafCount(t)
  {
    match t
    case Leaf(_) =>
    case Fork(a, b) =>
      LeafSeqCount(a);
      LeafSeqCount(b);
      if id in Ids(a) { DepthsBelow(a, d + 1, l, id); } else { DepthsBelow(b, d + 1, l, id); }
  }

  lemma LeafSeqCount(t: Tree)
    ensures LeafCount(t) == |Ids(t)| >= 1
  {
  }

  // The lengths read off the tree: their cost is the merges', their code space whole.
  lemma TreeLengths(t: Tree, w: seq<nat>, l: seq<nat>)
    requires LeavesBelow(t, |w|) && Ids(t) == multiset(Identity(|w|)) && |l| == |w| > 0
    requires DepthsAre(t, 0, l)
    ensures Cost(w, l) == Inner(t, w)
    ensures Within(l, |w| - 1) && Kraft(l, |w| - 1) == Pow2(|w| - 1)
  {
    hide TreeSum, Sum, Pow2, DepthsAre, Inner, LeavesBelow, Ids, LeafCount;
    DepthsCost(t, 0, w, l);
    TreeSumAll(t, Products(w, l));
    LeafSeqCount(t);
    forall i | 0 <= i < |l| ensures l[i] <= |w| - 1 {
      assert Identity(|w|)[i] == i && i in Ids(t);
      DepthsBelow(t, 0, l, i);
    }
    DepthsKraft(t, 0, l, |w| - 1);
    TreeSumAll(t, Shares(l, |w| - 1));
  }

  // ---------------------------------------------------------------- the forest being merged

  ghost predicate AllBelow(g: seq<Tree>, n: nat) {
    forall i :: 0 <= i < |g| ==> LeavesBelow(g[i], n)
  }

  ghost function Weights(g: seq<Tree>, w: seq<nat>): (s: seq<nat>)
    requires AllBelow(g, |w|)
    ensures |s| == |g|
    ensures forall i :: 0 <= i < |s| ==> s[i] == Weight(g[i], w)
  {
    seq(|g|, i requires 0 <= i < |g| => Weight(g[i], w))
  }

  ghost function Inners(g: seq<Tree>, w: seq<nat>): (s: seq<int>)
    requires AllBelow(g, |w|)
    ensures |s| == |g|
    ensures forall i :: 0 <= i < |s| ==> s[i] == Inner(g[i], w)
  {
    seq(|g|, i requires 0 <= i < |g| => Inner(g[i], w))
  }

  ghost function ForestIds(g: seq<Tree>): multiset<nat> {
    if g == [] then multiset{} else Ids(g[0]) + ForestIds(g[1..])
  }

  lemma {:induction false} ForestIdsAppend(a: seq<Tree>, b: seq<Tree>)
    ensures ForestIds(a + b) == ForestIds(a) + ForestIds(b)
  {
    if a == [] {
      assert a + b == b;
    } else {
      assert (a + b)[1..] == a[1..] + b;
      ForestIdsAppend(a[1..], b);
    }
  }

  lemma ForestIdsHead(g: seq<Tree>)
    requires g != []
    ensures ForestIds(g) == Ids(g[0]) + ForestIds(g[1..])
  {
  }

  lemma {:induction false} ForestIdsRemoveAt(g: seq<Tree>, k: nat)
    requires k < |g|
    ensures ForestIds(g) == ForestIds(RemoveAt(g, k)) + Ids(g[k])
  {
    hide ForestIds, Ids;
    var r := RemoveAt(g, k);
    ForestIdsHead(g);
    if k == 0 {
      assert r == g[1..];
    } else {
      ForestIdsRemoveAt(g[1..], k - 1);
      assert r[1..] == RemoveAt(g[1..], k - 1);
      ForestIdsHead(r);
    }
  }

  // The trees hold each leaf once; acc has been paid for the merges made, and no
  // code for the leaves costs less than acc plus what merging these trees costs.
  ghost predicate Merging(w: seq<nat>, g: seq<Tree>, acc: nat) {
    && AllBelow(g, |w|)
    && ForestIds(g) == multiset(Identity(|w|))
    && Sum(Inners(g, w)) == acc
    && Dominated(w, Weights(g, w), acc)
  }

  ghost function Singletons(n: nat): (g: seq<Tree>)
    ensures |g| == n && forall i :: 0 <= i < n ==> g[i] == Leaf(i)
  {
    seq(n, i requires 0 <= i < n => Leaf(i))
  }

  ghost function Arranged(trees: seq<Tree>, order: seq<nat>): (g: seq<Tree>)
    requires forall i :: 0 <= i < |order| ==> order[i] < |trees|
    ensures |g| == |order|
    ensures forall i :: 0 <= i < |g| ==> g[i] == trees[order[i]]
  {
    seq(|order|, i requires 0 <= i < |order| => trees[order[i]])
  }

  lemma {:induction false} LeafIds(order: seq<nat>, g: seq<Tree>)
    requires |g| == |order| && forall i :: 0 <= i < |g| ==> g[i] == Leaf(order[i])
    ensures ForestIds(g) == multiset(order)
  {
    if order == [] {
    } else {
      LeafIds(order[1..], g[1..]);
      assert order == [order[0]] + order[1..];
    }
  }

  ghost function MergedForest(g: seq<Tree>, a: nat, b: nat): (r: seq<Tree>)
    requires a < |g| && b < |g| - 1
    ensures |r| == |g| - 1
  {
    RemoveAt(RemoveAt(g, a), b) + [Fork(g[a], RemoveAt(g, a)[b])]
  }

  lemma MergeKeepsIds(g: seq<Tree>, a: nat, b: nat)
    requires a < |g| && b < |g| - 1
    ensures ForestIds(MergedForest(g, a, b)) == ForestIds(g)
  {
    hide ForestIds, Ids;
    var g1 := RemoveAt(g, a);
    ForestIdsRemoveAt(g, a);
    ForestIdsRemoveAt(g1, b);
    ForestIdsAppend(RemoveAt(g1, b), [Fork(g[a], g1[b])]);
    ForkIds(g[a], g1[b]);
  }

  lemma ForkIds(t: Tree, u: Tree)
    ensures ForestIds([Fork(t, u)]) == Ids(t) + Ids(u)
  {
    assert ForestIds([Fork(t, u)]) == Ids(Fork(t, u)) + ForestIds([]);
  }

  lemma MergePays(g: seq<Tree>, a: nat, b: nat, w: seq<nat>)
    requires AllBelow(g, |w|) && a < |g| && b < |g| - 1
    ensures AllBelow(MergedForest(g, a, b), |w|)
    ensures Sum(Inners(MergedForest(g, a, b), w))
         == Sum(Inners(g, w)) + Weights(g, w)[a] + RemoveAt(Weights(g, w), a)[b]
  {
    hide Inners, Weights, Sum;
    var g1 := RemoveAt(g, a);
    var g2 := RemoveAt(g1, b);
    var f := Fork(g[a], g1[b]);
    assert Inners(g1, w) == RemoveAt(Inners(g, w), a);
    SumRemoveAt(Inners(g, w), a);
    assert Inners(g2, w) == RemoveAt(Inners(g1, w), b);
    SumRemoveAt(Inners(g1, w), b);
    assert Inners(MergedForest(g, a, b), w) == Inners(g2, w) + [Inner(f, w)];
    SumSnoc(Inners(g2, w), Inner(f, w));
  }

  // Merging the two lightest trees.
  lemma MergeLightest(w: seq<nat>, g: seq<Tree>, acc: nat, a: nat, b: nat)
    requires Merging(w, g, acc) && |g| >= 2 && a < |g| && b < |g| - 1
    requires forall i :: 0 <= i < |g| ==> Weights(g, w)[a] <= Weights(g, w)[i]
    requires forall i :: 0 <= i < |g| - 1 ==> RemoveAt(Weights(g, w), a)[b] <= RemoveAt(Weights(g, w), a)[i]
    ensures Merging(w, MergedForest(g, a, b), acc + Weights(g, w)[a] + RemoveAt(Weights(g, w), a)[b])
  {
    hide Inners, Weights, Sum, ForestIds, Identity, Dominated, MergedForest, Merged, RemoveAt, AllBelow;
    MergeKeepsIds(g, a, b);
    MergePays(g, a, b, w);
    DominatedMerge(w, Weights(g, w), acc, a, b);
    MergedWeights(w, g, a, b);
  }

  lemma MergedWeights(w: seq<nat>, g: seq<Tree>, a: nat, b: nat)
    requires a < |g| && b < |g| - 1 && AllBelow(g, |w|) && AllBelow(MergedForest(g, a, b), |w|)
    ensures Weights(MergedForest(g, a, b), w) == Merged(Weights(g, w), a, b)
  {
    hide Weights;
  }

  // ---------------------------------------------------------------- the two queues

  // Leaves by ascending weight, equal weights by descending index.
  ghost predicate Before(w: seq<nat>, i: nat, j: nat)
    requires i < |w| && j < |w|
  {
    w[i] < w[j] || (w[i] == w[j] && i > j)
  }

  function InsertLeaf(order: seq<nat>, leaf: nat, w: seq<nat>): (r: seq<nat>)
    requires leaf < |w| && forall i :: 0 <= i < |order| ==> order[i] < leaf
    ensures |r| == |order| + 1
  {
    if order == [] || w[leaf] <= w[order[0]] then [leaf] + order
    else [order[0]] + InsertLeaf(order[1..], leaf, w)
  }

  ghost predicate Sorted(order: seq<nat>, w: seq<nat>) {
    && (forall i :: 0 <= i < |order| ==> order[i] < |w|)
    && (forall i, j :: 0 <= i < j < |order| ==> Before(w, order[i], order[j]))
  }

  lemma SortedCons(x: nat, rest: seq<nat>, w: seq<nat>)
    requires rest != [] && Sorted(rest, w) && x < |w| && Before(w, x, rest[0])
    ensures Sorted([x] + rest, w)
  {
    forall i | 0 < i < |rest| ensures Before(w, x, rest[i]) {
      assert Before(w, rest[0], rest[i]);
    }
  }

  lemma {:induction false} InsertLeafSorted(order: seq<nat>, leaf: nat, w: seq<nat>)
    requires leaf < |w| && forall i :: 0 <= i < |order| ==> order[i] < leaf
    requires Sorted(order, w)
    ensures var r := InsertLeaf(order, leaf, w);
      && multiset(r) == multiset(order) + multiset{leaf}
      && (forall i :: 0 <= i < |r| ==> r[i] <= leaf)
      && Sorted(r, w)
      && (r[0] == leaf || (order != [] && r[0] == order[0]))
  {
    hide Sorted;
    if order == [] || w[leaf] <= w[order[0]] {
      FrontSorted(leaf, order, w);
    } else {
      var rest := InsertLeaf(order[1..], leaf, w);
      TailSorted(order, w);
      InsertLeafSorted(order[1..], leaf, w);
      assert order == [order[0]] + order[1..];
      SortedCons(order[0], rest, w);
    }
  }

  lemma FrontSorted(leaf: nat, order: seq<nat>, w: seq<nat>)
    requires leaf < |w| && Sorted(order, w) && forall i :: 0 <= i < |order| ==> order[i] < leaf
    requires order == [] || w[leaf] <= w[order[0]]
    ensures Sorted([leaf] + order, w)
  {
    if order != [] { SortedCons(leaf, order, w); }
  }

  lemma TailSorted(order: seq<nat>, w: seq<nat>)
    requires order != [] && Sorted(order, w)
    ensures Sorted(order[1..], w) && order[0] < |w|
    ensures forall i :: 0 < i < |order| ==> order[i] < |w| && Before(w, order[0], order[i])
  {
  }

  lemma LeafInserted(r: seq<nat>, n: nat, w: seq<nat>)
    requires 0 < n <= |w| && |r| == n - 1 && multiset(r) == multiset(Identity(n - 1))
    requires (forall i :: 0 <= i < |r| ==> r[i] < n - 1) && Sorted(r, w)
    ensures multiset(InsertLeaf(r, n - 1, w)) == multiset(Identity(n))
    ensures var s := InsertLeaf(r, n - 1, w); Sorted(s, w) && forall i :: 0 <= i < n ==> s[i] < n
  {
    hide Sorted, InsertLeaf;
    assert Identity(n) == Identity(n - 1) + [n - 1];
    InsertLeafSorted(r, n - 1, w);
  }

  function SortedLeaves(w: seq<nat>, n: nat): (r: seq<nat>)
    requires n <= |w|
    ensures |r| == n && multiset(r) == multiset(Identity(n))
    ensures forall i :: 0 <= i < |r| ==> r[i] < n
    ensures Sorted(r, w)
  {
    if n == 0 then []
    else
      var r := SortedLeaves(w, n - 1);
      LeafInserted(r, n, w);
      InsertLeaf(r, n - 1, w)
  }

  ghost predicate Ascending(ids: seq<nat>, w: seq<nat>) {
    && (forall i :: 0 <= i < |ids| ==> ids[i] < |w|)
    && (forall i, j :: 0 <= i < j < |ids| ==> w[ids[i]] <= w[ids[j]])
  }

  lemma AscendingWithout(ids: seq<nat>, w: seq<nat>, k: nat)
    requires Ascending(ids, w) && k < |ids|
    ensures Ascending(RemoveAt(ids, k), w)
  {
  }

  // Both queues after node k of the forest lq + mq is taken.
  ghost function Without(lq: seq<nat>, mq: seq<nat>, k: nat): (seq<nat>, seq<nat>)
    requires k < |lq| + |mq|
  {
    if k < |lq| then (RemoveAt(lq, k), mq) else (lq, RemoveAt(mq, k - |lq|))
  }

  lemma WithoutForest(lq: seq<nat>, mq: seq<nat>, k: nat)
    requires k < |lq| + |mq|
    ensures Without(lq, mq, k).0 + Without(lq, mq, k).1 == RemoveAt(lq + mq, k)
  {
  }

  // Node k of the forest lq + mq is the one to merge next.
  ghost predicate Lightest(w: seq<nat>, lq: seq<nat>, mq: seq<nat>, k: nat) {
    var forest := lq + mq;
    && (forall i :: 0 <= i < |forest| ==> forest[i] < |w|)
    && k < |forest|
    && (forall i :: 0 <= i < |forest| ==> w[forest[k]] <= w[forest[i]])
    && (k < |lq| ==> forall i :: |lq| <= i < |forest| ==> w[forest[k]] < w[forest[i]])
    && (k >= |lq| ==> forall i :: k < i < |forest| ==> w[forest[k]] < w[forest[i]])
  }

  lemma TakenInside(w: seq<nat>, lq: seq<nat>, mq: seq<nat>, k: nat)
    requires Lightest(w, lq, mq, k)
    ensures k < |lq| + |mq|
  {
  }

  lemma LightestLeaf(w: seq<nat>, lq: seq<nat>, mq: seq<nat>)
    requires Ascending(lq, w) && Ascending(mq, w) && lq != []
    requires mq == [] || w[mq[0]] > w[lq[0]]
    ensures Lightest(w, lq, mq, 0)
  {
    assert forall i :: 0 <= i < |mq| ==> w[mq[0]] <= w[mq[i]];
  }

  lemma LightestMerged(w: seq<nat>, lq: seq<nat>, mq: seq<nat>, at: nat)
    requires Ascending(lq, w) && Ascending(mq, w) && at < |mq|
    requires lq == [] || w[mq[0]] <= w[lq[0]]
    requires w[mq[at]] == w[mq[0]]
    requires at + 1 < |mq| ==> w[mq[at + 1]] != w[mq[0]]
    ensures Lightest(w, lq, mq, |lq| + at)
  {
    assert forall i :: 0 <= i < |mq| ==> w[mq[0]] <= w[mq[i]];
    assert forall i :: 0 <= i < |lq| ==> w[lq[0]] <= w[lq[i]];
    assert forall i :: at + 1 < i < |mq| ==> w[mq[at + 1]] <= w[mq[i]];
  }

  // The two nodes Take may choose, and the queues it leaves.
  lemma TakenLeaf(w: seq<nat>, lq: seq<nat>, mq: seq<nat>)
    requires Ascending(lq, w) && Ascending(mq, w) && lq != []
    requires mq == [] || w[mq[0]] > w[lq[0]]
    ensures Lightest(w, lq, mq, 0) && (lq + mq)[0] == lq[0] && Without(lq, mq, 0) == (lq[1..], mq)
  {
    hide Ascending, Lightest;
    LightestLeaf(w, lq, mq);
    assert RemoveAt(lq, 0) == lq[1..];
  }

  lemma TakenMerged(w: seq<nat>, lq: seq<nat>, mq: seq<nat>, at: nat)
    requires Ascending(lq, w) && Ascending(mq, w) && at < |mq|
    requires lq == [] || w[mq[0]] <= w[lq[0]]
    requires w[mq[at]] == w[mq[0]]
    requires at + 1 < |mq| ==> w[mq[at + 1]] != w[mq[0]]
    ensures Lightest(w, lq, mq, |lq| + at) && (lq + mq)[|lq| + at] == mq[at]
    ensures Without(lq, mq, |lq| + at) == (lq, RemoveAt(mq, at))
  {
    hide Ascending, Lightest, RemoveAt;
    LightestMerged(w, lq, mq, at);
  }

  // Moving the elements from first to at up by one drops the one at at.
  lemma MovedUp(was: seq<nat>, now: seq<nat>, first: nat, at: nat, end: nat)
    requires |now| == |was| && first <= at < end <= |was|
    requires forall j :: first < j <= at ==> now[j] == was[j - 1]
    requires forall j :: at < j < end ==> now[j] == was[j]
    ensures now[first + 1..end] == RemoveAt(was[first..end], at - first)
  {
    var r := RemoveAt(was[first..end], at - first);
    forall j | 0 <= j < |r| ensures now[first + 1..end][j] == r[j] {
      assert now[first + 1..end][j] == now[first + 1 + j];
      assert r[j] == if j < at - first then was[first + j] else was[first + j + 1];
    }
  }

  // The queues' nodes where they are kept.
  lemma QueuesHold(w: seq<nat>, leaves: seq<nat>, lh: nat, merged: seq<nat>, mh: nat, mt: nat)
    requires lh <= |leaves| && mh <= mt <= |merged| && Ascending(leaves[lh..], w) && Ascending(merged[mh..mt], w)
    ensures forall i :: lh <= i < |leaves| ==> leaves[i] == leaves[lh..][i - lh] < |w|
    ensures forall i :: mh <= i < mt ==> merged[i] == merged[mh..mt][i - mh] < |w|
  {
  }

  class Queues {
    const leaves: seq<nat>
    const merged: array<nat>
    var lh: nat
    var mh: nat
    var mt: nat

    constructor (leaves: seq<nat>, room: nat)
      ensures this.leaves == leaves && fresh(merged) && merged.Length == room
      ensures lh == mh == mt == 0
    {
      this.leaves := leaves;
      merged := new nat[room];
      lh, mh, mt := 0, 0, 0;
    }

    ghost predicate Valid()
      reads this, merged
    {
      lh <= |leaves| && mh <= mt <= merged.Length
    }

    ghost function LeafQueue(): seq<nat>
      reads this
      requires lh <= |leaves|
    {
      leaves[lh..]
    }

    ghost function MergedQueue(): seq<nat>
      reads this, merged
      requires mh <= mt <= merged.Length
    {
      merged[mh..mt]
    }

    // The nodes still to be merged.
    ghost function Forest(): seq<nat>
      reads this, merged
      requires Valid()
    {
      LeafQueue() + MergedQueue()
    }

    // The end of the run of equal weights at the head of the merged queue.
    method RunEnd(weight: array<nat>) returns (e: nat)
      requires Valid() && mh < mt
      requires forall i :: mh <= i < mt ==> merged[i] < weight.Length
      ensures mh < e <= mt
      ensures forall i :: mh <= i < e ==> weight[merged[i]] == weight[merged[mh]]
      ensures e < mt ==> weight[merged[e]] != weight[merged[mh]]
    {
      e := mh + 1;
      while e < mt && weight[merged[e]] == weight[merged[mh]]
        invariant mh < e <= mt
        invariant forall i :: mh <= i < e ==> weight[merged[i]] == weight[merged[mh]]
      {
        e := e + 1;
      }
    }

    // Drops merged[at] by moving the nodes before it up by one.
    method Drop(at: nat)
      requires Valid() && mh <= at < mt
      modifies `mh, merged
      ensures Valid() && MergedQueue() == RemoveAt(old(MergedQueue()), at - old(mh))
    {
      ghost var was, first := merged[..], mh;
      var i := at;
      while i > mh
        modifies merged
        invariant mh <= i <= at
        invariant forall j :: 0 <= j <= i ==> merged[j] == was[j]
        invariant forall j :: i < j <= at ==> merged[j] == was[j - 1]
        invariant forall j :: at < j < merged.Length ==> merged[j] == was[j]
      {
        merged[i] := merged[i - 1];
        i := i - 1;
      }
      mh := mh + 1;
      MovedUp(was, merged[..], first, at, mt);
    }

    // Removes a lightest node. A tie between the queues takes the merged node, and
    // among merged nodes of that weight the newest.
    method Take(weight: array<nat>) returns (node: nat, ghost k: nat)
      requires Valid() && Forest() != [] && weight != merged
      requires Ascending(LeafQueue(), weight[..]) && Ascending(MergedQueue(), weight[..])
      modifies `lh, `mh, merged
      ensures Valid() && Lightest(weight[..], old(LeafQueue()), old(MergedQueue()), k)
      ensures node == old(Forest())[k]
      ensures (LeafQueue(), MergedQueue()) == Without(old(LeafQueue()), old(MergedQueue()), k)
    {
      hide Ascending, Lightest, Without, RemoveAt;
      ghost var lq, mq := LeafQueue(), MergedQueue();
      QueuesHold(weight[..], leaves, lh, merged[..], mh, mt);
      if mh < mt && (lh >= |leaves| || weight[merged[mh]] <= weight[leaves[lh]]) {
        var e := RunEnd(weight);
        node := merged[e - 1];
        k := |lq| + (e - 1 - mh);
        TakenMerged(weight[..], lq, mq, e - 1 - mh);
        Drop(e - 1);
      } else {
        node := leaves[lh];
        k := 0;
        TakenLeaf(weight[..], lq, mq);
        lh := lh + 1;
      }
    }

    // A merged node joins the end of its queue.
    method Push(node: nat)
      requires Valid() && mt < merged.Length
      modifies `mt, merged
      ensures Valid() && LeafQueue() == old(LeafQueue())
      ensures MergedQueue() == old(MergedQueue()) + [node]
    {
      merged[mt] := node;
      mt := mt + 1;
    }
  }

  // ---------------------------------------------------------------- merging

  // weight[i] is the weight of trees[i], for every node made so far.
  ghost predicate Pool(w: seq<nat>, weight: seq<nat>, trees: seq<Tree>) {
    && |trees| <= |weight|
    && AllBelow(trees, |w|)
    && (forall i :: 0 <= i < |trees| ==> weight[i] == Weight(trees[i], w))
  }

  // The queues between two merges, over n nodes made. lo and hi are the weights last
  // merged: nothing left is lighter than hi, and no merged node heavier than lo + hi.
  ghost predicate Queued(n: nat, weight: seq<nat>, lq: seq<nat>, mq: seq<nat>, lo: nat, hi: nat) {
    && lo <= hi && n <= |weight|
    && Ascending(lq, weight) && Ascending(mq, weight)
    && (forall i :: 0 <= i < |lq| ==> lq[i] < n && weight[lq[i]] >= hi)
    && (forall i :: 0 <= i < |mq| ==> mq[i] < n && hi <= weight[mq[i]] <= lo + hi)
  }

  lemma QueuedStart(w: seq<nat>, weight: seq<nat>, lq: seq<nat>)
    requires |w| <= |weight| && (forall i :: 0 <= i < |w| ==> weight[i] == w[i])
    requires Sorted(lq, w)
    ensures Queued(|w|, weight, lq, [], 0, 0)
  {
    assert forall i, j :: 0 <= i < j < |lq| ==> Before(w, lq[i], lq[j]);
  }

  lemma MergingStart(w: seq<nat>, order: seq<nat>)
    requires multiset(order) == multiset(Identity(|w|)) && |order| == |w|
    requires forall i :: 0 <= i < |order| ==> order[i] < |w|
    ensures Merging(w, Arranged(Singletons(|w|), order), 0)
  {
    var g := Arranged(Singletons(|w|), order);
    LeafIds(order, g);
    SumScale(Inners(g, w), Inners(g, w), 0);
    LeavesDominated(w, order);
    assert Weights(g, w) == Pick(w, order);
  }

  // Listing the leaves in another order loses nothing.
  lemma LeavesDominated(w: seq<nat>, order: seq<nat>)
    requires multiset(order) == multiset(Identity(|w|)) && |order| == |w|
    requires forall i :: 0 <= i < |order| ==> order[i] < |w|
    ensures Dominated(w, Pick(w, order), 0)
  {
    forall l: seq<nat>, limit: nat | |l| == |w| && Feasible(l, limit)
      ensures exists l': seq<nat>, limit': nat ::
        |l'| == |order| && Feasible(l', limit') && Cost(Pick(w, order), l') + 0 <= Cost(w, l)
    {
      PermutedCost(w, l, order);
      PermutedKraft(l, limit, order);
      var m := Pick(l, order);
      assert |m| == |order| && Feasible(m, limit) && Cost(Pick(w, order), m) + 0 <= Cost(w, l);
    }
  }

  lemma PermutedCost(w: seq<nat>, l: seq<nat>, order: seq<nat>)
    requires multiset(order) == multiset(Identity(|w|)) && |l| == |w|
    requires forall i :: 0 <= i < |order| ==> order[i] < |w|
    ensures Cost(Pick(w, order), Pick(l, order)) == Cost(w, l)
  {
    SumPermuted(Products(w, l), order);
    assert PickInt(Products(w, l), order) == Products(Pick(w, order), Pick(l, order));
  }

  lemma PermutedKraft(l: seq<nat>, limit: nat, order: seq<nat>)
    requires multiset(order) == multiset(Identity(|l|)) && Within(l, limit)
    requires forall i :: 0 <= i < |order| ==> order[i] < |l|
    ensures Within(Pick(l, order), limit) && Kraft(Pick(l, order), limit) == Kraft(l, limit)
  {
    SumPermuted(Shares(l, limit), order);
    assert PickInt(Shares(l, limit), order) == Shares(Pick(l, order), limit);
  }

  // What two takes leave, seen as trees.
  lemma ArrangedMerge(trees: seq<Tree>, f: seq<nat>, ka: nat, kb: nat, f1: seq<nat>, f2: seq<nat>)
    requires forall i :: 0 <= i < |f| ==> f[i] < |trees|
    requires ka < |f| && kb < |f| - 1 && f1 == RemoveAt(f, ka) && f2 == RemoveAt(f1, kb)
    ensures forall i :: 0 <= i < |f2| ==> f2[i] < |trees|
    ensures Arranged(trees + [Fork(trees[f[ka]], trees[f1[kb]])], f2 + [|trees|])
         == MergedForest(Arranged(trees, f), ka, kb)
  {
    hide Arranged, MergedForest, RemoveAt;
    var g := Arranged(trees, f);
    ArrangedRemoveAt(trees, f, ka, f1);
    ArrangedRemoveAt(trees, f1, kb, f2);
    MergedForestIs(g, ka, kb);
    ArrangedPush(trees, f2, Fork(trees[f[ka]], trees[f1[kb]]));
  }

  lemma ArrangedRemoveAt(trees: seq<Tree>, f: seq<nat>, k: nat, f': seq<nat>)
    requires k < |f| && (forall i :: 0 <= i < |f| ==> f[i] < |trees|) && f' == RemoveAt(f, k)
    ensures |f'| == |f| - 1 && forall i :: 0 <= i < |f'| ==> f'[i] < |trees|
    ensures Arranged(trees, f') == RemoveAt(Arranged(trees, f), k)
  {
    hide Arranged;
  }

  lemma MergedForestIs(g: seq<Tree>, a: nat, b: nat)
    requires a < |g| && b < |g| - 1
    ensures MergedForest(g, a, b) == RemoveAt(RemoveAt(g, a), b) + [Fork(g[a], RemoveAt(g, a)[b])]
  {
  }

  lemma ArrangedPush(trees: seq<Tree>, f: seq<nat>, t: Tree)
    requires forall i :: 0 <= i < |f| ==> f[i] < |trees|
    ensures forall i :: 0 <= i < |f| + 1 ==> (f + [|trees|])[i] < |trees + [t]|
    ensures Arranged(trees + [t], f + [|trees|]) == Arranged(trees, f) + [t]
  {
    hide Arranged;
  }

  lemma PoolStep(w: seq<nat>, weight: seq<nat>, trees: seq<Tree>, a: nat, b: nat)
    requires Pool(w, weight, trees) && |trees| < |weight| && a < |trees| && b < |trees|
    ensures Pool(w, weight[|trees| := weight[a] + weight[b]], trees + [Fork(trees[a], trees[b])])
  {
  }

  lemma WithoutBounds(n: nat, w: seq<nat>, lq: seq<nat>, mq: seq<nat>, k: nat, lo: nat, hi: nat)
    requires Queued(n, w, lq, mq, lo, hi) && Lightest(w, lq, mq, k)
    ensures var (lq', mq') := Without(lq, mq, k);
      && Queued(n, w, lq', mq', lo, hi)
      && (lq + mq)[k] < n && w[(lq + mq)[k]] >= hi
      && (forall i :: 0 <= i < |lq'| ==> w[lq'[i]] >= w[(lq + mq)[k]])
      && (forall i :: 0 <= i < |mq'| ==> w[mq'[i]] >= w[(lq + mq)[k]])
  {
    if k < |lq| { AscendingWithout(lq, w, k); } else { AscendingWithout(mq, w, k - |lq|); }
    var f := lq + mq;
    assert forall i :: 0 <= i < |lq| ==> f[i] == lq[i];
    assert forall i :: 0 <= i < |mq| ==> f[|lq| + i] == mq[i];
  }

  lemma PushMerged(n: nat, w: seq<nat>, lq: seq<nat>, mq: seq<nat>, lo: nat, hi: nat, x: nat, y: nat)
    requires Queued(n, w, lq, mq, lo, hi) && n < |w| && hi <= x <= y
    requires forall i :: 0 <= i < |lq| ==> w[lq[i]] >= y
    requires forall i :: 0 <= i < |mq| ==> w[mq[i]] >= y
    ensures Queued(n + 1, w[n := x + y], lq, mq + [n], x, y)
  {
  }

  lemma GrowQueues(n: nat, w: seq<nat>, lq: seq<nat>, mq: seq<nat>, lo: nat, hi: nat, ka: nat, kb: nat)
    requires Queued(n, w, lq, mq, lo, hi) && n < |w|
    requires Lightest(w, lq, mq, ka)
    requires Lightest(w, Without(lq, mq, ka).0, Without(lq, mq, ka).1, kb)
    ensures
      var (lq1, mq1) := Without(lq, mq, ka);
      var (lq2, mq2) := Without(lq1, mq1, kb);
      var a, b := (lq + mq)[ka], (lq1 + mq1)[kb];
      a < n && b < n && Queued(n + 1, w[n := w[a] + w[b]], lq2, mq2 + [n], w[a], w[b])
  {
    hide Queued;
    var (lq1, mq1) := Without(lq, mq, ka);
    var (lq2, mq2) := Without(lq1, mq1, kb);
    WithoutBounds(n, w, lq, mq, ka, lo, hi);
    WithoutBounds(n, w, lq1, mq1, kb, lo, hi);
    assert w[(lq + mq)[ka]] <= w[(lq1 + mq1)[kb]];
    PushMerged(n, w, lq2, mq2, lo, hi, w[(lq + mq)[ka]], w[(lq1 + mq1)[kb]]);
  }

  lemma GrowForest(w: seq<nat>, weight: seq<nat>, trees: seq<Tree>, lq: seq<nat>, mq: seq<nat>, acc: nat,
                   ka: nat, kb: nat, lq1: seq<nat>, mq1: seq<nat>, f2: seq<nat>)
    requires Pool(w, weight, trees) && ka < |lq + mq| && kb < |lq1 + mq1|
    requires lq1 + mq1 == RemoveAt(lq + mq, ka) && f2 == RemoveAt(lq1 + mq1, kb)
    requires forall i :: 0 <= i < |lq + mq| ==> (lq + mq)[i] < |trees|
    requires Lightest(weight, lq, mq, ka) && Lightest(weight, lq1, mq1, kb)
    requires Merging(w, Arranged(trees, lq + mq), acc)
    ensures forall i :: 0 <= i < |f2| ==> f2[i] < |trees|
    ensures Merging(w, Arranged(trees + [Fork(trees[(lq + mq)[ka]], trees[(lq1 + mq1)[kb]])], f2 + [|trees|]),
                    acc + weight[(lq + mq)[ka]] + weight[(lq1 + mq1)[kb]])
  {
    hide Merging, Pool;
    var f, f1 := lq + mq, lq1 + mq1;
    ArrangedMerge(trees, f, ka, kb, f1, f2);
    LightestTrees(w, weight, trees, f, ka, kb);
    MergeLightest(w, Arranged(trees, f), acc, ka, kb);
  }

  lemma LightestTrees(w: seq<nat>, weight: seq<nat>, trees: seq<Tree>, f: seq<nat>, ka: nat, kb: nat)
    requires Pool(w, weight, trees) && ka < |f| && kb < |f| - 1
    requires forall i :: 0 <= i < |f| ==> f[i] < |trees|
    requires forall i :: 0 <= i < |f| ==> weight[f[ka]] <= weight[f[i]]
    requires forall i :: 0 <= i < |f| - 1 ==> weight[RemoveAt(f, ka)[kb]] <= weight[RemoveAt(f, ka)[i]]
    ensures AllBelow(Arranged(trees, f), |w|)
    ensures var ws := Weights(Arranged(trees, f), w);
      && ws[ka] == weight[f[ka]] && RemoveAt(ws, ka)[kb] == weight[RemoveAt(f, ka)[kb]]
      && (forall i :: 0 <= i < |f| ==> ws[ka] <= ws[i])
      && (forall i :: 0 <= i < |f| - 1 ==> RemoveAt(ws, ka)[kb] <= RemoveAt(ws, ka)[i])
  {
    var ws := Weights(Arranged(trees, f), w);
    assert forall i :: 0 <= i < |f| ==> ws[i] == weight[f[i]];
    var f1, ws1 := RemoveAt(f, ka), RemoveAt(ws, ka);
    forall i | 0 <= i < |f1| ensures ws1[i] == weight[f1[i]] {
      assert ws1[i] == ws[if i < ka then i else i + 1];
    }
  }

  // Every node of the pool is a leaf or joins two earlier nodes.
  ghost predicate Grown(n: nat, child: seq<(nat, nat)>, trees: seq<Tree>) {
    && n <= |trees| <= |child|
    && (forall i :: 0 <= i < n ==> trees[i] == Leaf(i))
    && (forall i :: n <= i < |trees| ==>
          child[i].0 < i && child[i].1 < i && trees[i] == Fork(trees[child[i].0], trees[child[i].1]))
  }

  // Everything known between two merges, |trees| nodes having been made.
  ghost predicate MergeState(w: seq<nat>, weight: seq<nat>, child: seq<(nat, nat)>, lq: seq<nat>, mq: seq<nat>,
                             trees: seq<Tree>, acc: nat, lo: nat, hi: nat) {
    && |w| <= |trees| <= |weight| == |child| == 2 * |w| - 1
    && |lq| + |mq| == 2 * |w| - |trees|
    && Queued(|trees|, weight, lq, mq, lo, hi)
    && Pool(w, weight, trees)
    && Grown(|w|, child, trees)
    && (forall i :: 0 <= i < |lq + mq| ==> (lq + mq)[i] < |trees|)
    && Merging(w, Arranged(trees, lq + mq), acc)
    && (|trees| > |w| ==> |mq| > 0 && mq[|mq| - 1] == |trees| - 1)
  }

  lemma MergeStateStart(w: seq<nat>, weight: seq<nat>, child: seq<(nat, nat)>, lq: seq<nat>)
    requires |w| >= 1 && |weight| == |child| == 2 * |w| - 1
    requires forall i :: 0 <= i < |w| ==> weight[i] == w[i]
    requires Sorted(lq, w) && multiset(lq) == multiset(Identity(|w|)) && |lq| == |w|
    ensures MergeState(w, weight, child, lq, [], Singletons(|w|), 0, 0, 0)
  {
    QueuedStart(w, weight, lq);
    MergingStart(w, lq);
    assert lq + [] == lq;
  }

  // What Take needs to know of the queues.
  lemma MergeStateQueues(w: seq<nat>, weight: seq<nat>, child: seq<(nat, nat)>, lq: seq<nat>, mq: seq<nat>,
                         trees: seq<Tree>, acc: nat, lo: nat, hi: nat)
    requires MergeState(w, weight, child, lq, mq, trees, acc, lo, hi) && |trees| < |weight|
    ensures |lq| + |mq| >= 2
    ensures Ascending(lq, weight) && Ascending(mq, weight)
  {
  }

  // The same after a node is taken.
  lemma QueuesAfterTake(w: seq<nat>, weight: seq<nat>, child: seq<(nat, nat)>, lq: seq<nat>, mq: seq<nat>,
                        trees: seq<Tree>, acc: nat, lo: nat, hi: nat, k: nat, lq1: seq<nat>, mq1: seq<nat>)
    requires MergeState(w, weight, child, lq, mq, trees, acc, lo, hi) && |trees| < |weight|
    requires k < |lq| + |mq| && (lq1, mq1) == Without(lq, mq, k)
    ensures |lq1| + |mq1| >= 1
    ensures Ascending(lq1, weight) && Ascending(mq1, weight)
  {
    hide Merging, Pool, Grown;
    if k < |lq| { AscendingWithout(lq, weight, k); } else { AscendingWithout(mq, weight, k - |lq|); }
  }

  lemma MergeStateStep(w: seq<nat>, weight: seq<nat>, child: seq<(nat, nat)>, lq: seq<nat>, mq: seq<nat>,
                       trees: seq<Tree>, acc: nat, lo: nat, hi: nat, ka: nat, kb: nat,
                       lq1: seq<nat>, mq1: seq<nat>, lq2: seq<nat>, mq2: seq<nat>, a: nat, b: nat)
    requires MergeState(w, weight, child, lq, mq, trees, acc, lo, hi) && |trees| < |weight|
    requires Lightest(weight, lq, mq, ka) && (lq1, mq1) == Without(lq, mq, ka) && a == (lq + mq)[ka]
    requires Lightest(weight, lq1, mq1, kb) && (lq2, mq2) == Without(lq1, mq1, kb) && b == (lq1 + mq1)[kb]
    ensures a < |trees| && b < |trees|
    ensures MergeState(w, weight[|trees| := weight[a] + weight[b]], child[|trees| := (a, b)], lq2, mq2 + [|trees|],
                       trees + [Fork(trees[a], trees[b])], acc + weight[a] + weight[b], weight[a], weight[b])
  {
    hide Merging, Queued, Pool, Grown, Without;
    WithoutForest(lq, mq, ka);
    WithoutForest(lq1, mq1, kb);
    GrowQueues(|trees|, weight, lq, mq, lo, hi, ka, kb);
    PoolStep(w, weight, trees, a, b);
    GrowForest(w, weight, trees, lq, mq, acc, ka, kb, lq1, mq1, lq2 + mq2);
    LastPushed(lq2, mq2, |trees|);
    GrownStep(|w|, child, trees, a, b);
  }

  lemma LastPushed(lq: seq<nat>, mq: seq<nat>, x: nat)
    ensures lq + (mq + [x]) == lq + mq + [x] && |mq + [x]| > 0 && (mq + [x])[|mq + [x]| - 1] == x
  {
  }

  lemma GrownStep(n: nat, child: seq<(nat, nat)>, trees: seq<Tree>, a: nat, b: nat)
    requires Grown(n, child, trees) && |trees| < |child| && a < |trees| && b < |trees|
    ensures Grown(n, child[|trees| := (a, b)], trees + [Fork(trees[a], trees[b])])
  {
  }

  lemma MergingEnd(w: seq<nat>, g: seq<Tree>, acc: nat)
    requires Merging(w, g, acc) && |g| == 1
    ensures LeavesBelow(g[0], |w|) && Ids(g[0]) == multiset(Identity(|w|))
    ensures forall l: seq<nat>, limit: nat :: |l| == |w| && Feasible(l, limit) ==> Inner(g[0], w) <= Cost(w, l)
  {
    assert g == [g[0]] && ForestIds(g) == Ids(g[0]) + ForestIds(g[1..]);
    assert Inners(g, w) == [Inner(g[0], w)];
    assert Sum(Inners(g, w)) == Inner(g[0], w) by { SumSnoc([], Inner(g[0], w)); assert [] + [Inner(g[0], w)] == [Inner(g[0], w)]; }
    forall l: seq<nat>, limit: nat | |l| == |w| && Feasible(l, limit)
      ensures Inner(g[0], w) <= Cost(w, l)
    {
      DominatedEnd(w, Weights(g, w), acc, l, limit);
    }
  }

  // The leaves' weights, and the queues before any merge.
  method StartMerging(w: seq<nat>) returns (weight: array<nat>, child: array<(nat, nat)>, q: Queues)
    requires |w| >= 1
    ensures fresh(weight) && fresh(child) && fresh(q) && fresh(q.merged) && weight != q.merged
    ensures q.Valid() && q.mt == 0 && q.merged.Length == |w| && weight.Length == child.Length == 2 * |w| - 1
    ensures MergeState(w, weight[..], child[..], q.LeafQueue(), q.MergedQueue(), Singletons(|w|), 0, 0, 0)
  {
    hide MergeState, Sorted, Identity;
    var n := |w|;
    weight := new nat[2 * n - 1];
    child := new (nat, nat)[2 * n - 1];
    for i := 0 to n
      invariant forall j :: 0 <= j < i ==> weight[j] == w[j]
    {
      weight[i] := w[i];
    }
    q := new Queues(SortedLeaves(w, n), n);
    assert q.LeafQueue() == q.leaves && q.MergedQueue() == [];
    MergeStateStart(w, weight[..], child[..], q.leaves);
  }

  // All nodes made: one tree is left, the last one made.
  lemma MergeStateEnd(w: seq<nat>, weight: seq<nat>, child: seq<(nat, nat)>, lq: seq<nat>, mq: seq<nat>,
                      trees: seq<Tree>, acc: nat, lo: nat, hi: nat)
    requires |w| >= 2 && |trees| == 2 * |w| - 1 && MergeState(w, weight, child, lq, mq, trees, acc, lo, hi)
    ensures Grown(|w|, child, trees) && LeavesBelow(trees[2 * |w| - 2], |w|)
    ensures Ids(trees[2 * |w| - 2]) == multiset(Identity(|w|))
    ensures forall l: seq<nat>, limit: nat :: |l| == |w| && Feasible(l, limit) ==>
      Inner(trees[2 * |w| - 2], w) <= Cost(w, l)
  {
    hide Merging, Queued, Pool, Grown, Identity, Ids, Inner, Feasible, Cost, Arranged;
    assert lq + mq == [2 * |w| - 2];
    assert Arranged(trees, lq + mq)[0] == trees[2 * |w| - 2];
    MergingEnd(w, Arranged(trees, lq + mq), acc);
  }

  // The merging loop. The last node made is the root.
  method BuildTree(w: seq<nat>) returns (child: array<(nat, nat)>, ghost trees: seq<Tree>)
    requires |w| >= 2
    ensures fresh(child) && |trees| == child.Length == 2 * |w| - 1
    ensures Grown(|w|, child[..], trees)
    ensures LeavesBelow(trees[2 * |w| - 2], |w|)
    ensures Ids(trees[2 * |w| - 2]) == multiset(Identity(|w|))
    ensures forall l: seq<nat>, limit: nat :: |l| == |w| && Feasible(l, limit) ==>
      Inner(trees[2 * |w| - 2], w) <= Cost(w, l)
  {
    hide MergeState, Grown, LeavesBelow, Ids, Identity, Inner, Feasible, Cost;
    var n := |w|;
    var weight, c, q := StartMerging(w);
    child := c;
    trees := Singletons(n);
    ghost var acc, lo, hi := 0, 0, 0;
    var next := n;
    while next < 2 * n - 1
      modifies weight, child, q, q.merged
      invariant n <= next <= 2 * n - 1 == weight.Length == child.Length
      invariant q.Valid() && q.mt == next - n && |trees| == next
      invariant MergeState(w, weight[..], child[..], q.LeafQueue(), q.MergedQueue(), trees, acc, lo, hi)
    {
      acc, lo, hi, trees := MergeTwo(w, weight, child, q, next, trees, acc, lo, hi);
      next := next + 1;
    }
    MergeStateEnd(w, weight[..], child[..], q.LeafQueue(), q.MergedQueue(), trees, acc, lo, hi);
  }

  // The two lightest nodes leave the queues; what will hold once their parent has joined.
  method TakeTwo(ghost w: seq<nat>, weight: array<nat>, ghost cs: seq<(nat, nat)>, q: Queues,
                 ghost trees: seq<Tree>, ghost acc: nat, ghost lo: nat, ghost hi: nat)
    returns (a: nat, b: nat)
    requires weight != q.merged && q.Valid() && |trees| < weight.Length == |cs|
    requires MergeState(w, weight[..], cs, q.LeafQueue(), q.MergedQueue(), trees, acc, lo, hi)
    modifies q`lh, q`mh, q.merged
    ensures q.Valid() && weight[..] == old(weight[..]) && a < |trees| && b < |trees|
    ensures MergeState(w, weight[..][|trees| := weight[a] + weight[b]], cs[|trees| := (a, b)],
                       q.LeafQueue(), q.MergedQueue() + [|trees|], trees + [Fork(trees[a], trees[b])],
                       acc + weight[a] + weight[b], weight[a], weight[b])
  {
    hide MergeState, Lightest, Ascending, Without;
    ghost var lq, mq, ws := q.LeafQueue(), q.MergedQueue(), weight[..];
    MergeStateQueues(w, ws, cs, lq, mq, trees, acc, lo, hi);
    ghost var ka, kb;
    a, ka := q.Take(weight);
    ghost var lq1, mq1 := q.LeafQueue(), q.MergedQueue();
    assert weight[..] == ws;
    TakenInside(ws, lq, mq, ka);
    QueuesAfterTake(w, ws, cs, lq, mq, trees, acc, lo, hi, ka, lq1, mq1);
    b, kb := q.Take(weight);
    assert weight[..] == ws;
    MergeStateStep(w, ws, cs, lq, mq, trees, acc, lo, hi, ka, kb, lq1, mq1, q.LeafQueue(), q.MergedQueue(), a, b);
  }

  // One round: the two lightest nodes become the children of node next.
  method MergeTwo(ghost w: seq<nat>, weight: array<nat>, child: array<(nat, nat)>, q: Queues, next: nat,
                  ghost trees: seq<Tree>, ghost acc: nat, ghost lo: nat, ghost hi: nat)
    returns (ghost acc': nat, ghost lo': nat, ghost hi': nat, ghost trees': seq<Tree>)
    requires weight != q.merged && q.Valid() && q.mt < q.merged.Length
    requires next == |trees| < weight.Length == child.Length
    requires MergeState(w, weight[..], child[..], q.LeafQueue(), q.MergedQueue(), trees, acc, lo, hi)
    modifies weight, child, q`lh, q`mh, q`mt, q.merged
    ensures q.Valid() && q.mt == old(q.mt) + 1 && |trees'| == next + 1
    ensures MergeState(w, weight[..], child[..], q.LeafQueue(), q.MergedQueue(), trees', acc', lo', hi')
  {
    hide MergeState;
    ghost var ws, cs := weight[..], child[..];
    var a, b := TakeTwo(w, weight, cs, q, trees, acc, lo, hi);
    weight[next] := weight[a] + weight[b];
    child[next] := (a, b);
    assert weight[..] == ws[next := ws[a] + ws[b]] && child[..] == cs[next := (a, b)];
    q.Push(next);
    acc', lo', hi' := acc + ws[a] + ws[b], ws[a], ws[b];
    trees' := trees + [Fork(trees[a], trees[b])];
  }

  // ---------------------------------------------------------------- reading the depths

  ghost function StackTrees(stack: seq<(nat, nat)>, trees: seq<Tree>): (g: seq<Tree>)
    requires forall i :: 0 <= i < |stack| ==> stack[i].0 < |trees|
    ensures |g| == |stack| && forall i :: 0 <= i < |g| ==> g[i] == trees[stack[i].0]
  {
    if stack == [] then []
    else StackTrees(stack[..|stack| - 1], trees) + [trees[stack[|stack| - 1].0]]
  }

  // Nodes still to be visited.
  ghost function StackNodes(g: seq<Tree>): nat {
    if g == [] then 0 else
      LeafSeqCount(g[|g| - 1]);
      StackNodes(g[..|g| - 1]) + 2 * LeafCount(g[|g| - 1]) - 1
  }

  lemma {:induction false} ForestIdsCount(g: seq<Tree>)
    ensures |ForestIds(g)| >= |g|
  {
    if g != [] {
      LeafSeqCount(g[0]);
      ForestIdsCount(g[1..]);
    }
  }

  lemma ForestIdsSnoc(g: seq<Tree>, t: Tree)
    ensures ForestIds(g + [t]) == ForestIds(g) + Ids(t)
  {
    ForestIdsAppend(g, [t]);
    assert ForestIds([t]) == Ids(t) + ForestIds([]);
  }

  // Depths that agree with the settled ones and fit the trees still on the stack
  // are the depths of the whole tree.
  ghost predicate Completes(n: nat, done: set<nat>, lens: seq<nat>, stack: seq<(nat, nat)>, g: seq<Tree>, root: Tree)
    requires |g| == |stack|
  {
    forall l: seq<nat> ::
      && |l| == n <= |lens|
      && (forall id :: id in done && id < n ==> l[id] == lens[id])
      && (forall i :: 0 <= i < |g| ==> DepthsAre(g[i], stack[i].1, l))
      ==> DepthsAre(root, 0, l)
  }

  // The walk after some steps.
  ghost predicate Walking(n: nat, lens: seq<nat>, stack: seq<(nat, nat)>, trees: seq<Tree>, done: set<nat>, root: Tree) {
    && |lens| == n
    && (forall i :: 0 <= i < |stack| ==> stack[i].0 < |trees|)
    && ForestIds(StackTrees(stack, trees)) + multiset(done) == multiset(Identity(n))
    && (forall id :: id in done ==> id < n && lens[id] > 0)
    && Completes(n, done, lens, stack, StackTrees(stack, trees), root)
  }

  lemma WalkStart(n: nat, lens: seq<nat>, trees: seq<Tree>, r: nat)
    requires |lens| == n && r < |trees| && Ids(trees[r]) == multiset(Identity(n))
    ensures Walking(n, lens, [(r, 0)], trees, {}, trees[r])
  {
    var g := StackTrees([(r, 0)], trees);
    assert g == [trees[r]] && g == [] + [trees[r]];
    ForestIdsSnoc([], trees[r]);
  }

  lemma CompletesLeaf(n: nat, done: set<nat>, lens: seq<nat>, stack: seq<(nat, nat)>, g: seq<Tree>, root: Tree,
                      id: nat, d: nat)
    requires |g| == |stack| && id < n == |lens| && id !in done
    requires Completes(n, done, lens, stack + [(id, d)], g + [Leaf(id)], root)
    ensures Completes(n, done + {id}, lens[id := d], stack, g, root)
  {
    forall l: seq<nat> |
      && |l| == n
      && (forall i :: i in done + {id} && i < n ==> l[i] == lens[id := d][i])
      && (forall i :: 0 <= i < |g| ==> DepthsAre(g[i], stack[i].1, l))
      ensures DepthsAre(root, 0, l)
    {
      assert forall i :: i in done && i < n ==> i in done + {id} && l[i] == lens[i];
      assert id in done + {id} && l[id] == d;
      assert forall i :: 0 <= i < |g| + 1 ==> DepthsAre((g + [Leaf(id)])[i], (stack + [(id, d)])[i].1, l);
    }
  }

  lemma CompletesFork(n: nat, done: set<nat>, lens: seq<nat>, stack: seq<(nat, nat)>, g: seq<Tree>, root: Tree,
                      ta: Tree, tb: Tree, id: nat, a: nat, b: nat, d: nat)
    requires |g| == |stack|
    requires Completes(n, done, lens, stack + [(id, d)], g + [Fork(ta, tb)], root)
    ensures Completes(n, done, lens, stack + [(a, d + 1)] + [(b, d + 1)], g + [ta] + [tb], root)
  {
    var stack', g' := stack + [(a, d + 1)] + [(b, d + 1)], g + [ta] + [tb];
    forall l: seq<nat> |
      && |l| == n <= |lens|
      && (forall i :: i in done && i < n ==> l[i] == lens[i])
      && (forall i :: 0 <= i < |g'| ==> DepthsAre(g'[i], stack'[i].1, l))
      ensures DepthsAre(root, 0, l)
    {
      assert DepthsAre(g'[|g|], stack'[|g|].1, l) && DepthsAre(g'[|g| + 1], stack'[|g| + 1].1, l);
      assert forall i :: 0 <= i < |g| ==> g'[i] == g[i] && stack'[i] == stack[i];
      assert forall i :: 0 <= i < |g| + 1 ==> DepthsAre((g + [Fork(ta, tb)])[i], (stack + [(id, d)])[i].1, l);
    }
  }

  lemma WalkLeaf(n: nat, lens: seq<nat>, stack: seq<(nat, nat)>, trees: seq<Tree>, done: set<nat>, root: Tree,
                 id: nat, d: nat)
    requires Walking(n, lens, stack + [(id, d)], trees, done, root)
    requires trees[id] == Leaf(id) && d > 0
    ensures id < n && id !in done
    ensures Walking(n, lens[id := d], stack, trees, done + {id}, root)
  {
    hide Completes, StackTrees, ForestIds;
    StackTreesSnoc(stack, trees, id, d);
    var g := StackTrees(stack, trees);
    ForestIdsSnoc(g, Leaf(id));
    assert id in multiset(Identity(n));
    IdentityOnce(n, id);
    assert multiset(done + {id}) == multiset(done) + multiset{id};
    CompletesLeaf(n, done, lens, stack, g, root, id, d);
  }

  lemma StackTreesSnoc(stack: seq<(nat, nat)>, trees: seq<Tree>, id: nat, d: nat)
    requires forall i :: 0 <= i < |stack + [(id, d)]| ==> (stack + [(id, d)])[i].0 < |trees|
    ensures id < |trees| && forall i :: 0 <= i < |stack| ==> stack[i].0 < |trees|
    ensures StackTrees(stack + [(id, d)], trees) == StackTrees(stack, trees) + [trees[id]]
  {
    var all := stack + [(id, d)];
    assert all[|stack|] == (id, d) && all[..|stack|] == stack;
    assert forall i :: 0 <= i < |stack| ==> all[i] == stack[i];
  }

  lemma {:induction false} IdentityOnce(n: nat, id: nat)
    ensures multiset(Identity(n))[id] <= 1
  {
    if n > 0 {
      IdentityOnce(n - 1, id);
      assert Identity(n) == Identity(n - 1) + [n - 1];
      if id == n - 1 { assert id !in Identity(n - 1); }
    }
  }

  lemma WalkFork(n: nat, lens: seq<nat>, stack: seq<(nat, nat)>, trees: seq<Tree>, done: set<nat>, root: Tree,
                 id: nat, d: nat, a: nat, b: nat)
    requires Walking(n, lens, stack + [(id, d)], trees, done, root)
    requires a < |trees| && b < |trees| && trees[id] == Fork(trees[a], trees[b])
    ensures Walking(n, lens, stack + [(a, d + 1)] + [(b, d + 1)], trees, done, root)
  {
    hide Completes, StackTrees, ForestIds, Identity;
    StackTreesSnoc(stack, trees, id, d);
    assert forall i :: 0 <= i < |stack| ==> (stack + [(id, d)])[i] == stack[i];
    StackTreesSnoc(stack, trees, a, d + 1);
    StackTreesSnoc(stack + [(a, d + 1)], trees, b, d + 1);
    var g := StackTrees(stack, trees);
    ForestIdsSnoc(g, trees[id]);
    ForestIdsSnoc(g, trees[a]);
    ForestIdsSnoc(g + [trees[a]], trees[b]);
    CompletesFork(n, done, lens, stack, g, root, trees[a], trees[b], id, a, b, d);
  }

  lemma WalkEnd(n: nat, lens: seq<nat>, trees: seq<Tree>, done: set<nat>, root: Tree)
    requires Walking(n, lens, [], trees, done, root)
    ensures DepthsAre(root, 0, lens) && forall id :: 0 <= id < n ==> lens[id] > 0
  {
    assert StackTrees([], trees) == [];
    forall id | 0 <= id < n ensures id in done {
      assert Identity(n)[id] == id && id in multiset(Identity(n));
    }
  }

  lemma PickUpdate(s: seq<nat>, at: seq<nat>, k: nat, x: nat)
    requires forall i :: 0 <= i < |at| ==> at[i] < |s|
    requires forall i, j :: 0 <= i < j < |at| ==> at[i] < at[j]
    requires k < |at|
    ensures Pick(s[at[k] := x], at) == Pick(s, at)[k := x]
  {
    assert forall i :: 0 <= i < |at| && i != k ==> at[i] != at[k];
  }

  lemma WalkRoom(n: nat, lens: seq<nat>, stack: seq<(nat, nat)>, trees: seq<Tree>, done: set<nat>, root: Tree)
    requires Walking(n, lens, stack, trees, done, root)
    ensures |stack| <= n && forall i :: 0 <= i < |stack| ==> stack[i].0 < |trees|
  {
    var g := StackTrees(stack, trees);
    ForestIdsCount(g);
    assert |ForestIds(g) + multiset(done)| == |ForestIds(g)| + |done|;
    IdentityCount(n);
  }

  lemma IdentityCount(n: nat)
    ensures |multiset(Identity(n))| == n
  {
  }

  lemma GrownAt(n: nat, child: seq<(nat, nat)>, trees: seq<Tree>, i: nat)
    requires Grown(n, child, trees) && i < |trees|
    ensures i < n ==> trees[i] == Leaf(i)
    ensures i >= n ==> child[i].0 < i && child[i].1 < i
    ensures i >= n ==> trees[i] == Fork(trees[child[i].0], trees[child[i].1])
  {
  }

  // Everything known between two steps of the walk: depths only of leaves already met, and
  // depth zero only for the root.
  ghost predicate WalkState(used: seq<nat>, alphabet: nat, lengths: seq<nat>, stack: seq<(nat, nat)>, trees: seq<Tree>,
                            done: set<nat>) {
    && |used| >= 2 && |trees| == 2 * |used| - 1 && |lengths| == alphabet && |stack| <= |used|
    && (forall i :: 0 <= i < |used| ==> used[i] < alphabet)
    && (forall i, j :: 0 <= i < j < |used| ==> used[i] < used[j])
    && Walking(|used|, Pick(lengths, used), stack, trees, done, trees[2 * |used| - 2])
    && (forall i :: 0 <= i < |stack| && stack[i].1 == 0 ==> stack[i].0 == 2 * |used| - 2)
    && (forall s :: 0 <= s < alphabet && s !in used ==> lengths[s] == 0)
  }

  lemma WalkStateTop(used: seq<nat>, alphabet: nat, lengths: seq<nat>, below: seq<(nat, nat)>, trees: seq<Tree>,
                     done: set<nat>, id: nat, d: nat)
    requires WalkState(used, alphabet, lengths, below + [(id, d)], trees, done)
    ensures |below| < |used| && id < |trees| && forall i :: 0 <= i < |below| ==> below[i].0 < |trees|
    ensures id < |used| ==> d > 0 && used[id] < |lengths|
  {
    hide StackTrees, ForestIds, Identity, Pick, Completes;
    var all := below + [(id, d)];
    assert all[|below|] == (id, d) && forall i :: 0 <= i < |below| ==> all[i] == below[i];
  }

  lemma WalkStateLeaf(used: seq<nat>, alphabet: nat, lengths: seq<nat>, below: seq<(nat, nat)>, trees: seq<Tree>,
                      done: set<nat>, id: nat, d: nat)
    requires WalkState(used, alphabet, lengths, below + [(id, d)], trees, done)
    requires id < |used| <= |trees| && trees[id] == Leaf(id) && d > 0 && used[id] < |lengths|
    ensures WalkState(used, alphabet, lengths[used[id] := d], below, trees, done + {id})
  {
    hide Walking, Pick;
    var all := below + [(id, d)];
    assert forall i :: 0 <= i < |below| ==> all[i] == below[i];
    WalkLeaf(|used|, Pick(lengths, used), below, trees, done, trees[2 * |used| - 2], id, d);
    PickUpdate(lengths, used, id, d);
  }

  lemma WalkStateFork(used: seq<nat>, alphabet: nat, lengths: seq<nat>, below: seq<(nat, nat)>, trees: seq<Tree>,
                      done: set<nat>, id: nat, d: nat, a: nat, b: nat)
    requires WalkState(used, alphabet, lengths, below + [(id, d)], trees, done)
    requires a < |trees| && b < |trees| && id < |trees| && trees[id] == Fork(trees[a], trees[b])
    ensures WalkState(used, alphabet, lengths, below + [(a, d + 1)] + [(b, d + 1)], trees, done)
  {
    hide Walking, Pick;
    var all := below + [(id, d)];
    assert forall i :: 0 <= i < |below| ==> all[i] == below[i];
    var lens, root := Pick(lengths, used), trees[2 * |used| - 2];
    WalkFork(|used|, lens, below, trees, done, root, id, d, a, b);
    WalkRoom(|used|, lens, below + [(a, d + 1)] + [(b, d + 1)], trees, done, root);
  }

  // The walk down from the root. No depth reaches the number of leaves, so a depth
  // below 256 leaves fits a byte, and 2n stack slots are enough.
  method Walk(child: array<(nat, nat)>, used: seq<nat>, alphabet: nat, ghost trees: seq<Tree>) returns (lengths: seq<nat>)
    requires |used| >= 2 && |trees| == child.Length == 2 * |used| - 1
    requires forall i :: 0 <= i < |used| ==> used[i] < alphabet
    requires forall i, j :: 0 <= i < j < |used| ==> used[i] < used[j]
    requires Grown(|used|, child[..], trees)
    requires Ids(trees[2 * |used| - 2]) == multiset(Identity(|used|))
    ensures |lengths| == alphabet
    ensures forall s :: 0 <= s < alphabet && s !in used ==> lengths[s] == 0
    ensures DepthsAre(trees[2 * |used| - 2], 0, Pick(lengths, used))
    ensures forall i :: 0 <= i < |used| ==> 0 < lengths[used[i]]
  {
    hide WalkState, StackTrees, StackNodes, Grown, DepthsAre, Pick, Ids, Identity;
    var n, root := |used|, 2 * |used| - 2;
    lengths := seq(alphabet, s => 0);
    var stack := new (nat, nat)[2 * n];
    stack[0] := (root, 0);
    var top := 1;
    ghost var done: set<nat> := {};
    WalkStateStart(used, alphabet, lengths, trees);
    assert stack[..1] == [(root, 0)];
    while top > 0
      modifies stack
      invariant top <= n && WalkState(used, alphabet, lengths, stack[..top], trees, done)
      decreases ToVisit(stack[..top], trees)
    {
      top := top - 1;
      var (node, d) := stack[top];
      ghost var below := stack[..top];
      assert stack[..top + 1] == below + [(node, d)];
      WalkStateTop(used, alphabet, lengths, below, trees, done, node, d);
      GrownAt(n, child[..], trees, node);
      if node < n {
        WalkStateLeaf(used, alphabet, lengths, below, trees, done, node, d);
        ToVisitLess(below, trees, node, d);
        lengths := lengths[used[node] := Max(d, 1)];
        done := done + {node};
      } else {
        var (a, b) := child[node];
        WalkStateFork(used, alphabet, lengths, below, trees, done, node, d, a, b);
        ToVisitFork(below, trees, node, d, a, b);
        stack[top] := (a, d + 1);
        stack[top + 1] := (b, d + 1);
        top := top + 2;
        assert stack[..top] == below + [(a, d + 1)] + [(b, d + 1)];
        WalkStateShape(used, alphabet, lengths, stack[..top], trees, done);
      }
    }
    assert stack[..top] == [];
    WalkStateEnd(used, alphabet, lengths, trees, done);
  }

  lemma WalkStateStart(used: seq<nat>, alphabet: nat, lengths: seq<nat>, trees: seq<Tree>)
    requires |used| >= 2 && |trees| == 2 * |used| - 1 && lengths == seq(alphabet, s => 0)
    requires forall i :: 0 <= i < |used| ==> used[i] < alphabet
    requires forall i, j :: 0 <= i < j < |used| ==> used[i] < used[j]
    requires Ids(trees[2 * |used| - 2]) == multiset(Identity(|used|))
    ensures WalkState(used, alphabet, lengths, [(2 * |used| - 2, 0)], trees, {})
  {
    hide Walking, Pick, Ids, Identity;
    WalkStart(|used|, Pick(lengths, used), trees, 2 * |used| - 2);
  }

  lemma WalkStateShape(used: seq<nat>, alphabet: nat, lengths: seq<nat>, stack: seq<(nat, nat)>, trees: seq<Tree>, done: set<nat>)
    requires WalkState(used, alphabet, lengths, stack, trees, done)
    ensures |stack| <= |used| && |lengths| == alphabet
  {
  }

  lemma WalkStateEnd(used: seq<nat>, alphabet: nat, lengths: seq<nat>, trees: seq<Tree>, done: set<nat>)
    requires WalkState(used, alphabet, lengths, [], trees, done)
    ensures |lengths| == alphabet && forall s :: 0 <= s < alphabet && s !in used ==> lengths[s] == 0
    ensures DepthsAre(trees[2 * |used| - 2], 0, Pick(lengths, used))
    ensures forall i :: 0 <= i < |used| ==> 0 < lengths[used[i]]
  {
    hide Walking, DepthsAre;
    WalkEnd(|used|, Pick(lengths, used), trees, done, trees[2 * |used| - 2]);
    assert forall i :: 0 <= i < |used| ==> Pick(lengths, used)[i] == lengths[used[i]];
  }

  // Nodes still to be visited from a stack.
  ghost function ToVisit(stack: seq<(nat, nat)>, trees: seq<Tree>): nat {
    if forall i :: 0 <= i < |stack| ==> stack[i].0 < |trees| then StackNodes(StackTrees(stack, trees)) else 0
  }

  lemma ToVisitLess(below: seq<(nat, nat)>, trees: seq<Tree>, id: nat, d: nat)
    requires id < |trees| && forall i :: 0 <= i < |below| ==> below[i].0 < |trees|
    ensures ToVisit(below, trees) < ToVisit(below + [(id, d)], trees)
  {
    hide StackTrees, StackNodes;
    StackTreesSnoc(below, trees, id, d);
    StackNodesSnoc(StackTrees(below, trees), trees[id]);
  }

  lemma ToVisitFork(below: seq<(nat, nat)>, trees: seq<Tree>, id: nat, d: nat, a: nat, b: nat)
    requires forall i :: 0 <= i < |below| ==> below[i].0 < |trees|
    requires a < |trees| && b < |trees| && id < |trees| && trees[id] == Fork(trees[a], trees[b])
    ensures ToVisit(below + [(a, d + 1)] + [(b, d + 1)], trees) < ToVisit(below + [(id, d)], trees)
  {
    hide StackTrees, StackNodes;
    StackTreesSnoc(below, trees, id, d);
    StackNodesSnoc(StackTrees(below, trees), trees[id]);
    StackTreesSnoc(below, trees, a, d + 1);
    StackTreesSnoc(below + [(a, d + 1)], trees, b, d + 1);
    StackNodesSnoc(StackTrees(below, trees), trees[a]);
    StackNodesSnoc(StackTrees(below, trees) + [trees[a]], trees[b]);
  }

  lemma StackNodesSnoc(g: seq<Tree>, t: Tree)
    ensures LeafCount(t) >= 1
    ensures StackNodes(g + [t]) == StackNodes(g) + 2 * LeafCount(t) - 1
  {
    LeafSeqCount(t);
    assert (g + [t])[..|g|] == g;
  }

  method HuffmanLengths(counts: seq<nat>) returns (lengths: seq<nat>)
    ensures CheapestPrefixLengths(counts, lengths, Max(1, |Used(counts)| - 1))
    ensures Cheapest(counts, lengths)
  {
    hide CheapestPrefixLengths, Cheapest, Used, Ids, Identity, LeavesBelow, DepthsAre, Feasible, Grown, Cost, Inner;
    var used := Used(counts);
    var n := |used|;
    if n == 0 {
      lengths := seq(|counts|, s => 0);
      UsedIndices(counts);
      FewSymbols(counts, lengths);
    } else if n == 1 {
      // A lone symbol still needs one bit.
      lengths := seq(|counts|, s => 0)[used[0] := 1];
      UsedIndices(counts);
      FewSymbols(counts, lengths);
    } else {
      var child, trees := BuildTree(Pick(counts, used));
      lengths := Walk(child, used, |counts|, trees);
      UsedIndices(counts);
      TreeOptimal(counts, lengths, trees[2 * n - 2], Pick(counts, used), Pick(lengths, used));
    }
  }

  lemma TreeOptimal(counts: seq<nat>, lengths: seq<nat>, t: Tree, w: seq<nat>, lens: seq<nat>)
    requires |lengths| == |counts| && |Used(counts)| >= 2
    requires forall s :: 0 <= s < |counts| ==> (counts[s] > 0 <==> lengths[s] > 0)
    requires w == Pick(counts, Used(counts)) && lens == Pick(lengths, Used(counts))
    requires LeavesBelow(t, |w|) && Ids(t) == multiset(Identity(|w|)) && DepthsAre(t, 0, lens)
    requires forall l: seq<nat>, limit: nat :: |l| == |w| && Feasible(l, limit) ==> Inner(t, w) <= Cost(w, l)
    ensures CheapestPrefixLengths(counts, lengths, |w| - 1) && Cheapest(counts, lengths)
  {
    hide Used, Pick, CodeSpace, Kraft, Cost, Pow2, Ids, LeavesBelow, DepthsAre, Identity, Feasible, ListsUsed;
    var syms := Used(counts);
    UsedListed(counts);
    TreeLengths(t, w, lens);
    UsedWithin(counts, lengths, |w| - 1, syms);
    UsedSpace(counts, lengths, |w| - 1, syms);
    UsedCost(counts, lengths, syms);
    forall l: seq<nat>, lim: nat | PrefixLengths(counts, l, lim)
      ensures Cost(counts, lengths) <= Cost(counts, l)
    {
      UsedCost(counts, l, syms);
      UsedFeasible(counts, l, lim, syms);
      assert Inner(t, w) <= Cost(w, Pick(l, syms));
    }
  }
}
