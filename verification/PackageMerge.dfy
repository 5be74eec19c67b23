// src/huffman.rs: optimal code lengths under a limit, by package-merge.

module PackageMerge {
  import opened Common
  import opened PrefixCodeTheory
  import opened CodeLengths
  import Huffman

  // A round's item: a symbol's leaf, or a package of two neighbours of the round before.
  datatype Item = LeafItem(w: nat, sym: nat) | Package(w: nat, a: nat, b: nat)

  ghost function LeavesIn(round: seq<Item>, m: nat): (k: nat)
    requires m <= |round|
    ensures k <= m
  {
    if m == 0 then 0 else LeavesIn(round, m - 1) + if round[m - 1].LeafItem? then 1 else 0
  }

  lemma {:induction false} LeavesInPrefix(round: seq<Item>, more: seq<Item>, m: nat)
    requires m <= |round| <= |more| && more[..|round|] == round
    ensures LeavesIn(more, m) == LeavesIn(round, m)
  {
    if m > 0 {
      assert more[m - 1] == more[..|round|][m - 1];
      LeavesInPrefix(round, more, m - 1);
    }
  }

  lemma {:induction false} LeavesInMonotone(round: seq<Item>, p: nat, q: nat)
    requires p <= q <= |round|
    ensures LeavesIn(round, p) <= LeavesIn(round, q)
    ensures p - LeavesIn(round, p) <= q - LeavesIn(round, q)
    decreases q
  {
    if p < q { LeavesInMonotone(round, p, q - 1); }
  }

  // Item p of a round is the next leaf, or the next pair of the round before; a
  // package goes first only when it is lighter than the next leaf.
  ghost predicate IsItem(leaves: seq<Item>, prev: seq<Item>, x: Item, j: nat, k: nat) {
    match x
    case LeafItem(_, _) => j < |leaves| && x == leaves[j]
    case Package(w, a, b) =>
      && 2 * k + 1 < |prev| && a == 2 * k && b == 2 * k + 1 && w == prev[a].w + prev[b].w
      && (j < |leaves| ==> w < leaves[j].w)
  }

  ghost predicate Ascending(round: seq<Item>) {
    forall p, q :: 0 <= p < q < |round| ==> round[p].w <= round[q].w
  }

  ghost predicate AreItems(leaves: seq<Item>, prev: seq<Item>, round: seq<Item>) {
    forall p :: 0 <= p < |round| ==>
      IsItem(leaves, prev, round[p], LeavesIn(round, p), p - LeavesIn(round, p))
  }

  lemma ItemAt(leaves: seq<Item>, prev: seq<Item>, round: seq<Item>, p: nat)
    requires AreItems(leaves, prev, round) && p < |round|
    ensures IsItem(leaves, prev, round[p], LeavesIn(round, p), p - LeavesIn(round, p))
  {
  }

  // round is the merge of the leaves with the packages of prev.
  ghost predicate IsRound(leaves: seq<Item>, prev: seq<Item>, round: seq<Item>) {
    && |round| == |leaves| + |prev| / 2
    && LeavesIn(round, |round|) == |leaves|
    && Ascending(round)
    && AreItems(leaves, prev, round)
  }

  ghost predicate AreLeaves(leaves: seq<Item>) {
    && Ascending(leaves)
    && (forall j :: 0 <= j < |leaves| ==> leaves[j].LeafItem?)
  }

  lemma {:induction false} AllLeavesIn(leaves: seq<Item>, m: nat)
    requires AreLeaves(leaves) && m <= |leaves|
    ensures LeavesIn(leaves, m) == m
  {
    if m > 0 { AllLeavesIn(leaves, m - 1); }
  }

  lemma FirstRound(leaves: seq<Item>)
    requires AreLeaves(leaves)
    ensures IsRound(leaves, [], leaves)
  {
    AllLeavesIn(leaves, |leaves|);
    forall p | 0 <= p < |leaves| ensures LeavesIn(leaves, p) == p {
      AllLeavesIn(leaves, p);
    }
  }

  // One round: the previous round's pairs, lightest first, merged with the leaves.
  method MergeRound(leaves: seq<Item>, prev: seq<Item>) returns (next: seq<Item>)
    requires AreLeaves(leaves) && Ascending(prev)
    ensures IsRound(leaves, prev, next)
  {
    hide AreItems, LeavesIn;
    next := [];
    NoItems(leaves, prev);
    var i, j := 0, 0;
    while i + 1 < |prev| || j < |leaves|
      invariant i % 2 == 0 && i <= |prev| && j <= |leaves| && |next| == j + i / 2
      invariant LeavesIn(next, |next|) == j
      invariant Ascending(next) && AreItems(leaves, prev, next)
      invariant j < |leaves| ==> forall p :: 0 <= p < |next| ==> next[p].w <= leaves[j].w
      invariant i + 1 < |prev| ==> forall p :: 0 <= p < |next| ==> next[p].w <= prev[i].w + prev[i + 1].w
      decreases |prev| - i + |leaves| - j
    {
      var pw := if i + 1 < |prev| then Some(prev[i].w + prev[i + 1].w) else None;
      var x: Item;
      if j < |leaves| && (pw.None? || leaves[j].w <= pw.value) {
        x := leaves[j];
        ItemsSnoc(leaves, prev, next, x, j, i / 2);
        j := j + 1;
      } else {
        x := Package(pw.value, i, i + 1);
        ItemsSnoc(leaves, prev, next, x, j, i / 2);
        i := i + 2;
      }
      next := next + [x];
    }
  }

  lemma NoItems(leaves: seq<Item>, prev: seq<Item>)
    ensures AreItems(leaves, prev, []) && LeavesIn([], 0) == 0
  {
  }

  lemma LeavesInLast(round: seq<Item>)
    requires round != []
    ensures LeavesIn(round, |round|) == LeavesIn(round, |round| - 1) + if round[|round| - 1].LeafItem? then 1 else 0
  {
  }

  lemma ItemsSnoc(leaves: seq<Item>, prev: seq<Item>, round: seq<Item>, x: Item, j: nat, k: nat)
    requires AreItems(leaves, prev, round) && LeavesIn(round, |round|) == j && |round| == j + k
    requires IsItem(leaves, prev, x, j, k)
    ensures AreItems(leaves, prev, round + [x])
    ensures LeavesIn(round + [x], |round| + 1) == if x.LeafItem? then j + 1 else j
  {
    hide IsItem, LeavesIn;
    var more := round + [x];
    forall p | 0 <= p < |more| ensures IsItem(leaves, prev, more[p], LeavesIn(more, p), p - LeavesIn(more, p)) {
      LeavesInPrefix(round, more, p);
      if p < |round| { ItemAt(leaves, prev, round, p); }
    }
    LeavesInPrefix(round, more, |round|);
    LeavesInLast(more);
  }

  // ---------------------------------------------------------------- cheapest items first

  // The weight of the first m items.
  ghost function Front(round: seq<Item>, m: nat): nat
    requires m <= |round|
  {
    if m == 0 then 0 else Front(round, m - 1) + round[m - 1].w
  }

  lemma {:induction false} FrontMonotone(round: seq<Item>, p: nat, q: nat)
    requires p <= q <= |round|
    ensures Front(round, p) <= Front(round, q)
    decreases q
  {
    if p < q { FrontMonotone(round, p, q - 1); }
  }

  // The packages among the first m items use up that many pairs of the round before.
  lemma {:induction false} PairsFit(leaves: seq<Item>, prev: seq<Item>, round: seq<Item>, m: nat)
    requires AreItems(leaves, prev, round) && m <= |round|
    ensures 2 * (m - LeavesIn(round, m)) <= |prev|
    ensures LeavesIn(round, m) <= |leaves|
  {
    hide AreItems;
    if m > 0 {
      PairsFit(leaves, prev, round, m - 1);
      ItemAt(leaves, prev, round, m - 1);
    }
  }

  lemma FrontPair(prev: seq<Item>, k: nat)
    requires 0 < k && 2 * k <= |prev|
    ensures Front(prev, 2 * k) == Front(prev, 2 * k - 2) + prev[2 * k - 2].w + prev[2 * k - 1].w
  {
  }

  lemma {:induction false} FrontSplit(leaves: seq<Item>, prev: seq<Item>, round: seq<Item>, m: nat)
    requires AreItems(leaves, prev, round) && m <= |round|
    ensures LeavesIn(round, m) <= |leaves| && 2 * (m - LeavesIn(round, m)) <= |prev|
    ensures Front(round, m) == Front(leaves, LeavesIn(round, m)) + Front(prev, 2 * (m - LeavesIn(round, m)))
  {
    hide AreItems;
    PairsFit(leaves, prev, round, m);
    if m > 0 {
      FrontSplit(leaves, prev, round, m - 1);
      ItemAt(leaves, prev, round, m - 1);
      if round[m - 1].Package? { FrontPair(prev, m - LeavesIn(round, m)); }
    }
  }

  lemma {:induction false} LeafPosition(round: seq<Item>, m: nat, j: nat) returns (p: nat)
    requires m <= |round| && j < LeavesIn(round, m)
    ensures p < m && round[p].LeafItem? && LeavesIn(round, p) == j
  {
    if round[m - 1].LeafItem? && LeavesIn(round, m - 1) == j { p := m - 1; } else { p := LeafPosition(round, m - 1, j); }
  }

  lemma {:induction false} PackagePosition(round: seq<Item>, m: nat, k: nat) returns (p: nat)
    requires m <= |round| && k < m - LeavesIn(round, m)
    ensures p < m && round[p].Package? && p - LeavesIn(round, p) == k
  {
    if round[m - 1].Package? && m - 1 - LeavesIn(round, m - 1) == k { p := m - 1; } else { p := PackagePosition(round, m - 1, k); }
  }

  // No choice of j leaves and k packages is lighter than the round's first j + k items.
  lemma {:induction false} FrontCheapest(leaves: seq<Item>, prev: seq<Item>, round: seq<Item>, j: nat, k: nat)
    requires IsRound(leaves, prev, round) && j <= |leaves| && 2 * k <= |prev|
    ensures j + k <= |round| && Front(round, j + k) <= Front(leaves, j) + Front(prev, 2 * k)
    decreases j + k
  {
    hide AreItems, LeavesIn;
    var m := j + k;
    if m > 0 {
      var t := LeavesIn(round, m);
      FrontSplit(leaves, prev, round, m);
      if j > t {
        LeafAfter(leaves, prev, round, m, j - 1);
        FrontCheapest(leaves, prev, round, j - 1, k);
      } else if j < t {
        PackageAfter(leaves, prev, round, m, k - 1);
        FrontCheapest(leaves, prev, round, j, k - 1);
        FrontPair(prev, k);
      }
    }
  }

  // A leaf that is not among the first m items is no lighter than they are.
  lemma LeafAfter(leaves: seq<Item>, prev: seq<Item>, round: seq<Item>, m: nat, j: nat)
    requires IsRound(leaves, prev, round) && 0 < m <= |round| && LeavesIn(round, m) <= j < |leaves|
    ensures leaves[j].w >= round[m - 1].w
  {
    hide AreItems;
    var q := LeafPosition(round, |round|, j);
    if q < m { LeavesInMonotone(round, q + 1, m); }
    ItemAt(leaves, prev, round, q);
  }

  lemma PackageAfter(leaves: seq<Item>, prev: seq<Item>, round: seq<Item>, m: nat, k: nat)
    requires IsRound(leaves, prev, round) && 0 < m <= |round| && m - LeavesIn(round, m) <= k && 2 * k + 1 < |prev|
    ensures prev[2 * k].w + prev[2 * k + 1].w >= round[m - 1].w
  {
    hide AreItems;
    var q := PackagePosition(round, |round|, k);
    if q < m { LeavesInMonotone(round, q + 1, m); }
    ItemAt(leaves, prev, round, q);
  }

  // ---------------------------------------------------------------- all the rounds

  ghost function Prev(rounds: seq<seq<Item>>, r: nat): seq<Item>
    requires r <= |rounds|
  {
    if r == 0 then [] else rounds[r - 1]
  }

  ghost predicate AreRounds(leaves: seq<Item>, rounds: seq<seq<Item>>) {
    && AreLeaves(leaves)
    && |rounds| > 0 && rounds[0] == leaves
    && forall r :: 0 <= r < |rounds| ==> IsRound(leaves, Prev(rounds, r), rounds[r])
  }

  lemma RoundAt(leaves: seq<Item>, rounds: seq<seq<Item>>, r: nat)
    requires AreRounds(leaves, rounds) && r < |rounds|
    ensures IsRound(leaves, Prev(rounds, r), rounds[r])
    ensures |rounds[r]| == |leaves| + |Prev(rounds, r)| / 2
    ensures AreLeaves(leaves)
  {
  }

  // How many items of round r the final selection of the last round's first m uses.
  ghost function Chosen(leaves: seq<Item>, rounds: seq<seq<Item>>, m: nat, r: nat): (c: nat)
    requires AreRounds(leaves, rounds) && r < |rounds| && m <= |rounds[|rounds| - 1]|
    ensures c <= |rounds[r]|
    decreases |rounds| - r
  {
    if r == |rounds| - 1 then m
    else
      var above := Chosen(leaves, rounds, m, r + 1);
      PairsFit(leaves, rounds[r], rounds[r + 1], above);
      2 * (above - LeavesIn(rounds[r + 1], above))
  }

  // How many leaves of round r it uses.
  ghost function Taken(leaves: seq<Item>, rounds: seq<seq<Item>>, m: nat, r: nat): (t: nat)
    requires AreRounds(leaves, rounds) && r < |rounds| && m <= |rounds[|rounds| - 1]|
    ensures t <= |leaves|
  {
    var c := Chosen(leaves, rounds, m, r);
    PairsFit(leaves, Prev(rounds, r), rounds[r], c);
    LeavesIn(rounds[r], c)
  }

  lemma ChosenStep(leaves: seq<Item>, rounds: seq<seq<Item>>, m: nat, r: nat)
    requires AreRounds(leaves, rounds) && 0 < r < |rounds| && m <= |rounds[|rounds| - 1]|
    ensures Chosen(leaves, rounds, m, r - 1) == 2 * (Chosen(leaves, rounds, m, r) - Taken(leaves, rounds, m, r))
  {
  }

  // A leaf chosen in one round is chosen in every later one: the package that holds
  // it is heavier, so the leaf itself comes before that package.
  lemma TakenNested(leaves: seq<Item>, rounds: seq<seq<Item>>, m: nat, r: nat)
    requires AreRounds(leaves, rounds) && 0 < r < |rounds| && m <= |rounds[|rounds| - 1]|
    ensures Taken(leaves, rounds, m, r - 1) <= Taken(leaves, rounds, m, r)
  {
    hide AreItems, LeavesIn, Chosen, Ascending, AreRounds, IsRound;
    ChosenStep(leaves, rounds, m, r);
    RoundAt(leaves, rounds, r);
    RoundAt(leaves, rounds, r - 1);
    var c, k := Chosen(leaves, rounds, m, r), Chosen(leaves, rounds, m, r) - Taken(leaves, rounds, m, r);
    NestedPair(leaves, rounds[r - 1], Prev(rounds, r - 1), rounds[r], c, k);
  }

  lemma NestedPair(leaves: seq<Item>, prev: seq<Item>, prev2: seq<Item>, round: seq<Item>, c: nat, k: nat)
    requires AreLeaves(leaves) && IsRound(leaves, prev, round) && IsRound(leaves, prev2, prev)
    requires c <= |round| && k == c - LeavesIn(round, c) && 2 * k <= |prev|
    ensures LeavesIn(prev, 2 * k) <= LeavesIn(round, c)
  {
    hide AreItems;
    var t' := LeavesIn(prev, 2 * k);
    if t' == 0 { return; }
    var p := PackagePosition(round, c, k - 1);
    ItemAt(leaves, prev, round, p);
    LeavesInMonotone(round, p, c);
    var q := LeafPosition(prev, 2 * k, t' - 1);
    ItemAt(leaves, prev2, prev, q);
    var j := LeavesIn(round, p);
    assert prev[q].w <= prev[2 * k - 1].w <= round[p].w;
    PairsFit(leaves, prev, round, p);
    PairsFit(leaves, prev2, prev, 2 * k);
    if j < t' - 1 { assert false; }
  }

  // The last of limit rounds over n leaves has room for the 2n - 2 items chosen.
  lemma {:induction false} RoundSize(leaves: seq<Item>, rounds: seq<seq<Item>>, r: nat)
    requires AreRounds(leaves, rounds) && r < |rounds| && |leaves| >= 1
    ensures |rounds[r]| <= 2 * |leaves| - 1
    ensures (2 * |leaves| - 1 - |rounds[r]|) * Pow2(r) <= |leaves| - 1
  {
    hide AreRounds, IsRound;
    RoundAt(leaves, rounds, r);
    if r > 0 {
      RoundSize(leaves, rounds, r - 1);
      var n := |leaves|;
      var q, q' := 2 * n - 1 - |rounds[r - 1]|, 2 * n - 1 - |rounds[r]|;
      assert 2 * q' <= q;
      HalvedSlack(q, q', Pow2(r - 1));
    }
  }

  lemma HalvedSlack(q: int, q': int, p: int)
    requires 2 * q' <= q && p >= 0
    ensures q' * (2 * p) <= q * p
  {
    assert q' * (2 * p) == 2 * q' * p;
  }

  lemma LastRoundSize(leaves: seq<Item>, rounds: seq<seq<Item>>)
    requires AreRounds(leaves, rounds) && 2 <= |leaves| <= Pow2(|rounds|)
    ensures 2 * |leaves| - 2 <= |rounds[|rounds| - 1]|
  {
    hide AreRounds;
    var r := |rounds| - 1;
    RoundSize(leaves, rounds, r);
    var q := 2 * |leaves| - 1 - |rounds[r]|;
    if q >= 2 { SlackGrows(q, Pow2(r)); }
  }

  lemma SlackGrows(q: int, p: int)
    requires q >= 2 && p >= 0
    ensures q * p >= 2 * p
  {
  }

  // ---------------------------------------------------------------- lengths seen level by level

  ghost function AtLeast(l: seq<nat>, d: nat): (k: nat)
    ensures k <= |l|
  {
    if l == [] then 0 else AtLeast(l[..|l| - 1], d) + if l[|l| - 1] >= d then 1 else 0
  }

  ghost function HeavyAtLeast(w: seq<nat>, l: seq<nat>, d: nat): nat
    requires |w| == |l|
  {
    if l == [] then 0 else HeavyAtLeast(w[..|l| - 1], l[..|l| - 1], d) + if l[|l| - 1] >= d then w[|l| - 1] else 0
  }

  // The width of the coins of levels d to limit: one of 2^(limit - e) for every length of e or more.
  ghost function DeepCount(l: seq<nat>, d: nat, limit: nat): nat
    requires d <= limit + 1
    decreases limit + 1 - d
  {
    if d == limit + 1 then 0 else AtLeast(l, d) * Pow2(limit - d) + DeepCount(l, d + 1, limit)
  }

  ghost function DeepWeight(w: seq<nat>, l: seq<nat>, d: nat, limit: nat): nat
    requires d <= limit + 1 && |w| == |l|
    decreases limit + 1 - d
  {
    if d == limit + 1 then 0 else HeavyAtLeast(w, l, d) + DeepWeight(w, l, d + 1, limit)
  }

  lemma {:induction false} DeepCountSnoc(l: seq<nat>, x: nat, d: nat, limit: nat)
    requires 0 < d <= limit + 1 && x <= limit
    ensures DeepCount(l + [x], d, limit)
         == DeepCount(l, d, limit) + if x >= d then Pow2(limit + 1 - d) - Pow2(limit - x) else 0
    decreases limit + 1 - d
  {
    if d <= limit {
      DeepCountSnoc(l, x, d + 1, limit);
      assert (l + [x])[..|l|] == l;
      if x >= d {
        assert AtLeast(l + [x], d) == AtLeast(l, d) + 1;
        OneMore(AtLeast(l, d), Pow2(limit - d));
      }
    }
  }

  lemma HeavySnoc(w: seq<nat>, l: seq<nat>, y: nat, x: nat, d: nat)
    requires |w| == |l|
    ensures HeavyAtLeast(w + [y], l + [x], d) == HeavyAtLeast(w, l, d) + if x >= d then y else 0
  {
    assert (l + [x])[..|l|] == l && (w + [y])[..|l|] == w;
  }

  lemma OneMoreOf(y: int, a: int)
    ensures y * (a + 1) == y * a + y
  {
  }

  lemma {:induction false} DeepWeightSnoc(w: seq<nat>, l: seq<nat>, y: nat, x: nat, d: nat, limit: nat)
    requires |w| == |l| && 0 < d <= limit + 1 && x <= limit
    ensures DeepWeight(w + [y], l + [x], d, limit)
         == DeepWeight(w, l, d, limit) + if x >= d then y * (x + 1 - d) else 0
    decreases limit + 1 - d
  {
    if d <= limit {
      DeepWeightSnoc(w, l, y, x, d + 1, limit);
      HeavySnoc(w, l, y, x, d);
      if x >= d { OneMoreOf(y, x - d); }
    }
  }

  // Every level from 1 on: the code space the lengths leave, and what they cost.
  lemma {:induction false} DeepCountAll(l: seq<nat>, limit: nat)
    requires Within(l, limit)
    ensures DeepCount(l, 1, limit) + Kraft(l, limit) == |l| * Pow2(limit)
  {
    if l == [] {
      DeepCountEmpty(1, limit);
    } else {
      var m := |l| - 1;
      assert l == l[..m] + [l[m]];
      DeepCountAll(l[..m], limit);
      DeepCountSnoc(l[..m], l[m], 1, limit);
      AppendNode(l[..m], l[..m], limit, 0, l[m]);
      OneMore(m, Pow2(limit));
    }
  }

  lemma {:induction false} DeepCountEmpty(d: nat, limit: nat)
    requires d <= limit + 1
    ensures DeepCount([], d, limit) == 0 && DeepWeight([], [], d, limit) == 0
    decreases limit + 1 - d
  {
    if d <= limit { DeepCountEmpty(d + 1, limit); }
  }

  lemma {:induction false} DeepWeightAll(w: seq<nat>, l: seq<nat>, limit: nat)
    requires |w| == |l| && Within(l, limit)
    ensures DeepWeight(w, l, 1, limit) == Cost(w, l)
  {
    if l == [] {
      DeepCountEmpty(1, limit);
      assert Products(w, l) == [];
    } else {
      var m := |l| - 1;
      var w', l' := w[..m], l[..m];
      assert l == l' + [l[m]] && w == w' + [w[m]];
      DeepWeightAll(w', l', limit);
      DeepWeightSnoc(w', l', w[m], l[m], 1, limit);
      AppendNode(w', l', limit, w[m], l[m]);
    }
  }

  // ---------------------------------------------------------------- the selection's lengths

  ghost function ItemWeights(leaves: seq<Item>): (w: seq<nat>)
    ensures |w| == |leaves| && forall j :: 0 <= j < |w| ==> w[j] == leaves[j].w
  {
    seq(|leaves|, j requires 0 <= j < |leaves| => leaves[j].w)
  }

  // Lengths by which the first t leaves, and no others, have d bits or more.
  lemma {:induction false} PrefixLevel(leaves: seq<Item>, c: seq<nat>, d: nat, t: nat, m: nat)
    requires |c| == |leaves| && m <= |c|
    requires forall j :: 0 <= j < |c| ==> (c[j] >= d <==> j < t)
    ensures AtLeast(c[..m], d) == Min(t, m)
    ensures HeavyAtLeast(ItemWeights(leaves)[..m], c[..m], d) == Front(leaves, Min(t, m))
  {
    if m > 0 {
      PrefixLevel(leaves, c, d, t, m - 1);
      assert c[..m][..m - 1] == c[..m - 1];
      assert ItemWeights(leaves)[..m][..m - 1] == ItemWeights(leaves)[..m - 1];
    }
  }

  // The leaves of d bits or more weigh at least as much as the lightest that many.
  lemma {:induction false} LevelWeight(leaves: seq<Item>, l: seq<nat>, d: nat, m: nat)
    requires Ascending(leaves) && |l| == |leaves| && m <= |l|
    ensures AtLeast(l[..m], d) <= m
    ensures HeavyAtLeast(ItemWeights(leaves)[..m], l[..m], d) >= Front(leaves, AtLeast(l[..m], d))
  {
    if m > 0 {
      LevelWeight(leaves, l, d, m - 1);
      assert l[..m][..m - 1] == l[..m - 1];
      assert ItemWeights(leaves)[..m][..m - 1] == ItemWeights(leaves)[..m - 1];
      var a := AtLeast(l[..m - 1], d);
      assert leaves[a].w <= leaves[m - 1].w;
    }
  }

  // c[j] counts the rounds whose selection takes leaf j.
  ghost predicate CountsTaken(leaves: seq<Item>, rounds: seq<seq<Item>>, m: nat, c: seq<nat>) {
    && AreRounds(leaves, rounds) && m <= |rounds[|rounds| - 1]|
    && |c| == |leaves| && Within(c, |rounds|)
    && forall j, r :: 0 <= j < |c| && 0 <= r < |rounds| ==>
         (c[j] >= |rounds| - r <==> j < Taken(leaves, rounds, m, r))
  }

  lemma CountsAt(leaves: seq<Item>, rounds: seq<seq<Item>>, m: nat, c: seq<nat>, r: nat)
    requires CountsTaken(leaves, rounds, m, c) && r < |rounds|
    ensures forall j :: 0 <= j < |c| ==> (c[j] >= |rounds| - r <==> j < Taken(leaves, rounds, m, r))
  {
    hide AreRounds, Taken;
  }

  lemma CountsWithin(leaves: seq<Item>, rounds: seq<seq<Item>>, m: nat, c: seq<nat>)
    requires CountsTaken(leaves, rounds, m, c)
    ensures |rounds| > 0 && AreRounds(leaves, rounds) && m <= |rounds[|rounds| - 1]|
    ensures |c| == |leaves| && Within(c, |rounds|)
  {
  }

  lemma ChosenLast(leaves: seq<Item>, rounds: seq<seq<Item>>, m: nat)
    requires AreRounds(leaves, rounds) && |rounds| > 0 && m <= |rounds[|rounds| - 1]|
    ensures Chosen(leaves, rounds, m, |rounds| - 1) == m
  {
  }

  // One level of the selection: its leaves, and the pairs the rest of the round holds.
  lemma SelectionLevel(leaves: seq<Item>, rounds: seq<seq<Item>>, m: nat, c: seq<nat>, r: nat)
    requires CountsTaken(leaves, rounds, m, c) && r < |rounds|
    requires AreRounds(leaves, rounds) && m <= |rounds[|rounds| - 1]| && |c| == |leaves|
    ensures var ch, t := Chosen(leaves, rounds, m, r), Taken(leaves, rounds, m, r);
      && AtLeast(c, |rounds| - r) == t <= ch && 2 * (ch - t) <= |Prev(rounds, r)|
      && HeavyAtLeast(ItemWeights(leaves), c, |rounds| - r) + Front(Prev(rounds, r), 2 * (ch - t)) == Front(rounds[r], ch)
  {
    hide CountsTaken, AreRounds, IsRound, AreItems, LeavesIn, Chosen, Ascending, AtLeast, HeavyAtLeast, Front;
    CountsAt(leaves, rounds, m, c, r);
    RoundAt(leaves, rounds, r);
    RoundItems(leaves, Prev(rounds, r), rounds[r]);
    PrefixLevel(leaves, c, |rounds| - r, Taken(leaves, rounds, m, r), |c|);
    assert c[..|c|] == c && ItemWeights(leaves)[..|c|] == ItemWeights(leaves);
    FrontSplit(leaves, Prev(rounds, r), rounds[r], Chosen(leaves, rounds, m, r));
  }

  lemma DeepStep(w: seq<nat>, l: seq<nat>, d: nat, limit: nat)
    requires d <= limit && |w| == |l|
    ensures DeepCount(l, d, limit) == AtLeast(l, d) * Pow2(limit - d) + DeepCount(l, d + 1, limit)
    ensures DeepWeight(w, l, d, limit) == HeavyAtLeast(w, l, d) + DeepWeight(w, l, d + 1, limit)
    ensures DeepCount(l, limit + 1, limit) == 0 && DeepWeight(w, l, limit + 1, limit) == 0
  {
  }

  lemma PairsBefore(rounds: seq<seq<Item>>, r: nat)
    requires r < |rounds|
    ensures r == 0 ==> |Prev(rounds, r)| == 0 && Front(Prev(rounds, r), 0) == 0 && Pow2(r) == 1
    ensures r > 0 ==> Prev(rounds, r) == rounds[r - 1] && Pow2(r) == 2 * Pow2(r - 1)
  {
  }

  lemma {:induction false} SelectionDeep(leaves: seq<Item>, rounds: seq<seq<Item>>, m: nat, c: seq<nat>, r: nat)
    requires CountsTaken(leaves, rounds, m, c) && r < |rounds|
    ensures DeepCount(c, |rounds| - r, |rounds|) == Chosen(leaves, rounds, m, r) * Pow2(r)
    ensures DeepWeight(ItemWeights(leaves), c, |rounds| - r, |rounds|) == Front(rounds[r], Chosen(leaves, rounds, m, r))
  {
    hide CountsTaken, AreRounds, Chosen, Taken, AtLeast, HeavyAtLeast, Front, DeepCount, DeepWeight, Pow2, Prev;
    CountsWithin(leaves, rounds, m, c);
    SelectionLevel(leaves, rounds, m, c, r);
    DeepStep(ItemWeights(leaves), c, |rounds| - r, |rounds|);
    PairsBefore(rounds, r);
    if r > 0 {
      ChosenStep(leaves, rounds, m, r);
      SelectionDeep(leaves, rounds, m, c, r - 1);
      PairUp(Taken(leaves, rounds, m, r), Chosen(leaves, rounds, m, r), Pow2(r - 1));
    }
  }

  lemma RoundItems(leaves: seq<Item>, prev: seq<Item>, round: seq<Item>)
    requires IsRound(leaves, prev, round)
    ensures AreItems(leaves, prev, round) && Ascending(round) && |round| == |leaves| + |prev| / 2
  {
  }

  lemma PairUp(t: int, c: int, p: int)
    ensures t * (2 * p) + 2 * (c - t) * p == c * (2 * p)
  {
  }

  // ---------------------------------------------------------------- against any other lengths

  // The whole items of level d that lengths l make of their coins of level d and deeper.
  ghost function Units(l: seq<nat>, d: nat, limit: nat): nat
    requires d <= limit + 1
    decreases limit + 1 - d
  {
    if d == limit + 1 then 0 else AtLeast(l, d) + Units(l, d + 1, limit) / 2
  }

  lemma {:induction false} AnyDeep(leaves: seq<Item>, rounds: seq<seq<Item>>, l: seq<nat>, r: nat, d: nat, u: nat)
    requires AreRounds(leaves, rounds) && r < |rounds| && |l| == |leaves|
    requires d == |rounds| - r && u == Units(l, d, |rounds|)
    ensures u <= |rounds[r]|
    ensures DeepWeight(ItemWeights(leaves), l, d, |rounds|) >= Front(rounds[r], u)
    ensures DeepCount(l, d, |rounds|) < (u + 1) * Pow2(r)
    decreases r
  {
    hide AreRounds, IsRound, AreItems, Ascending, AtLeast, HeavyAtLeast;
    var limit, w, prev := |rounds|, ItemWeights(leaves), Prev(rounds, r);
    var a, u' := AtLeast(l, d), Units(l, d + 1, limit);
    var k := u' / 2;
    RoundAt(leaves, rounds, r);
    LeavesAscend(leaves);
    LevelWeight(leaves, l, d, |l|);
    assert l[..|l|] == l && w[..|l|] == w;
    if r == 0 {
      assert u' == 0;
      FrontCheapest(leaves, prev, rounds[r], a, 0);
    } else {
      AnyDeep(leaves, rounds, l, r - 1, d + 1, u');
      FrontMonotone(prev, 2 * k, u');
      FrontCheapest(leaves, prev, rounds[r], a, k);
      CarryUp(a, u', k, Pow2(r - 1), DeepCount(l, d + 1, limit));
    }
  }

  lemma LeavesAscend(leaves: seq<Item>)
    requires AreLeaves(leaves)
    ensures Ascending(leaves)
  {
  }

  lemma CarryUp(a: int, u': int, k: int, p: int, deep: int)
    requires deep < (u' + 1) * p && u' <= 2 * k + 1 && p >= 0
    ensures a * (2 * p) + deep < (a + k + 1) * (2 * p)
  {
    MulMonotone(u' + 1, 2 * k + 2, p);
    PairedSum(a, k + 1, p);
  }

  lemma PairedSum(a: int, m: int, p: int)
    ensures (a + m) * (2 * p) == a * (2 * p) + 2 * m * p
  {
  }

  // The selection of the lightest 2n - 2 items is a complete code, and the cheapest.
  lemma SelectionKraft(leaves: seq<Item>, rounds: seq<seq<Item>>, c: seq<nat>)
    requires |leaves| >= 2 && CountsTaken(leaves, rounds, 2 * |leaves| - 2, c)
    ensures |c| == |leaves| && Within(c, |rounds|) && Kraft(c, |rounds|) == Pow2(|rounds|)
  {
    hide AreRounds, CountsTaken, Chosen, Kraft, DeepWeight, Front;
    CountsWithin(leaves, rounds, 2 * |leaves| - 2, c);
    var n, limit := |leaves|, |rounds|;
    SelectionDeep(leaves, rounds, 2 * n - 2, c, limit - 1);
    DeepCountAll(c, limit);
    ChosenLast(leaves, rounds, 2 * n - 2);
    Halves(n, Pow2(limit - 1));
  }

  lemma Halves(n: int, p: int)
    ensures n * (2 * p) - (2 * n - 2) * p == 2 * p
  {
  }

  lemma SelectionCheapest(leaves: seq<Item>, rounds: seq<seq<Item>>, c: seq<nat>, l: seq<nat>)
    requires |leaves| >= 2 && CountsTaken(leaves, rounds, 2 * |leaves| - 2, c)
    requires |l| == |leaves| && Feasible(l, |rounds|)
    ensures |c| == |l| && Cost(ItemWeights(leaves), c) <= Cost(ItemWeights(leaves), l)
  {
    hide AreRounds, CountsTaken, Chosen, Kraft, DeepWeight, DeepCount, Front, Units, Cost, ItemWeights;
    CountsWithin(leaves, rounds, 2 * |leaves| - 2, c);
    var n, limit, w := |leaves|, |rounds|, ItemWeights(leaves);
    var m, last := 2 * n - 2, rounds[limit - 1];
    SelectionDeep(leaves, rounds, m, c, limit - 1);
    DeepWeightAll(w, c, limit);
    ChosenLast(leaves, rounds, m);
    AnyDeep(leaves, rounds, l, limit - 1, 1, Units(l, 1, limit));
    DeepWeightAll(w, l, limit);
    DeepCountAll(l, limit);
    var u := Units(l, 1, limit);
    EnoughUnits(n, u, Pow2(limit - 1));
    FrontMonotone(last, m, u);
  }

  lemma EnoughUnits(n: int, u: int, p: int)
    requires n * (2 * p) - 2 * p < (u + 1) * p && p >= 1
    ensures u >= 2 * n - 2
  {
    PairedSum(n, -1, p);
    PairedSum(0, n - 1, p);
    if u + 1 <= 2 * n - 2 { MulMonotone(u + 1, 2 * n - 2, p); }
  }

  // ---------------------------------------------------------------- counting the leaves chosen

  ghost predicate IsSymbol(x: Item, sym: nat) {
    x.LeafItem? && x.sym == sym
  }

  // How often symbol sym is met below item `at` of round `depth`.
  ghost function Occurs(rounds: seq<seq<Item>>, depth: nat, at: nat, sym: nat): nat
    requires depth < |rounds| && at < |rounds[depth]|
    decreases depth
  {
    match rounds[depth][at]
    case LeafItem(_, s) => if s == sym then 1 else 0
    case Package(_, a, b) =>
      if depth > 0 && a < |rounds[depth - 1]| && b < |rounds[depth - 1]| then
        Occurs(rounds, depth - 1, a, sym) + Occurs(rounds, depth - 1, b, sym)
      else 0
  }

  ghost function OccursFront(rounds: seq<seq<Item>>, depth: nat, m: nat, sym: nat): nat
    requires depth < |rounds| && m <= |rounds[depth]|
  {
    if m == 0 then 0
    else OccursFront(rounds, depth, m - 1, sym) + Occurs(rounds, depth, m - 1, sym)
  }

  lemma OccursPair(rounds: seq<seq<Item>>, depth: nat, k: nat, sym: nat)
    requires depth < |rounds| && 0 < k && 2 * k <= |rounds[depth]|
    ensures OccursFront(rounds, depth, 2 * k, sym)
         == OccursFront(rounds, depth, 2 * k - 2, sym) + Occurs(rounds, depth, 2 * k - 2, sym) + Occurs(rounds, depth, 2 * k - 1, sym)
  {
    hide Occurs;
    assert OccursFront(rounds, depth, 2 * k - 1, sym)
        == OccursFront(rounds, depth, 2 * k - 2, sym) + Occurs(rounds, depth, 2 * k - 2, sym);
  }

  ghost predicate DistinctSymbols(leaves: seq<Item>) {
    && (forall j :: 0 <= j < |leaves| ==> leaves[j].LeafItem?)
    && (forall i, j :: 0 <= i < j < |leaves| ==> leaves[i].sym != leaves[j].sym)
  }

  // What the pairs used by the first m items of a round hold of a symbol.
  ghost function OccursBelow(rounds: seq<seq<Item>>, depth: nat, k: nat, sym: nat): nat
    requires depth < |rounds| && k <= |Prev(rounds, depth)|
  {
    if depth == 0 then 0 else OccursFront(rounds, depth - 1, k, sym)
  }

  // The first m items hold each of their leaves once, and below them the pairs they use.
  lemma {:induction false} OccursSplit(leaves: seq<Item>, rounds: seq<seq<Item>>, depth: nat, m: nat, j: nat, k: nat)
    requires AreRounds(leaves, rounds) && DistinctSymbols(leaves) && depth < |rounds| && m <= |rounds[depth]|
    requires j < |leaves| && k == m - LeavesIn(rounds[depth], m)
    ensures 2 * k <= |Prev(rounds, depth)|
    ensures OccursFront(rounds, depth, m, leaves[j].sym)
         == (if j < m - k then 1 else 0) + OccursBelow(rounds, depth, 2 * k, leaves[j].sym)
  {
    hide AreRounds, IsRound, AreItems, DistinctSymbols, LeavesIn, Occurs, OccursFront;
    var round, prev := rounds[depth], Prev(rounds, depth);
    RoundAt(leaves, rounds, depth);
    RoundItems(leaves, prev, round);
    PairsFit(leaves, prev, round, m);
    OccursStep(rounds, depth, m, leaves[j].sym);
    if m > 0 {
      var p, sym := m - 1, leaves[j].sym;
      var k' := p - LeavesIn(round, p);
      OccursSplit(leaves, rounds, depth, p, j, k');
      ItemAt(leaves, prev, round, p);
      if round[p].LeafItem? {
        SameSymbol(leaves, LeavesIn(round, p), j);
      } else {
        OccursPair(rounds, depth - 1, k, sym);
      }
    } else if depth > 0 {
      OccursStep(rounds, depth - 1, 0, leaves[j].sym);
    }
  }

  // One more item, and what it adds.
  lemma OccursStep(rounds: seq<seq<Item>>, depth: nat, m: nat, sym: nat)
    requires depth < |rounds| && m <= |rounds[depth]|
    ensures m == 0 ==> OccursFront(rounds, depth, m, sym) == 0 && LeavesIn(rounds[depth], m) == 0
    ensures m > 0 ==> OccursFront(rounds, depth, m, sym)
                      == OccursFront(rounds, depth, m - 1, sym) + Occurs(rounds, depth, m - 1, sym)
    ensures m > 0 && rounds[depth][m - 1].LeafItem? ==>
      && LeavesIn(rounds[depth], m) == LeavesIn(rounds[depth], m - 1) + 1
      && Occurs(rounds, depth, m - 1, sym) == if rounds[depth][m - 1].sym == sym then 1 else 0
    ensures m > 0 && rounds[depth][m - 1].Package? ==>
      && LeavesIn(rounds[depth], m) == LeavesIn(rounds[depth], m - 1)
      && (depth > 0 && rounds[depth][m - 1].a < |rounds[depth - 1]| && rounds[depth][m - 1].b < |rounds[depth - 1]| ==>
            Occurs(rounds, depth, m - 1, sym) == Occurs(rounds, depth - 1, rounds[depth][m - 1].a, sym)
                                                 + Occurs(rounds, depth - 1, rounds[depth][m - 1].b, sym))
  {
  }

  lemma SameSymbol(leaves: seq<Item>, i: nat, j: nat)
    requires DistinctSymbols(leaves) && i < |leaves| && j < |leaves|
    ensures leaves[i].LeafItem? && leaves[j].LeafItem?
    ensures leaves[i].sym == leaves[j].sym <==> i == j
  {
  }

  // A symbol without a leaf is never met.
  ghost predicate ForksAt(rounds: seq<seq<Item>>, depth: nat, at: nat)
    requires depth < |rounds| && at < |rounds[depth]|
  {
    var x := rounds[depth][at];
    x.Package? && depth > 0 && x.a < |rounds[depth - 1]| && x.b < |rounds[depth - 1]|
  }

  // One step of Occurs, for all symbols.
  lemma OccursOneStep(rounds: seq<seq<Item>>, depth: nat, at: nat)
    requires depth < |rounds| && at < |rounds[depth]|
    ensures rounds[depth][at].LeafItem? ==> forall s :: Occurs(rounds, depth, at, s) == if s == rounds[depth][at].sym then 1 else 0
    ensures ForksAt(rounds, depth, at) ==> (forall s ::
      Occurs(rounds, depth, at, s) == Occurs(rounds, depth - 1, rounds[depth][at].a, s) + Occurs(rounds, depth - 1, rounds[depth][at].b, s))
  {
  }

  // An item is a leaf's own, or forks to two items of the round before.
  lemma ItemBelow(leaves: seq<Item>, rounds: seq<seq<Item>>, depth: nat, at: nat)
    requires AreRounds(leaves, rounds) && depth < |rounds| && at < |rounds[depth]|
    ensures rounds[depth][at].Package? ==> ForksAt(rounds, depth, at)
    ensures rounds[depth][at].LeafItem? ==>
      LeavesIn(rounds[depth], at) < |leaves| && leaves[LeavesIn(rounds[depth], at)] == rounds[depth][at]
  {
    hide AreRounds, IsRound, AreItems, Ascending, AreLeaves;
    RoundAt(leaves, rounds, depth);
    RoundItems(leaves, Prev(rounds, depth), rounds[depth]);
    ItemAt(leaves, Prev(rounds, depth), rounds[depth], at);
  }

  lemma {:induction false} NeverOccurs(leaves: seq<Item>, rounds: seq<seq<Item>>, depth: nat, at: nat, sym: nat)
    requires AreRounds(leaves, rounds) && depth < |rounds| && at < |rounds[depth]|
    requires forall j :: 0 <= j < |leaves| ==> !IsSymbol(leaves[j], sym)
    ensures Occurs(rounds, depth, at, sym) == 0
    decreases depth
  {
    hide AreRounds, Occurs;
    ItemBelow(leaves, rounds, depth, at);
    OccursOneStep(rounds, depth, at);
    var x := rounds[depth][at];
    if x.Package? {
      NeverOccurs(leaves, rounds, depth - 1, x.a, sym);
      NeverOccurs(leaves, rounds, depth - 1, x.b, sym);
    } else {
      assert !IsSymbol(leaves[LeavesIn(rounds[depth], at)], sym);
    }
  }

  lemma {:induction false} NeverOccursFront(leaves: seq<Item>, rounds: seq<seq<Item>>, depth: nat, m: nat, sym: nat)
    requires AreRounds(leaves, rounds) && depth < |rounds| && m <= |rounds[depth]|
    requires forall j :: 0 <= j < |leaves| ==> !IsSymbol(leaves[j], sym)
    ensures OccursFront(rounds, depth, m, sym) == 0
  {
    hide AreRounds;
    if m > 0 {
      NeverOccursFront(leaves, rounds, depth, m - 1, sym);
      NeverOccurs(leaves, rounds, depth, m - 1, sym);
    }
  }

  lemma {:induction false} TakenMonotone(leaves: seq<Item>, rounds: seq<seq<Item>>, m: nat, r0: nat, r: nat)
    requires AreRounds(leaves, rounds) && r0 <= r < |rounds| && m <= |rounds[|rounds| - 1]|
    ensures Taken(leaves, rounds, m, r0) <= Taken(leaves, rounds, m, r)
    decreases r
  {
    hide AreRounds, Taken;
    if r0 < r {
      TakenNested(leaves, rounds, m, r);
      TakenMonotone(leaves, rounds, m, r0, r - 1);
    }
  }

  // Up to round r, leaf j is met once in every round from the first that takes it.
  lemma {:induction false} OccursBounds(leaves: seq<Item>, rounds: seq<seq<Item>>, m: nat, r: nat, r0: nat, j: nat)
    requires AreRounds(leaves, rounds) && DistinctSymbols(leaves) && r0 <= r < |rounds|
    requires m <= |rounds[|rounds| - 1]| && j < |leaves|
    ensures var k := OccursFront(rounds, r, Chosen(leaves, rounds, m, r), leaves[j].sym);
      && k <= r + 1
      && (if j < Taken(leaves, rounds, m, r0) then k >= r - r0 + 1 else k <= r - r0)
    decreases r
  {
    hide AreRounds, LeavesIn, OccursFront, Chosen;
    var ch, t := Chosen(leaves, rounds, m, r), Taken(leaves, rounds, m, r);
    OccursSplit(leaves, rounds, r, ch, j, ch - t);
    TakenMonotone(leaves, rounds, m, r0, r);
    if r > 0 {
      ChosenStep(leaves, rounds, m, r);
      TakenNested(leaves, rounds, m, r);
      OccursBounds(leaves, rounds, m, r - 1, if r0 < r then r0 else r - 1, j);
    }
  }

  // Every symbol's length raised by how often the symbol is met below one item.
  ghost predicate Raised(rounds: seq<seq<Item>>, depth: nat, at: nat, was: seq<nat>, now: seq<nat>)
    requires depth < |rounds| && at < |rounds[depth]|
  {
    |now| == |was| && forall s :: 0 <= s < |was| ==> now[s] == was[s] + Occurs(rounds, depth, at, s)
  }

  lemma RaisedByLeaf(rounds: seq<seq<Item>>, depth: nat, at: nat, was: seq<nat>)
    requires depth < |rounds| && at < |rounds[depth]| && rounds[depth][at].LeafItem? && rounds[depth][at].sym < |was|
    ensures var s := rounds[depth][at].sym; Raised(rounds, depth, at, was, was[s := was[s] + 1])
  {
    hide Occurs;
    OccursOneStep(rounds, depth, at);
  }

  lemma RaisedTwice(rounds: seq<seq<Item>>, depth: nat, at: nat, was: seq<nat>, mid: seq<nat>, now: seq<nat>)
    requires depth < |rounds| && at < |rounds[depth]| && ForksAt(rounds, depth, at)
    requires Raised(rounds, depth - 1, rounds[depth][at].a, was, mid) && Raised(rounds, depth - 1, rounds[depth][at].b, mid, now)
    ensures Raised(rounds, depth, at, was, now)
  {
    hide Occurs;
    OccursOneStep(rounds, depth, at);
  }

  // The recursion that counts: every leaf under an item adds a bit to its symbol.
  method Count(ghost leaves: seq<Item>, rounds: seq<seq<Item>>, depth: nat, at: nat, lengths: array<nat>)
    requires AreRounds(leaves, rounds) && depth < |rounds| && at < |rounds[depth]|
    requires forall j :: 0 <= j < |leaves| ==> leaves[j].LeafItem? && leaves[j].sym < lengths.Length
    modifies lengths
    ensures Raised(rounds, depth, at, old(lengths[..]), lengths[..])
    decreases depth
  {
    hide AreRounds, Raised, LeavesIn;
    ItemBelow(leaves, rounds, depth, at);
    ghost var was := lengths[..];
    match rounds[depth][at] {
      case LeafItem(_, sym) =>
        RaisedByLeaf(rounds, depth, at, was);
        lengths[sym] := lengths[sym] + 1;
        assert lengths[..] == was[sym := was[sym] + 1];
      case Package(_, a, b) =>
        Count(leaves, rounds, depth - 1, a, lengths);
        ghost var mid := lengths[..];
        Count(leaves, rounds, depth - 1, b, lengths);
        RaisedTwice(rounds, depth, at, was, mid, lengths[..]);
    }
  }

  // ---------------------------------------------------------------- the algorithm

  // Symbols by ascending count; the sort is stable.
  function InsertSymbol(order: seq<nat>, s: nat, counts: seq<nat>): seq<nat>
    requires s < |counts| && forall i :: 0 <= i < |order| ==> order[i] < |counts|
  {
    if order == [] || counts[s] < counts[order[0]] then [s] + order
    else [order[0]] + InsertSymbol(order[1..], s, counts)
  }

  ghost predicate SortedByCount(order: seq<nat>, counts: seq<nat>) {
    && (forall i :: 0 <= i < |order| ==> order[i] < |counts|)
    && (forall i, j :: 0 <= i < j < |order| ==> counts[order[i]] <= counts[order[j]])
  }

  lemma SortedByCountCons(x: nat, rest: seq<nat>, counts: seq<nat>)
    requires rest != [] && SortedByCount(rest, counts) && x < |counts| && counts[x] <= counts[rest[0]]
    ensures SortedByCount([x] + rest, counts)
  {
    forall i | 0 <= i < |rest| ensures counts[x] <= counts[rest[i]] {
      assert counts[rest[0]] <= counts[rest[i]];
    }
  }

  lemma {:induction false} InsertSymbolSorted(order: seq<nat>, s: nat, counts: seq<nat>)
    requires s < |counts| && SortedByCount(order, counts)
    ensures var r := InsertSymbol(order, s, counts);
      && |r| == |order| + 1 && multiset(r) == multiset(order) + multiset{s} && SortedByCount(r, counts)
      && (r[0] == s || (order != [] && r[0] == order[0]))
  {
    if order != [] && counts[s] >= counts[order[0]] {
      var rest := InsertSymbol(order[1..], s, counts);
      InsertSymbolSorted(order[1..], s, counts);
      assert order == [order[0]] + order[1..];
      SortedByCountCons(order[0], rest, counts);
    }
  }

  function SortSymbols(syms: seq<nat>, counts: seq<nat>): (r: seq<nat>)
    requires forall i :: 0 <= i < |syms| ==> syms[i] < |counts|
    ensures |r| == |syms| && multiset(r) == multiset(syms) && SortedByCount(r, counts)
  {
    if syms == [] then []
    else
      var m := |syms| - 1;
      assert syms == syms[..m] + [syms[m]];
      InsertSymbolSorted(SortSymbols(syms[..m], counts), syms[m], counts);
      InsertSymbol(SortSymbols(syms[..m], counts), syms[m], counts)
  }

  function LeafItems(counts: seq<nat>, syms: seq<nat>): (leaves: seq<Item>)
    requires forall i :: 0 <= i < |syms| ==> syms[i] < |counts|
    ensures |leaves| == |syms|
    ensures forall i :: 0 <= i < |leaves| ==> leaves[i] == LeafItem(counts[syms[i]], syms[i])
  {
    seq(|syms|, i requires 0 <= i < |syms| => LeafItem(counts[syms[i]], syms[i]))
  }

  // The cheapest lengths of at most limit bits.
  ghost predicate CheapestWithin(counts: seq<nat>, lengths: seq<nat>, limit: nat)
    requires |lengths| == |counts|
  {
    forall l: seq<nat> :: PrefixLengths(counts, l, limit) ==> Cost(counts, lengths) <= Cost(counts, l)
  }

  // The limit rounds: the leaves, then each round from the one before.
  method Rounds(leaves: seq<Item>, limit: nat) returns (rounds: seq<seq<Item>>)
    requires AreLeaves(leaves) && limit > 0
    ensures |rounds| == limit && AreRounds(leaves, rounds)
  {
    hide IsRound, AreRounds, AreLeaves;
    rounds := [leaves];
    FirstRounds(leaves);
    while |rounds| < limit
      invariant 1 <= |rounds| <= limit && AreRounds(leaves, rounds)
    {
      var prev := rounds[|rounds| - 1];
      RoundAt(leaves, rounds, |rounds| - 1);
      RoundItems(leaves, Prev(rounds, |rounds| - 1), prev);
      var next := MergeRound(leaves, prev);
      RoundsSnoc(leaves, rounds, next);
      rounds := rounds + [next];
    }
  }

  lemma FirstRounds(leaves: seq<Item>)
    requires AreLeaves(leaves)
    ensures AreRounds(leaves, [leaves])
  {
    FirstRound(leaves);
  }

  lemma PrevSnoc(rounds: seq<seq<Item>>, next: seq<Item>, r: nat)
    requires r <= |rounds|
    ensures Prev(rounds + [next], r) == Prev(rounds, r)
    ensures r > 0 ==> Prev(rounds, r) == rounds[r - 1]
    ensures (rounds + [next])[r] == if r < |rounds| then rounds[r] else next
  {
  }

  lemma RoundsSnoc(leaves: seq<Item>, rounds: seq<seq<Item>>, next: seq<Item>)
    requires AreRounds(leaves, rounds) && |rounds| > 0 && IsRound(leaves, rounds[|rounds| - 1], next)
    ensures AreRounds(leaves, rounds + [next])
  {
    hide IsRound, Prev, AreLeaves;
    var more := rounds + [next];
    PrevSnoc(rounds, next, 0);
    forall r | 0 <= r < |more| ensures IsRound(leaves, Prev(more, r), more[r]) {
      PrevSnoc(rounds, next, r);
    }
  }

  // lengths[s] is how often s is met below the first m items of the last round.
  ghost predicate CountedOn(rounds: seq<seq<Item>>, m: nat, lengths: seq<nat>) {
    && |rounds| > 0 && m <= |rounds[|rounds| - 1]|
    && forall s :: 0 <= s < |lengths| ==> lengths[s] == OccursFront(rounds, |rounds| - 1, m, s)
  }

  method CountSelection(ghost leaves: seq<Item>, rounds: seq<seq<Item>>, m: nat, alphabet: nat) returns (lengths: seq<nat>)
    requires |rounds| > 0 && m <= |rounds[|rounds| - 1]| && AreRounds(leaves, rounds)
    requires forall j :: 0 <= j < |leaves| ==> leaves[j].LeafItem? && leaves[j].sym < alphabet
    ensures |lengths| == alphabet && CountedOn(rounds, m, lengths)
  {
    hide AreRounds, Occurs;
    var counter := new nat[alphabet](i => 0);
    var last := |rounds| - 1;
    for at := 0 to m
      invariant forall s :: 0 <= s < alphabet ==> counter[..][s] == OccursFront(rounds, last, at, s)
    {
      Count(leaves, rounds, last, at, counter);
    }
    lengths := counter[..];
  }

  // Requires, as the program does, that the symbols fit a code of limit bits.
  method PackageMerge(counts: seq<nat>, limit: nat) returns (lengths: seq<nat>)
    requires |Used(counts)| <= Pow2(limit)
    ensures CheapestPrefixLengths(counts, lengths, Max(1, limit))
    ensures CheapestWithin(counts, lengths, limit)
  {
    hide CheapestPrefixLengths, CheapestWithin, Used, AreRounds, CountedOn, IsReady;
    var used := Used(counts);
    var syms := SortSymbols(used, counts);
    var n := |syms|;
    if n <= 1 {
      lengths := FewLengths(counts, used);
      FewWithin(counts, lengths, limit);
    } else {
      var leaves := LeafItems(counts, syms);
      LeavesReady(counts, syms, leaves);
      ReadyLeaves(counts, syms, leaves);
      assert limit > 0 by { assert Pow2(0) == 1; }
      var rounds := Rounds(leaves, limit);
      LastRoundSize(leaves, rounds);
      lengths := CountSelection(leaves, rounds, 2 * n - 2, |counts|);
      Selected(counts, lengths, syms, leaves, rounds);
    }
  }

  method FewLengths(counts: seq<nat>, used: seq<nat>) returns (lengths: seq<nat>)
    requires used == Used(counts) && |used| <= 1
    ensures |lengths| == |counts|
    ensures forall s :: 0 <= s < |counts| ==> lengths[s] == if counts[s] > 0 then 1 else 0
  {
    UsedIndices(counts);
    lengths := seq(|counts|, s => 0);
    for i := 0 to |used|
      invariant |lengths| == |counts|
      invariant forall s :: 0 <= s < |counts| ==> lengths[s] == if s in used[..i] then 1 else 0
    {
      lengths := lengths[used[i] := 1];
    }
    assert used[..|used|] == used;
  }

  lemma FewWithin(counts: seq<nat>, lengths: seq<nat>, limit: nat)
    requires |Used(counts)| <= 1 && |lengths| == |counts|
    requires forall s :: 0 <= s < |counts| ==> lengths[s] == if counts[s] > 0 then 1 else 0
    ensures CheapestPrefixLengths(counts, lengths, Max(1, limit)) && CheapestWithin(counts, lengths, limit)
  {
    FewSymbols(counts, lengths);
    SameSpace(counts, lengths, 1, Max(1, limit));
  }

  // Lengths within both limits are a prefix code by one measure if by the other.
  lemma SameSpace(counts: seq<nat>, l: seq<nat>, a: nat, b: nat)
    requires |l| == |counts| && Within(l, a) && Within(l, b)
    ensures PrefixLengths(counts, l, a) <==> PrefixLengths(counts, l, b)
    ensures CodeSpace(l, a) == Pow2(a) <==> CodeSpace(l, b) == Pow2(b)
  {
    if a <= b { SpaceDeeper(l, a, b); } else { SpaceDeeper(l, b, a); }
  }

  lemma {:induction false} SpaceDeeper(l: seq<nat>, a: nat, b: nat)
    requires Within(l, a) && a <= b
    ensures Within(l, b) && CodeSpace(l, b) == Pow2(b - a) * CodeSpace(l, a) && Pow2(b) == Pow2(b - a) * Pow2(a)
    ensures CodeSpace(l, b) <= Pow2(b) <==> CodeSpace(l, a) <= Pow2(a)
    ensures CodeSpace(l, b) == Pow2(b) <==> CodeSpace(l, a) == Pow2(a)
    decreases b
  {
    if a < b {
      SpaceDeeper(l, a, b - 1);
      SumScale(CodeShares(l, b - 1), CodeShares(l, b), 2);
      Doubled(CodeSpace(l, b - 1), Pow2(b - 1), Pow2(b - 1 - a), CodeSpace(l, a), Pow2(a));
    }
  }

  lemma Doubled(x: int, y: int, k: int, u: int, v: int)
    requires x == k * u && y == k * v
    ensures 2 * x == 2 * k * u && 2 * y == 2 * k * v
  {
  }

  // The leaves are the used symbols, each once, by ascending count.
  ghost predicate IsReady(counts: seq<nat>, syms: seq<nat>, leaves: seq<Item>) {
    && ListsUsed(counts, syms) && leaves == LeafItems(counts, syms)
    && AreLeaves(leaves) && DistinctSymbols(leaves) && ItemWeights(leaves) == Pick(counts, syms)
  }

  lemma LeavesReady(counts: seq<nat>, syms: seq<nat>, leaves: seq<Item>)
    requires multiset(syms) == multiset(Used(counts)) && SortedByCount(syms, counts)
    requires leaves == LeafItems(counts, syms)
    ensures IsReady(counts, syms, leaves)
  {
    hide Used;
    UsedListed(counts);
    forall i | 0 <= i < |syms| ensures counts[syms[i]] > 0 {
      assert syms[i] in multiset(syms) && syms[i] in Used(counts);
    }
    forall i, j | 0 <= i < j < |syms| ensures syms[i] != syms[j] {
      if syms[i] == syms[j] {
        TwoOccurrences(syms, i, j);
        UsedOnce(counts, syms[i]);
      }
    }
  }

  lemma ReadyLeaves(counts: seq<nat>, syms: seq<nat>, leaves: seq<Item>)
    requires IsReady(counts, syms, leaves)
    ensures AreLeaves(leaves) && |leaves| == |syms|
    ensures forall j :: 0 <= j < |leaves| ==> leaves[j].LeafItem? && leaves[j].sym < |counts|
  {
  }

  lemma TwoOccurrences(s: seq<nat>, i: nat, j: nat)
    requires i < j < |s| && s[i] == s[j]
    ensures multiset(s)[s[i]] >= 2
  {
    assert s == s[..i] + [s[i]] + s[i + 1..j] + [s[j]] + s[j + 1..];
  }

  lemma {:induction false} UsedOnce(counts: seq<nat>, s: nat)
    ensures multiset(Used(counts))[s] <= 1
    decreases |counts|
  {
    if counts != [] {
      var m := |counts| - 1;
      UsedOnce(counts[..m], s);
      if s == m { assert s !in Used(counts[..m]); }
    }
  }

  // The counts made by the selection are the promised lengths.
  lemma Selected(counts: seq<nat>, lengths: seq<nat>, syms: seq<nat>, leaves: seq<Item>, rounds: seq<seq<Item>>)
    requires |lengths| == |counts| && IsReady(counts, syms, leaves) && |leaves| >= 2
    requires AreRounds(leaves, rounds) && CountedOn(rounds, 2 * |leaves| - 2, lengths)
    ensures CheapestPrefixLengths(counts, lengths, |rounds|) && CheapestWithin(counts, lengths, |rounds|)
  {
    hide IsReady, CountedOn, AreRounds, Used, ListsUsed, CountsTaken, Pick, CodeSpace, Kraft, Cost, Feasible, Pow2;
    ReadyListed(counts, lengths, syms, leaves);
    var limit, c := |rounds|, Pick(lengths, syms);
    CountedTaken(counts, lengths, syms, leaves, rounds, c);
    SelectionKraft(leaves, rounds, c);
    UsedLengths(counts, lengths, syms, leaves, rounds, c);
    UsedWithin(counts, lengths, limit, syms);
    UsedSpace(counts, lengths, limit, syms);
    UsedCost(counts, lengths, syms);
    forall l: seq<nat> | PrefixLengths(counts, l, limit)
      ensures Cost(counts, lengths) <= Cost(counts, l)
    {
      UsedCost(counts, l, syms);
      UsedFeasible(counts, l, limit, syms);
      SelectionCheapest(leaves, rounds, c, Pick(l, syms));
    }
  }

  lemma ReadyListed(counts: seq<nat>, lengths: seq<nat>, syms: seq<nat>, leaves: seq<Item>)
    requires |lengths| == |counts| && IsReady(counts, syms, leaves)
    ensures ListsUsed(counts, syms) && ItemWeights(leaves) == Pick(counts, syms) && |leaves| == |syms|
    ensures forall i :: 0 <= i < |syms| ==> syms[i] < |lengths|
  {
  }

  lemma CountedTaken(counts: seq<nat>, lengths: seq<nat>, syms: seq<nat>, leaves: seq<Item>, rounds: seq<seq<Item>>, c: seq<nat>)
    requires |lengths| == |counts| && IsReady(counts, syms, leaves) && |leaves| >= 2
    requires |c| == |leaves| && forall j :: 0 <= j < |c| ==> syms[j] < |lengths| && c[j] == lengths[syms[j]]
    requires AreRounds(leaves, rounds) && CountedOn(rounds, 2 * |leaves| - 2, lengths)
    ensures CountsTaken(leaves, rounds, 2 * |leaves| - 2, c)
  {
    hide AreRounds, Used, OccursFront, AreLeaves, DistinctSymbols, Taken;
    var last, m := |rounds| - 1, 2 * |leaves| - 2;
    assert Chosen(leaves, rounds, m, last) == m;
    hide Chosen;
    forall j, r | 0 <= j < |c| && 0 <= r < |rounds|
      ensures c[j] >= |rounds| - r <==> j < Taken(leaves, rounds, m, r)
    {
      OccursBounds(leaves, rounds, m, last, r, j);
      assert c[j] == lengths[leaves[j].sym];
    }
    forall j | 0 <= j < |c| ensures c[j] <= |rounds| {
      OccursBounds(leaves, rounds, m, last, 0, j);
      assert c[j] == lengths[leaves[j].sym];
    }
  }

  // Used symbols get a length, unused ones none.
  lemma UsedLengths(counts: seq<nat>, lengths: seq<nat>, syms: seq<nat>, leaves: seq<Item>, rounds: seq<seq<Item>>, c: seq<nat>)
    requires |lengths| == |counts| && IsReady(counts, syms, leaves)
    requires |c| == |leaves| >= 2 && forall j :: 0 <= j < |c| ==> syms[j] < |lengths| && c[j] == lengths[syms[j]]
    requires Within(c, |rounds|) && Kraft(c, |rounds|) == Pow2(|rounds|)
    requires AreRounds(leaves, rounds) && CountedOn(rounds, 2 * |leaves| - 2, lengths)
    ensures forall s :: 0 <= s < |counts| ==> (counts[s] > 0 <==> lengths[s] > 0)
  {
    hide AreRounds, OccursFront, Kraft, Used, AreLeaves, DistinctSymbols, Pick, ItemWeights;
    forall s | 0 <= s < |counts| ensures counts[s] > 0 <==> lengths[s] > 0 {
      if counts[s] > 0 {
        var i := UsedHas(counts, s);
        assert s in multiset(Used(counts)) && s in multiset(syms);
        var k :| 0 <= k < |syms| && syms[k] == s;
        CompleteCodePositive(c, |rounds|, k);
        assert c[k] == lengths[s];
      } else {
        assert forall j :: 0 <= j < |leaves| ==> !IsSymbol(leaves[j], s);
        NeverOccursFront(leaves, rounds, |rounds| - 1, 2 * |leaves| - 2, s);
      }
    }
  }

  lemma CompleteCodePositive(c: seq<nat>, limit: nat, k: nat)
    requires |c| >= 2 && k < |c| && Within(c, limit) && Kraft(c, limit) == Pow2(limit)
    ensures c[k] > 0
  {
    hide Kraft, Within;
    RemoveNode(c, c, limit, k);
    KraftPositive(RemoveAt(c, k), limit);
  }

  lemma KraftPositive(l: seq<nat>, limit: nat)
    requires l != [] && Within(l, limit)
    ensures Kraft(l, limit) > 0
  {
    SumNonNegative(Shares(l, limit)[1..]);
  }

  // build_lengths: plain Huffman when it fits the limit, else package-merge; in both
  // cases the cheapest prefix code within the limit.
  // Huffman's lengths if they are within the limit, and only then.
  method BuildLengths(counts: seq<nat>, limit: nat) returns (lengths: seq<nat>, ghost h: seq<nat>)
    requires |Used(counts)| <= Pow2(limit)
    ensures |h| == |counts| && Cheapest(counts, h) && (Within(h, limit) ==> lengths == h)
    ensures CheapestPrefixLengths(counts, lengths, Max(1, limit))
    ensures CheapestWithin(counts, lengths, limit)
  {
    hide CheapestPrefixLengths, CheapestWithin, Cheapest;
    lengths := Huffman.HuffmanLengths(counts);
    h := lengths;
    LengthsOf(counts, lengths);
    if forall s :: 0 <= s < |lengths| ==> lengths[s] <= limit {
      HuffmanWithin(counts, lengths, limit);
    } else {
      lengths := PackageMerge(counts, limit);
    }
  }

  lemma LengthsOf(counts: seq<nat>, lengths: seq<nat>)
    requires CheapestPrefixLengths(counts, lengths, Max(1, |Used(counts)| - 1))
    ensures |lengths| == |counts|
  {
  }

  lemma HuffmanWithin(counts: seq<nat>, lengths: seq<nat>, limit: nat)
    requires CheapestPrefixLengths(counts, lengths, Max(1, |Used(counts)| - 1)) && Cheapest(counts, lengths)
    requires Within(lengths, limit)
    ensures CheapestPrefixLengths(counts, lengths, Max(1, limit)) && CheapestWithin(counts, lengths, limit)
  {
    SameSpace(counts, lengths, Max(1, |Used(counts)| - 1), Max(1, limit));
  }
}
