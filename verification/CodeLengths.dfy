// src/huffman.rs: what code lengths for an alphabet promise, and the sums they are
// measured by.

module CodeLengths {
  import opened Common
  import opened PrefixCodeTheory

  // ---------------------------------------------------------------- what is promised

  // A symbol's share of the code space; a length of 0 means "no code".
  ghost function CodeShares(l: seq<nat>, limit: nat): (s: seq<int>)
    requires Within(l, limit)
    ensures |s| == |l|
    ensures forall i :: 0 <= i < |s| ==> s[i] == if l[i] == 0 then 0 else Pow2(limit - l[i])
  {
    seq(|l|, s requires 0 <= s < |l| => if l[s] == 0 then 0 else Pow2(limit - l[s]))
  }

  // The part of the code space the lengths use, in units of 2^-limit.
  ghost function CodeSpace(l: seq<nat>, limit: nat): int
    requires Within(l, limit)
  {
    Sum(CodeShares(l, limit))
  }

  // Lengths of at most limit bits of a prefix code for the symbols that occur.
  ghost predicate PrefixLengths(counts: seq<nat>, l: seq<nat>, limit: nat) {
    && |l| == |counts|
    && Within(l, limit)
    && (forall s :: 0 <= s < |l| && counts[s] > 0 ==> l[s] > 0)
    && CodeSpace(l, limit) <= Pow2(limit)
  }

  // ---------------------------------------------------------------- symbols that occur

  function Used(counts: seq<nat>): (u: seq<nat>)
    ensures forall i :: 0 <= i < |u| ==> u[i] < |counts| && counts[u[i]] > 0
    ensures forall i, j :: 0 <= i < j < |u| ==> u[i] < u[j]
    ensures |u| <= |counts|
  {
    if counts == [] then []
    else
      var m := |counts| - 1;
      var u := Used(counts[..m]);
      if counts[m] > 0 then u + [m] else u
  }

  function Pick(s: seq<nat>, at: seq<nat>): (r: seq<nat>)
    requires forall i :: 0 <= i < |at| ==> at[i] < |s|
    ensures |r| == |at|
    ensures forall i :: 0 <= i < |r| ==> r[i] == s[at[i]]
  {
    seq(|at|, i requires 0 <= i < |at| => s[at[i]])
  }

  ghost function PickInt(s: seq<int>, at: seq<nat>): (r: seq<int>)
    requires forall i :: 0 <= i < |at| ==> at[i] < |s|
    ensures |r| == |at|
    ensures forall i :: 0 <= i < |r| ==> r[i] == s[at[i]]
  {
    seq(|at|, i requires 0 <= i < |at| => s[at[i]])
  }

  lemma PickIntAppend(f: seq<int>, a: seq<nat>, b: seq<nat>)
    requires forall i :: 0 <= i < |a| ==> a[i] < |f|
    requires forall i :: 0 <= i < |b| ==> b[i] < |f|
    ensures PickInt(f, a + b) == PickInt(f, a) + PickInt(f, b)
  {
  }

  lemma PickIntSnoc(s: seq<int>, at: seq<nat>, m: nat)
    requires m < |s| && forall i :: 0 <= i < |at| ==> at[i] < m
    ensures PickInt(s, at) == PickInt(s[..m], at)
    ensures PickInt(s, at + [m]) == PickInt(s[..m], at) + [s[m]]
  {
  }

  lemma {:induction false} UsedHas(counts: seq<nat>, s: nat) returns (i: nat)
    requires s < |counts| && counts[s] > 0
    ensures i < |Used(counts)| && Used(counts)[i] == s
    decreases |counts|
  {
    var m := |counts| - 1;
    if s == m { i := |Used(counts)| - 1; } else { i := UsedHas(counts[..m], s); }
  }

  // Summing only over the symbols that occur.
  lemma {:induction false} SumUsed(counts: seq<nat>, s: seq<int>)
    requires |s| == |counts|
    requires forall k :: 0 <= k < |s| ==> counts[k] > 0 || s[k] == 0
    ensures Sum(s) == Sum(PickInt(s, Used(counts)))
    decreases |s|
  {
    if s != [] {
      var m := |s| - 1;
      var init, u := s[..m], Used(counts[..m]);
      SumUsed(counts[..m], init);
      SumUsedSnoc(s, init, u, m);
      if counts[m] > 0 {
        assert Used(counts) == u + [m];
      } else {
        assert Used(counts) == u;
      }
    }
  }

  lemma SumUsedSnoc(s: seq<int>, init: seq<int>, u: seq<nat>, m: nat)
    requires |s| == m + 1 && init == s[..m]
    requires forall i :: 0 <= i < |u| ==> u[i] < m
    requires Sum(init) == Sum(PickInt(init, u))
    ensures Sum(s) == Sum(PickInt(s, u + [m]))
    ensures s[m] == 0 ==> Sum(s) == Sum(PickInt(s, u))
  {
    hide PickInt, Sum;
    assert s == init + [s[m]];
    SumSnoc(init, s[m]);
    PickIntSnoc(s, u, m);
    SumSnoc(PickInt(init, u), s[m]);
  }

  // ---------------------------------------------------------------- orders of summation

  ghost function Identity(n: nat): (s: seq<nat>)
    ensures |s| == n && forall i :: 0 <= i < n ==> s[i] == i
  {
    seq(n, i requires 0 <= i < n => i)
  }

  lemma RemoveAtMultiset<T>(s: seq<T>, k: nat)
    requires k < |s|
    ensures multiset(RemoveAt(s, k)) == multiset(s) - multiset{s[k]}
  {
    assert s == s[..k] + ([s[k]] + s[k + 1..]);
  }

  lemma PickWithout(f: seq<int>, at: seq<nat>, k: nat, rest: seq<nat>)
    requires forall i :: 0 <= i < |at| ==> at[i] < |f|
    requires k < |at| && rest == RemoveAt(at, k)
    ensures forall i :: 0 <= i < |rest| ==> rest[i] < |f|
    ensures RemoveAt(PickInt(f, at), k) == PickInt(f, rest)
  {
  }

  // Summing in any order.
  lemma {:induction false} SumSameElements(f: seq<int>, a: seq<nat>, b: seq<nat>)
    requires multiset(a) == multiset(b)
    requires forall i :: 0 <= i < |a| ==> a[i] < |f|
    requires forall i :: 0 <= i < |b| ==> b[i] < |f|
    ensures Sum(PickInt(f, a)) == Sum(PickInt(f, b))
    decreases |a|
  {
    hide PickInt;
    assert |multiset(a)| == |multiset(b)|;
    if a == [] {
      assert b == [];
    } else {
      var x := |a| - 1;
      assert a[x] in multiset(b);
      var k :| 0 <= k < |b| && b[k] == a[x];
      var rest, init := RemoveAt(b, k), RemoveAt(a, x);
      RemoveAtMultiset(a, x);
      RemoveAtMultiset(b, k);
      PickWithout(f, a, x, init);
      PickWithout(f, b, k, rest);
      SumSameElements(f, init, rest);
      SumRemoveAt(PickInt(f, a), x);
      SumRemoveAt(PickInt(f, b), k);
    }
  }

  lemma SumPermuted(f: seq<int>, at: seq<nat>)
    requires multiset(at) == multiset(Identity(|f|))
    requires forall i :: 0 <= i < |at| ==> at[i] < |f|
    ensures Sum(PickInt(f, at)) == Sum(f)
  {
    SumSameElements(f, at, Identity(|f|));
    assert PickInt(f, Identity(|f|)) == f;
  }

  // An order of the symbols that occur.
  ghost predicate ListsUsed(counts: seq<nat>, syms: seq<nat>) {
    && multiset(syms) == multiset(Used(counts))
    && (forall i :: 0 <= i < |syms| ==> syms[i] < |counts| && counts[syms[i]] > 0)
  }

  lemma UsedListed(counts: seq<nat>)
    ensures ListsUsed(counts, Used(counts))
  {
  }

  // The cost and the code space of an alphabet are those of its used symbols, in any order.
  lemma UsedCost(counts: seq<nat>, l: seq<nat>, syms: seq<nat>)
    requires |l| == |counts| && ListsUsed(counts, syms)
    ensures Cost(counts, l) == Cost(Pick(counts, syms), Pick(l, syms))
  {
    SumUsed(counts, Products(counts, l));
    SumSameElements(Products(counts, l), Used(counts), syms);
    assert PickInt(Products(counts, l), syms) == Products(Pick(counts, syms), Pick(l, syms));
  }

  lemma UsedSpace(counts: seq<nat>, l: seq<nat>, limit: nat, syms: seq<nat>)
    requires |l| == |counts| && Within(l, limit) && ListsUsed(counts, syms)
    requires forall s :: 0 <= s < |l| ==> (counts[s] > 0 <==> l[s] > 0)
    ensures Within(Pick(l, syms), limit) && CodeSpace(l, limit) == Kraft(Pick(l, syms), limit)
  {
    hide CodeShares, Shares, PickInt, Used, Pow2;
    SumUsed(counts, CodeShares(l, limit));
    SumSameElements(CodeShares(l, limit), Used(counts), syms);
    SharesPicked(l, limit, syms);
  }

  lemma SharesPicked(l: seq<nat>, limit: nat, syms: seq<nat>)
    requires Within(l, limit)
    requires forall i :: 0 <= i < |syms| ==> syms[i] < |l| && l[syms[i]] > 0
    ensures Within(Pick(l, syms), limit)
    ensures PickInt(CodeShares(l, limit), syms) == Shares(Pick(l, syms), limit)
  {
  }

  // Codes given to unused symbols only take space away from the used ones.
  lemma UsedFeasible(counts: seq<nat>, l: seq<nat>, limit: nat, syms: seq<nat>)
    requires PrefixLengths(counts, l, limit) && ListsUsed(counts, syms)
    ensures Feasible(Pick(l, syms), limit)
  {
    hide Pick, CodeSpace, Kraft, ListsUsed;
    var trimmed := Trimmed(counts, l);
    UsedSpace(counts, trimmed, limit, syms);
    TrimmedSpace(counts, l, limit);
    TrimmedPick(counts, l, syms);
  }

  ghost function Trimmed(counts: seq<nat>, l: seq<nat>): (t: seq<nat>)
    requires |l| == |counts|
    ensures |t| == |l| && forall s :: 0 <= s < |t| ==> t[s] == if counts[s] > 0 then l[s] else 0
  {
    seq(|l|, s requires 0 <= s < |l| => if counts[s] > 0 then l[s] else 0)
  }

  lemma TrimmedSpace(counts: seq<nat>, l: seq<nat>, limit: nat)
    requires |l| == |counts| && Within(l, limit)
    ensures CodeSpace(Trimmed(counts, l), limit) <= CodeSpace(l, limit)
  {
    SumMonotone(CodeShares(Trimmed(counts, l), limit), CodeShares(l, limit));
  }

  lemma TrimmedPick(counts: seq<nat>, l: seq<nat>, syms: seq<nat>)
    requires |l| == |counts| && ListsUsed(counts, syms)
    ensures Pick(Trimmed(counts, l), syms) == Pick(l, syms)
  {
  }

  lemma UsedWithin(counts: seq<nat>, l: seq<nat>, limit: nat, syms: seq<nat>)
    requires |l| == |counts| && ListsUsed(counts, syms) && Within(Pick(l, syms), limit)
    requires forall s :: 0 <= s < |counts| && counts[s] == 0 ==> l[s] == 0
    ensures Within(l, limit)
  {
    forall s | 0 <= s < |l| ensures l[s] <= limit {
      if counts[s] > 0 {
        var i := UsedHas(counts, s);
        assert s in multiset(Used(counts)) && s in multiset(syms);
        var k :| 0 <= k < |syms| && syms[k] == s;
        assert Pick(l, syms)[k] == l[s];
      }
    }
  }
  // A prefix code for exactly the symbols that occur, filling its code space.
  ghost predicate CheapestPrefixLengths(counts: seq<nat>, l: seq<nat>, limit: nat) {
    && PrefixLengths(counts, l, limit)
    && (forall s :: 0 <= s < |l| ==> (counts[s] > 0 <==> l[s] > 0))
    && (|Used(counts)| >= 2 ==> CodeSpace(l, limit) == Pow2(limit))
  }

  lemma UsedIndices(counts: seq<nat>)
    ensures forall s :: 0 <= s < |counts| ==> (counts[s] > 0 <==> s in Used(counts))
  {
    forall s | 0 <= s < |counts| && counts[s] > 0 ensures s in Used(counts) {
      var i := UsedHas(counts, s);
    }
  }

  ghost predicate Cheapest(counts: seq<nat>, lengths: seq<nat>)
    requires |lengths| == |counts|
  {
    forall l: seq<nat>, limit: nat :: PrefixLengths(counts, l, limit) ==> Cost(counts, lengths) <= Cost(counts, l)
  }

  lemma FewSymbols(counts: seq<nat>, lengths: seq<nat>)
    requires |Used(counts)| < 2 && |lengths| == |counts|
    requires forall s :: 0 <= s < |counts| ==> lengths[s] == if counts[s] > 0 then 1 else 0
    ensures CheapestPrefixLengths(counts, lengths, 1) && Cheapest(counts, lengths)
  {
    hide Used, Pick, CodeSpace, Shares, Cost, Pow2, ListsUsed;
    UsedListed(counts);
    UsedSpace(counts, lengths, 1, Used(counts));
    FewShares(Pick(lengths, Used(counts)));
    forall l: seq<nat>, limit: nat | PrefixLengths(counts, l, limit)
      ensures Cost(counts, lengths) <= Cost(counts, l)
    {
      ShorterCosts(counts, lengths, l);
    }
  }

  lemma FewShares(l: seq<nat>)
    requires |l| < 2 && forall i :: 0 <= i < |l| ==> l[i] == 1
    ensures Kraft(l, 1) <= Pow2(1)
  {
    var shares := Shares(l, 1);
    if |l| == 1 {
      assert shares == [1] && shares[1..] == [];
      assert Sum(shares) == 1 + Sum(shares[1..]);
    }
  }

  lemma ShorterCosts(counts: seq<nat>, a: seq<nat>, b: seq<nat>)
    requires |a| == |b| == |counts|
    requires forall s :: 0 <= s < |a| && counts[s] > 0 ==> a[s] <= b[s]
    ensures Cost(counts, a) <= Cost(counts, b)
  {
    forall s | 0 <= s < |counts| ensures counts[s] * a[s] <= counts[s] * b[s] {
      if counts[s] > 0 { assert a[s] <= b[s]; }
    }
    SumMonotone(Products(counts, a), Products(counts, b));
  }
}
