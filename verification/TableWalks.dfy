// What the walk along a stream may rely on when the bytes behind the stream are arbitrary.
// A table built from a prefix code reads the same entry from any bits that begin with the
// entry's code, so a wrong bit behind the stream's own ones shows only in a walk that has
// left them, and such a walk is refused.

module TableWalks {
  import opened Common
  import opened PrefixCodeTheory
  import opened CodeLengths
  import opened CanonicalCodes
  import opened ByteStrings
  import opened BitStreams
  import opened HuffmanStreams

  // ---------------------------------------------------------------- tables of prefix codes

  // Whatever begins with an entry's code reads that entry.
  ghost predicate Prefixed(t: seq<Entry>) {
    forall i, j :: 0 <= i < |t| && 0 <= j < |t| && Begins(t[i].len, i, j) ==> t[j] == t[i]
  }

  // i and j have the same len low bits, and len is not zero.
  predicate Begins(len: nat, i: nat, j: nat) {
    len > 0 && i % Pow2(len) == j % Pow2(len)
  }

  // Every index says a symbol.
  ghost predicate Complete(t: seq<Entry>) {
    forall i :: 0 <= i < |t| ==> t[i].len > 0
  }

  lemma TablePrefixed(l: seq<nat>, limit: nat, t: seq<Entry>)
    requires TableFor(l, limit, t)
    ensures Prefixed(t)
  {
    hide Pow2, Rev;
    forall i, j | 0 <= i < |t| && 0 <= j < |t| && Begins(t[i].len, i, j) ensures t[j] == t[i] {
      assert EntryFor(l, |l|, i, t[i]);
      var s :| 0 <= s < |l| && Hits(l, s, i);
      TableFinds(l, limit, t, s, i);
      TableFinds(l, limit, t, s, j);
    }
  }

  lemma {:induction false} NthOfLength(l: seq<nat>, k: nat, n: nat) returns (s: nat)
    requires n < Count(l, k)
    ensures s < |l| && l[s] == k && Count(l[..s], k) == n
  {
    var m := |l| - 1;
    if n < Count(l[..m], k) {
      s := NthOfLength(l[..m], k, n);
      assert l[..m][..s] == l[..s];
    } else {
      s := m;
    }
  }

  // Every point of the code space below the codes longer than k bits lies in a code's part.
  lemma {:induction false} SpaceCovered(l: seq<nat>, limit: nat, c: nat, k: nat) returns (s: nat)
    requires Within(l, limit) && k <= limit && c < Below(l, limit, k + 1)
    ensures s < |l| && 0 < l[s] <= limit && c / Pow2(limit - l[s]) == CodeOf(l, s)
    decreases k
  {
    hide Pow2, Below, First, Count;
    BelowFirst(l, limit);
    if k > 0 && c < Below(l, limit, k) {
      s := SpaceCovered(l, limit, c, k - 1);
    } else {
      BelowNext(l, limit, k);
      FirstIs(l, limit, k);
      PointOf(First(l, k), Count(l, k), Pow2(limit - k), c);
      s := NthOfLength(l, k, c / Pow2(limit - k) - First(l, k));
    }
  }

  lemma PointOf(f: nat, n: nat, p: nat, c: nat)
    requires p > 0 && f * p <= c < f * p + n * p
    ensures f <= c / p < f + n
  {
    DivisionIs(c, p);
    var q := c / p;
    if q < f { MulMonotone(q + 1, f, p); }
    if q >= f + n { MulMonotone(f + n, q, p); }
  }

  lemma {:induction false} ReverseTop(b: nat, r: nat, n: nat)
    requires b < 2 && r < Pow2(n)
    ensures Reverse(b * Pow2(n) + r, n + 1) == 2 * Reverse(r, n) + b
  {
    hide Pow2, Reverse;
    TwoBits(n);
    if n == 0 {
      OneBit(b);
    } else {
      var p := Pow2(n - 1);
      TopHalved(b, r, p);
      ReverseTop(b, r / 2, n - 1);
      ReverseNext(b * (2 * p) + r, n + 1);
      ReverseNext(r, n);
      HighTwice(r % 2, p);
    }
  }

  lemma OneBit(b: nat)
    requires b < 2
    ensures Reverse(b, 1) == b && Reverse(0, 0) == 0
  {
  }

  lemma HighTwice(x: nat, p: nat)
    ensures x * (2 * p) == 2 * (x * p)
  {
  }

  lemma ReverseNext(code: nat, n: nat)
    requires n > 0
    ensures Reverse(code, n) == code % 2 * Pow2(n - 1) + Reverse(code / 2, n - 1)
  {
  }

  lemma TopHalved(b: nat, r: nat, p: nat)
    ensures (b * (2 * p) + r) % 2 == r % 2 && (b * (2 * p) + r) / 2 == b * p + r / 2
  {
    assert b * (2 * p) + r == 2 * (b * p + r / 2) + r % 2;
  }

  // Reversing twice gives the bits back.
  lemma {:induction false} ReverseTwice(i: nat, n: nat)
    requires i < Pow2(n)
    ensures Reverse(Reverse(i, n), n) == i
  {
    if n > 0 {
      ReverseFits(i / 2, n - 1);
      ReverseTop(i % 2, Reverse(i / 2, n - 1), n - 1);
      ReverseTwice(i / 2, n - 1);
    }
  }

  // Lengths that use up the code space leave no index without a symbol.
  lemma FullTable(l: seq<nat>, limit: nat, t: seq<Entry>)
    requires TableFor(l, limit, t) && Within(l, limit) && CodeSpace(l, limit) == Pow2(limit)
    ensures Complete(t)
  {
    hide Pow2, CodeOf, Below, CodeSpace, Reverse;
    BelowAll(l, limit);
    forall i | 0 <= i < |t| ensures t[i].len > 0 {
      var c := Reverse(i, limit);
      ReverseFits(i, limit);
      var s := SpaceCovered(l, limit, c, limit);
      ReversePrefix(c, limit, l[s]);
      ReverseTwice(i, limit);
      TableFinds(l, limit, t, s, i);
    }
  }

  // ---------------------------------------------------------------- following a stream

  // The first m entries read along a stream all say symbols.
  ghost predicate Named(t: seq<Entry>, tb: nat, v: nat, m: nat)
    requires |t| == Pow2(tb)
  {
    forall j :: 0 <= j < m ==> NamedAt(t, tb, v, j)
  }

  // m symbols of a stream do not depend on what lies behind its own bits: either every
  // index says a symbol, or the symbols are all there.
  ghost predicate Settled(t: seq<Entry>, tb: nat, s: Stream, m: nat)
    requires |t| == Pow2(tb)
  {
    Prefixed(t) && (Complete(t) || (Named(t, tb, Number(s.bytes), m) && PosAt(t, tb, Number(s.bytes), m) <= 8 * s.len))
  }

  // How many of n bits from pos on are the stream's own.
  function Own(s: Stream, pos: nat, n: nat): (k: nat)
    ensures k <= n
  {
    Min(n, Max(0, 8 * s.len - pos))
  }

  // An index that has the stream's own bits right.
  ghost predicate Agrees(s: Stream, pos: nat, tb: nat, i: nat) {
    i % Pow2(Own(s, pos, tb)) == Window(Number(s.bytes), pos, Own(s, pos, tb))
  }

  // A walk at pos after j symbols: it stands where the table says, or both have left the
  // stream's own bits.
  ghost predicate Follows(t: seq<Entry>, tb: nat, s: Stream, pos: nat, j: nat)
    requires |t| == Pow2(tb)
  {
    || pos == PosAt(t, tb, Number(s.bytes), j)
    || (pos > 8 * s.len && PosAt(t, tb, Number(s.bytes), j) > 8 * s.len)
  }

  lemma PosStep(t: seq<Entry>, tb: nat, v: nat, j: nat)
    requires |t| == Pow2(tb)
    ensures PosAt(t, tb, v, j + 1) == PosAt(t, tb, v, j) + EntryAt(t, tb, v, PosAt(t, tb, v, j)).len
  {
  }

  lemma {:induction false} PosMonotone(t: seq<Entry>, tb: nat, v: nat, a: nat, b: nat)
    requires |t| == Pow2(tb) && a <= b
    ensures PosAt(t, tb, v, a) <= PosAt(t, tb, v, b)
    decreases b
  {
    hide EntryAt, Pow2;
    if a < b { PosMonotone(t, tb, v, a, b - 1); }
  }

  // An index that agrees on a code reads its entry; no other entry ends as early.
  lemma EntryKnown(t: seq<Entry>, tb: nat, s: Stream, pos: nat, i: nat)
    requires Usable(t, tb) && Prefixed(t) && i < |t| && Agrees(s, pos, tb, i) && pos <= 8 * s.len
    ensures |t| == Pow2(tb)
    ensures var e := EntryAt(t, tb, Number(s.bytes), pos);
      e.len > 0 ==> if pos + e.len <= 8 * s.len then t[i] == e else t[i].len == 0 || pos + t[i].len > 8 * s.len
  {
    hide Pow2, Number, Window;
    var w, k := Window(Number(s.bytes), pos, tb), Own(s, pos, tb);
    WindowParts(Number(s.bytes), pos, tb, k);
    if t[w].len <= k {
      LowBitsAgain(i, t[w].len, k);
      LowBitsAgain(w, t[w].len, k);
    } else if t[i].len <= k {
      LowBitsAgain(i, t[i].len, k);
      LowBitsAgain(w, t[i].len, k);
    }
  }

  // One more symbol, read at such an index.
  lemma FollowsOn(t: seq<Entry>, tb: nat, s: Stream, pos: nat, j: nat, m: nat, i: nat)
    requires Usable(t, tb) && |t| == Pow2(tb) && i < |t| && Agrees(s, pos, tb, i)
    requires Settled(t, tb, s, m) && j < m && Follows(t, tb, s, pos, j)
    ensures Follows(t, tb, s, pos + t[i].len, j + 1)
    ensures pos + t[i].len > 8 * s.len || t[i].sym == SymAt(t, tb, Number(s.bytes), j)
  {
    hide Pow2, Number, PosAt, EntryAt, Agrees, Usable, Prefixed;
    var v := Number(s.bytes);
    PosStep(t, tb, v, j);
    PosMonotone(t, tb, v, j + 1, m);
    if pos <= 8 * s.len {
      EntryKnown(t, tb, s, pos, i);
      assert NamedAt(t, tb, v, j) || Complete(t);
      NamedWhen(t, tb, v, j);
    }
  }

  lemma NamedWhen(t: seq<Entry>, tb: nat, v: nat, j: nat)
    requires |t| == Pow2(tb)
    ensures NamedAt(t, tb, v, j) || Complete(t) ==> EntryAt(t, tb, v, PosAt(t, tb, v, j)).len > 0
  {
  }

  // ---------------------------------------------------------------- the bytes behind a stream

  // Two streams with the same bytes of their own.
  ghost predicate SameOwn(s: Stream, s': Stream) {
    s.len == s'.len && s.len <= |s.bytes| && s.len <= |s'.bytes| && s.bytes[..s.len] == s'.bytes[..s.len]
  }

  lemma SameAgrees(s: Stream, s': Stream, pos: nat, tb: nat)
    requires SameOwn(s, s')
    ensures Agrees(s, pos, tb, Window(Number(s'.bytes), pos, tb))
  {
    hide Pow2, Number, Window;
    var v, v', k := Number(s.bytes), Number(s'.bytes), Own(s, pos, tb);
    NumberSplit(s.bytes, s.len);
    NumberSplit(s'.bytes, s.len);
    NumberFits(s.bytes[..s.len]);
    WindowParts(v', pos, tb, k);
    OwnWindow(v, Number(s.bytes[..s.len]), Number(s.bytes[s.len..]), 8 * s.len, pos, k);
    OwnWindow(v', Number(s.bytes[..s.len]), Number(s'.bytes[s.len..]), 8 * s.len, pos, k);
  }

  // A window that ends within the low m bits sees nothing else.
  lemma OwnWindow(v: nat, low: nat, high: nat, m: nat, pos: nat, k: nat)
    requires v == low + Pow2(m) * high && low < Pow2(m) && (pos + k <= m || k == 0)
    ensures Window(v, pos, k) == Window(low, pos, k)
  {
    hide Pow2;
    if k == 0 {
      NoBit();
      DivModIs(v / Pow2(pos), 1, v / Pow2(pos), 0);
      DivModIs(low / Pow2(pos), 1, low / Pow2(pos), 0);
    } else {
      DivModIs(v, Pow2(m), high, low);
      FrontOfLow(v, m, pos, k);
    }
  }

  lemma FrontOfLow(v: nat, m: nat, pos: nat, k: nat)
    requires pos + k <= m
    ensures Window(v, pos, k) == Window(v % Pow2(m), pos, k)
  {
    hide Pow2;
    Pow2Add(pos, m - pos);
    ModMod(v, Pow2(pos), Pow2(m - pos));
    LowBitsAgain(v / Pow2(pos), k, m - pos);
  }

  // Their content is never used: with a table that says a symbol for every index, whether
  // m symbols fit a stream's own bits does not depend on the bytes behind them, nor do the
  // symbols then.
  lemma {:induction false} BehindUnused(t: seq<Entry>, tb: nat, s: Stream, s': Stream, m: nat)
    requires Usable(t, tb) && |t| == Pow2(tb) && Prefixed(t) && Complete(t) && SameOwn(s, s')
    ensures Follows(t, tb, s, PosAt(t, tb, Number(s'.bytes), m), m)
    ensures PosAt(t, tb, Number(s.bytes), m) <= 8 * s.len <==> PosAt(t, tb, Number(s'.bytes), m) <= 8 * s.len
    ensures PosAt(t, tb, Number(s.bytes), m) <= 8 * s.len ==>
      forall j :: 0 <= j < m ==> SymAt(t, tb, Number(s.bytes), j) == SymAt(t, tb, Number(s'.bytes), j)
  {
    hide Pow2, Number, Window, PosAt, Agrees, Usable, Prefixed, Complete, SameOwn;
    var v, v' := Number(s.bytes), Number(s'.bytes);
    StartAtZero(t, tb, v);
    StartAtZero(t, tb, v');
    if m > 0 {
      BehindUnused(t, tb, s, s', m - 1);
      var pos := PosAt(t, tb, v', m - 1);
      SameAgrees(s, s', pos, tb);
      FollowsOn(t, tb, s, pos, m - 1, m, Window(v', pos, tb));
      PosStep(t, tb, v', m - 1);
      PosMonotone(t, tb, v, m - 1, m);
    }
  }
}
