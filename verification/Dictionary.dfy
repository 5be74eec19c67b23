// src/dict.rs: the dictionary's content, picked by a sliding window over hashed strings
// of eight bytes. A window is worth the counts of its distinct strings.

module Dictionary {
  import opened Common
  import opened ByteStrings

  const SEGMENT: nat := 1024
  const D: nat := 8
  const PER_SEG: nat := SEGMENT - D + 1

  // ---------------------------------------------------------------- windows

  // How often h is in the window.
  function Times(w: seq<nat>, h: nat): nat {
    if w == [] then 0 else Times(w[..|w| - 1], h) + (if w[|w| - 1] == h then 1 else 0)
  }

  // The window's worth: each string in it counted once.
  function Worth(freq: seq<nat>, w: seq<nat>): nat
    requires forall i :: 0 <= i < |w| ==> w[i] < |freq|
  {
    if w == [] then 0
    else
      var y := w[|w| - 1];
      Worth(freq, w[..|w| - 1]) + (if Times(w[..|w| - 1], y) == 0 then freq[y] else 0)
  }

  lemma TimesSnoc(w: seq<nat>, y: nat, h: nat)
    ensures Times(w + [y], h) == Times(w, h) + (if y == h then 1 else 0)
  {
    assert (w + [y])[..|w|] == w;
  }

  lemma WorthSnoc(freq: seq<nat>, w: seq<nat>, y: nat)
    requires y < |freq| && forall i :: 0 <= i < |w| ==> w[i] < |freq|
    ensures Worth(freq, w + [y]) == Worth(freq, w) + (if Times(w, y) == 0 then freq[y] else 0)
  {
    assert (w + [y])[..|w|] == w;
  }

  lemma {:induction false} TimesFront(w: seq<nat>, h: nat)
    requires w != []
    ensures Times(w, h) == Times(w[1..], h) + (if w[0] == h then 1 else 0)
    decreases |w|
  {
    var n := |w| - 1;
    if n > 0 {
      TimesFront(w[..n], h);
      assert w[1..][..n - 1] == w[..n][1..];
    } else {
      assert w[..0] == [] && w[1..] == [];
    }
  }

  // The first string leaves: its count goes with its last copy.
  lemma {:induction false} WorthFront(freq: seq<nat>, w: seq<nat>)
    requires w != [] && forall i :: 0 <= i < |w| ==> w[i] < |freq|
    ensures Worth(freq, w) == Worth(freq, w[1..]) + (if Times(w[1..], w[0]) == 0 then freq[w[0]] else 0)
    decreases |w|
  {
    var n := |w| - 1;
    if n > 0 {
      var init, x, y := w[..n], w[0], w[n];
      assert w[1..][..n - 1] == init[1..] && w[1..][n - 1] == y;
      WorthFront(freq, init);
      TimesFront(init, y);
      TimesFront(init, x);
    } else {
      assert w[..0] == [] && w[1..] == [];
    }
  }

  // A value is counted just when it is in the window.
  lemma {:induction false} TimesIn(w: seq<nat>, h: nat)
    ensures Times(w, h) > 0 <==> h in w
  {
    if w != [] {
      var n := |w| - 1;
      TimesIn(w[..n], h);
      assert w == w[..n] + [w[n]];
    }
  }

  // ---------------------------------------------------------------- the sliding sum

  // What the table of counts holds for a window.
  ghost predicate Counts(inside: seq<nat>, w: seq<nat>) {
    forall h :: 0 <= h < |inside| ==> inside[h] == Times(w, h)
  }

  // A string enters: its count is added with its first copy.
  method Enter(freq: array<nat>, inside: array<nat>, h: nat, sum: nat, ghost w: seq<nat>) returns (r: nat)
    requires freq != inside && freq.Length == inside.Length && h < freq.Length
    requires (forall i :: 0 <= i < |w| ==> w[i] < freq.Length) && Counts(inside[..], w) && sum == Worth(freq[..], w)
    modifies inside
    ensures Counts(inside[..], w + [h]) && r == Worth(freq[..], w + [h])
  {
    hide Worth, Times;
    r := sum;
    WorthSnoc(freq[..], w, h);
    if inside[h] == 0 { r := r + freq[h]; }
    assert inside[..][h] == Times(w, h);
    ghost var was := inside[..];
    inside[h] := inside[h] + 1;
    forall k | 0 <= k < inside.Length ensures inside[..][k] == Times(w + [h], k) {
      TimesSnoc(w, h, k);
      assert was[k] == Times(w, k);
    }
  }

  method Leave(freq: array<nat>, inside: array<nat>, sum: nat, ghost w: seq<nat>, h: nat) returns (r: nat)
    requires freq != inside && freq.Length == inside.Length && w != [] && w[0] == h
    requires (forall i :: 0 <= i < |w| ==> w[i] < freq.Length) && Counts(inside[..], w) && sum == Worth(freq[..], w)
    modifies inside
    ensures Counts(inside[..], w[1..]) && r == Worth(freq[..], w[1..])
  {
    hide Worth, Times;
    r := sum;
    WorthFront(freq[..], w);
    TimesFront(w, h);
    assert inside[..][h] == Times(w, h);
    ghost var was := inside[..];
    inside[h] := inside[h] - 1;
    forall k | 0 <= k < inside.Length ensures inside[..][k] == Times(w[1..], k) {
      TimesFront(w, k);
      assert was[k] == Times(w, k);
    }
    assert inside[..][h] == Times(w[1..], h);
    if inside[h] == 0 { r := r - freq[h]; }
  }

  // The window at one offset of an epoch.
  function Window(e: seq<nat>, off: nat, n: nat): (w: seq<nat>)
    requires off + n <= |e|
    ensures |w| == n && (forall i :: 0 <= i < n ==> w[i] == e[off + i])
  {
    e[off..off + n]
  }

  ghost predicate Small(e: seq<nat>, size: nat) {
    forall i :: 0 <= i < |e| ==> e[i] < size
  }

  // The counts and the sum of the epoch's first window.
  method FillWindow(e: seq<nat>, n: nat, freq: array<nat>, inside: array<nat>) returns (sum: nat)
    requires n <= |e| && freq != inside && freq.Length == inside.Length && Small(e, freq.Length)
    requires Counts(inside[..], [])
    modifies inside
    ensures Counts(inside[..], Window(e, 0, n)) && sum == Worth(freq[..], Window(e, 0, n))
  {
    hide Worth, Times, Counts, Small;
    SmallAll(e, freq.Length);
    sum := 0;
    NothingIn(freq[..]);
    assert e[0..0] == [];
    for i := 0 to n
      invariant Counts(inside[..], e[0..i]) && sum == Worth(freq[..], e[0..i])
    {
      assert e[0..i] + [e[i]] == e[0..i + 1];
      sum := Enter(freq, inside, e[i], sum, e[0..i]);
    }
  }

  // One step to the right: a string enters, another leaves.
  method Slide(e: seq<nat>, off: nat, n: nat, freq: array<nat>, inside: array<nat>, was: nat) returns (sum: nat)
    requires 0 < off && off + n <= |e| && n > 0 && freq != inside && freq.Length == inside.Length && Small(e, freq.Length)
    requires Counts(inside[..], Window(e, off - 1, n)) && was == Worth(freq[..], Window(e, off - 1, n))
    modifies inside
    ensures Counts(inside[..], Window(e, off, n)) && sum == Worth(freq[..], Window(e, off, n))
  {
    hide Worth, Times, Counts, Small;
    SmallAll(e, freq.Length);
    var h := e[off + n - 1];
    Slid(e, off, n);
    sum := Enter(freq, inside, h, was, Window(e, off - 1, n));
    sum := Leave(freq, inside, sum, Window(e, off - 1, n) + [h], e[off - 1]);
  }

  // Empty the last window's counts.
  method ClearWindow(e: seq<nat>, n: nat, inside: array<nat>)
    requires n <= |e| && Small(e, inside.Length) && Counts(inside[..], Window(e, |e| - n, n))
    modifies inside
    ensures Counts(inside[..], [])
  {
    hide Times, Counts, Small;
    SmallAll(e, inside.Length);
    var last := |e| - n;
    assert Window(e, last, n) == e[last..];
    for i := last to last + n
      invariant Counts(inside[..], e[i..])
    {
      ClearOne(inside, e, i);
    }
    assert e[last + n..] == [];
  }

  ghost predicate BestSoFar(freq: seq<nat>, e: seq<nat>, n: nat, upTo: nat, best: nat, at: nat)
    requires n <= |e| && upTo + n <= |e| + 1 && forall i :: 0 <= i < |e| ==> e[i] < |freq|
  {
    && at < upTo && best == Worth(freq, Window(e, at, n))
    && (forall o :: 0 <= o < upTo ==> Worth(freq, Window(e, o, n)) <= best)
    && (forall o :: 0 <= o < at ==> Worth(freq, Window(e, o, n)) < best)
  }

  lemma BestNext(freq: seq<nat>, e: seq<nat>, n: nat, off: nat, best: nat, at: nat, sum: nat)
    requires off + n <= |e| && (forall i :: 0 <= i < |e| ==> e[i] < |freq|) && BestSoFar(freq, e, n, off, best, at)
    requires sum == Worth(freq, Window(e, off, n))
    ensures BestSoFar(freq, e, n, off + 1, if sum > best then sum else best, if sum > best then off else at)
  {
    hide Worth, Window;
  }

  // The leftmost window of the largest worth. The running sum is the window's worth at
  // every offset, and the counts are empty again at the end.
  method BestWindow(e: seq<nat>, n: nat, freq: array<nat>, inside: array<nat>) returns (best: nat, at: nat)
    requires 0 < n <= |e| && freq != inside && freq.Length == inside.Length && Small(e, freq.Length)
    requires Counts(inside[..], [])
    modifies inside
    ensures Counts(inside[..], [])
    ensures (forall i :: 0 <= i < |e| ==> e[i] < freq.Length) && BestSoFar(freq[..], e, n, |e| - n + 1, best, at)
  {
    hide Worth, Counts, Small, Window, BestSoFar;
    SmallAll(e, freq.Length);
    var sum := FillWindow(e, n, freq, inside);
    best, at := sum, 0;
    BestFirst(freq[..], e, n);
    var last := |e| - n;
    for off := 1 to last + 1
      invariant Counts(inside[..], Window(e, off - 1, n)) && sum == Worth(freq[..], Window(e, off - 1, n))
      invariant BestSoFar(freq[..], e, n, off, best, at)
    {
      sum := Slide(e, off, n, freq, inside, sum);
      BestNext(freq[..], e, n, off, best, at, sum);
      if sum > best { best, at := sum, off; }
    }
    ClearWindow(e, n, inside);
  }

  lemma BestFirst(freq: seq<nat>, e: seq<nat>, n: nat)
    requires n <= |e| && forall i :: 0 <= i < |e| ==> e[i] < |freq|
    ensures BestSoFar(freq, e, n, 1, Worth(freq, Window(e, 0, n)), 0)
  {
  }

  lemma SmallAll(e: seq<nat>, size: nat)
    requires Small(e, size)
    ensures forall i :: 0 <= i < |e| ==> e[i] < size
  {
  }

  lemma NothingIn(freq: seq<nat>)
    ensures Worth(freq, []) == 0
  {
  }

  lemma Slid(e: seq<nat>, off: nat, n: nat)
    requires 0 < off && off + n <= |e| && n > 0
    ensures var w := Window(e, off - 1, n) + [e[off + n - 1]]; w[0] == e[off - 1] && w[1..] == Window(e, off, n)
  {
  }

  method ClearOne(inside: array<nat>, e: seq<nat>, i: nat)
    requires i < |e| && e[i] < inside.Length && Counts(inside[..], e[i..])
    modifies inside
    ensures Counts(inside[..], e[i + 1..])
  {
    hide Times;
    assert e[i..][1..] == e[i + 1..] && e[i..][0] == e[i];
    TimesFront(e[i..], e[i]);
    assert inside[..][e[i]] == Times(e[i..], e[i]);
    ghost var was := inside[..];
    inside[e[i]] := inside[e[i]] - 1;
    forall k | 0 <= k < inside.Length ensures inside[..][k] == Times(e[i + 1..], k) {
      TimesFront(e[i..], k);
      assert was[k] == Times(e[i..], k);
    }
  }

  // ---------------------------------------------------------------- the selection

  // Offsets of segments that follow one another without overlapping.
  ghost predicate Apart(taken: seq<nat>, end: nat) {
    && (forall i, j :: 0 <= i < j < |taken| ==> taken[i] + SEGMENT <= taken[j])
    && (forall i :: 0 <= i < |taken| ==> taken[i] + SEGMENT <= end)
  }

  // Taken segments from the last to the first.
  function Backwards(joined: seq<byte>, taken: seq<nat>): (r: seq<byte>)
    requires forall i :: 0 <= i < |taken| ==> taken[i] + SEGMENT <= |joined|
    ensures |r| == |taken| * SEGMENT
  {
    if taken == [] then []
    else Backwards(joined, taken[1..]) + joined[taken[0]..taken[0] + SEGMENT]
  }

  method HashAll(joined: seq<byte>, size: nat, hash: seq<byte> -> nat) returns (hs: seq<nat>)
    requires |joined| >= D && size > 0
    ensures Hashes(hs, joined, size, hash) && Small(hs, size)
  {
    hs := [];
    for i := 0 to |joined| - D + 1
      invariant |hs| == i && Small(hs, size) && forall j :: 0 <= j < i ==> hs[j] == hash(joined[j..j + D]) % size
    {
      hs := hs + [hash(joined[i..i + D]) % size];
    }
  }

  // ---------------------------------------------------------------- what is selected

  // Of the windows from first to last, at is the leftmost of the largest worth.
  ghost predicate IsBest(freq: seq<nat>, hs: seq<nat>, first: nat, last: nat, at: nat)
    requires last + PER_SEG <= |hs| && Small(hs, |freq|)
  {
    && first <= at <= last
    && (forall off :: first <= off <= last ==> WorthAt(freq, hs, off) <= WorthAt(freq, hs, at))
    && (forall off :: first <= off < at ==> WorthAt(freq, hs, off) < WorthAt(freq, hs, at))
  }

  ghost predicate Worthless(freq: seq<nat>, hs: seq<nat>, first: nat, last: nat)
    requires last + PER_SEG <= |hs| && Small(hs, |freq|)
  {
    forall off :: first <= off <= last ==> WorthAt(freq, hs, off) == 0
  }

  function WorthAt(freq: seq<nat>, hs: seq<nat>, off: nat): nat
    requires off + PER_SEG <= |hs| && Small(hs, |freq|)
  {
    Worth(freq, Window(hs, off, PER_SEG))
  }

  // The counts without those of the strings in w.
  ghost function Zeroed(freq: seq<nat>, w: seq<nat>): (r: seq<nat>)
    ensures |r| == |freq| && forall h :: 0 <= h < |r| ==> r[h] == if Times(w, h) > 0 then 0 else freq[h]
  {
    seq(|freq|, h requires 0 <= h < |freq| => if Times(w, h) > 0 then 0 else freq[h])
  }

  // The last offset of a window within the epoch from start on.
  function LastOf(start: nat, epoch: nat, total: nat): nat
    requires start + SEGMENT <= total && epoch >= SEGMENT
  {
    Min(start + epoch, total) - SEGMENT
  }

  // Epoch by epoch: the best window, unless none is worth anything, and its strings'
  // counts zeroed so that later picks cover new ones.
  ghost predicate Selection(hs: seq<nat>, freq: seq<nat>, start: nat, epoch: nat, picks: seq<nat>)
    requires Small(hs, |freq|) && epoch >= SEGMENT && |hs| >= PER_SEG
    decreases |hs| + D - 1 - start
  {
    var total := |hs| + D - 1;
    if start + SEGMENT > total then picks == []
    else
      var last := LastOf(start, epoch, total);
      if Worthless(freq, hs, start, last) then Selection(hs, freq, start + epoch, epoch, picks)
      else
        && picks != [] && IsBest(freq, hs, start, last, picks[0])
        && Selection(hs, Zeroed(freq, Window(hs, picks[0], PER_SEG)), start + epoch, epoch, picks[1..])
  }

  // The best window of the epoch whose windows start from start to last.
  method TakeEpoch(hs: seq<nat>, start: nat, last: nat, freq: array<nat>, inside: array<nat>) returns (r: Option<nat>)
    requires start <= last && last + PER_SEG <= |hs| && freq != inside && freq.Length == inside.Length
    requires Small(hs, freq.Length) && Counts(inside[..], [])
    modifies freq, inside
    ensures Counts(inside[..], [])
    ensures r.None? ==> Worthless(old(freq[..]), hs, start, last) && freq[..] == old(freq[..])
    ensures r.Some? ==> IsBest(old(freq[..]), hs, start, last, r.value) && WorthAt(old(freq[..]), hs, r.value) > 0
    ensures r.Some? ==> freq[..] == Zeroed(old(freq[..]), Window(hs, r.value, PER_SEG))
  {
    hide Worth, Counts, Times;
    var e := hs[start..last + PER_SEG];
    ghost var f := freq[..];
    var best, at := BestWindow(e, PER_SEG, freq, inside);
    forall off | start <= off <= last
      ensures WorthAt(f, hs, off) <= best && (off < start + at ==> WorthAt(f, hs, off) < best)
    {
      assert Window(e, off - start, PER_SEG) == Window(hs, off, PER_SEG);
    }
    assert Window(e, at, PER_SEG) == Window(hs, start + at, PER_SEG);
    if best == 0 { return None; }
    ZeroWindow(hs, start + at, freq, inside);
    return Some(start + at);
  }

  method ZeroWindow(hs: seq<nat>, at: nat, freq: array<nat>, ghost inside: array<nat>)
    requires at + PER_SEG <= |hs| && freq != inside && Small(hs, freq.Length)
    modifies freq
    ensures freq[..] == Zeroed(old(freq[..]), Window(hs, at, PER_SEG))
  {
    hide Times;
    ghost var f := freq[..];
    NoTimes();
    for i := 0 to PER_SEG
      modifies freq
      invariant forall h :: 0 <= h < freq.Length ==> freq[h] == if Times(Window(hs, at, i), h) > 0 then 0 else f[h]
    {
      ghost var w := Window(hs, at, i);
      assert Window(hs, at, i + 1) == w + [hs[at + i]];
      forall h | 0 <= h < freq.Length ensures Times(w + [hs[at + i]], h) == Times(w, h) + (if hs[at + i] == h then 1 else 0) {
        TimesSnoc(w, hs[at + i], h);
      }
      freq[hs[at + i]] := 0;
    }
    assert freq[..] == Zeroed(f, Window(hs, at, PER_SEG));
  }

  lemma NoTimes()
    ensures forall h :: Times([], h) == 0
  {
  }

  // Every string counted.
  ghost predicate Histogram(freq: seq<nat>, hs: seq<nat>) {
    forall h :: 0 <= h < |freq| ==> freq[h] == Times(hs, h)
  }

  method CountAll(hs: seq<nat>, freq: array<nat>)
    requires Small(hs, freq.Length) && forall h :: 0 <= h < freq.Length ==> freq[h] == 0
    modifies freq
    ensures Histogram(freq[..], hs)
  {
    hide Times;
    NoTimes();
    assert hs[..0] == [];
    for i := 0 to |hs|
      modifies freq
      invariant forall h :: 0 <= h < freq.Length ==> freq[h] == Times(hs[..i], h)
    {
      assert hs[..i + 1] == hs[..i] + [hs[i]];
      forall h | 0 <= h < freq.Length ensures Times(hs[..i] + [hs[i]], h) == Times(hs[..i], h) + (if hs[i] == h then 1 else 0) {
        TimesSnoc(hs[..i], hs[i], h);
      }
      freq[hs[i]] := freq[hs[i]] + 1;
    }
    assert hs[..|hs|] == hs;
  }

  // What is picked from start on goes behind what is picked.
  ghost predicate Continues(hs: seq<nat>, counts: seq<nat>, freq: seq<nat>, start: nat, epoch: nat, picked: seq<nat>)
    requires Small(hs, |counts|) && Small(hs, |freq|) && epoch >= SEGMENT && |hs| >= PER_SEG
  {
    forall rest :: Selection(hs, freq, start, epoch, rest) ==> Selection(hs, counts, 0, epoch, picked + rest)
  }

  lemma ContinuesStart(hs: seq<nat>, counts: seq<nat>, epoch: nat)
    requires Small(hs, |counts|) && epoch >= SEGMENT && |hs| >= PER_SEG
    ensures Continues(hs, counts, counts, 0, epoch, [])
  {
    forall rest: seq<nat> ensures [] + rest == rest { }
  }

  lemma ContinuesNone(hs: seq<nat>, counts: seq<nat>, freq: seq<nat>, start: nat, epoch: nat, picked: seq<nat>)
    requires Small(hs, |counts|) && Small(hs, |freq|) && epoch >= SEGMENT && |hs| >= PER_SEG
    requires start + SEGMENT <= |hs| + D - 1 && Continues(hs, counts, freq, start, epoch, picked)
    requires Worthless(freq, hs, start, LastOf(start, epoch, |hs| + D - 1))
    ensures Continues(hs, counts, freq, start + epoch, epoch, picked)
  {
    hide Worthless;
  }

  lemma ContinuesPick(hs: seq<nat>, counts: seq<nat>, freq: seq<nat>, start: nat, epoch: nat, picked: seq<nat>, at: nat)
    requires Small(hs, |counts|) && Small(hs, |freq|) && epoch >= SEGMENT && |hs| >= PER_SEG
    requires start + SEGMENT <= |hs| + D - 1 && Continues(hs, counts, freq, start, epoch, picked)
    requires IsBest(freq, hs, start, LastOf(start, epoch, |hs| + D - 1), at) && WorthAt(freq, hs, at) > 0
    ensures Continues(hs, counts, Zeroed(freq, Window(hs, at, PER_SEG)), start + epoch, epoch, picked + [at])
  {
    hide WorthAt, Zeroed, Small, Continues;
    var next := Zeroed(freq, Window(hs, at, PER_SEG));
    StillSmall(hs, freq, next);
    forall rest | Selection(hs, next, start + epoch, epoch, rest) ensures Selection(hs, counts, 0, epoch, picked + [at] + rest) {
      assert ([at] + rest)[1..] == rest;
      Assoc(picked, [at], rest);
      ContinuesWith(hs, counts, freq, start, epoch, picked, [at] + rest);
    }
    ContinuesIf(hs, counts, next, start + epoch, epoch, picked + [at]);
  }

  lemma StillSmall(hs: seq<nat>, freq: seq<nat>, next: seq<nat>)
    requires Small(hs, |freq|) && |next| == |freq|
    ensures Small(hs, |next|)
  {
  }

  lemma ContinuesWith(hs: seq<nat>, counts: seq<nat>, freq: seq<nat>, start: nat, epoch: nat, picked: seq<nat>, rest: seq<nat>)
    requires Small(hs, |counts|) && Small(hs, |freq|) && epoch >= SEGMENT && |hs| >= PER_SEG
    requires Continues(hs, counts, freq, start, epoch, picked) && Selection(hs, freq, start, epoch, rest)
    ensures Selection(hs, counts, 0, epoch, picked + rest)
  {
    hide Selection;
  }

  lemma ContinuesIf(hs: seq<nat>, counts: seq<nat>, freq: seq<nat>, start: nat, epoch: nat, picked: seq<nat>)
    requires Small(hs, |counts|) && Small(hs, |freq|) && epoch >= SEGMENT && |hs| >= PER_SEG
    requires forall rest :: Selection(hs, freq, start, epoch, rest) ==> Selection(hs, counts, 0, epoch, picked + rest)
    ensures Continues(hs, counts, freq, start, epoch, picked)
  {
  }

  // The hashed strings of the samples.
  ghost predicate Hashes(hs: seq<nat>, joined: seq<byte>, size: nat, hash: seq<byte> -> nat)
    requires |joined| >= D && size > 0
  {
    |hs| == |joined| - D + 1 && forall i :: 0 <= i < |hs| ==> hs[i] == hash(joined[i..i + D]) % size
  }

  // The content picked: as many of the selected windows as the budget holds, from the
  // last to the first.
  method SelectContent(joined: seq<byte>, budget: nat, size: nat, hash: seq<byte> -> nat)
    returns (content: seq<byte>, ghost hs: seq<nat>, ghost counts: seq<nat>, ghost picks: seq<nat>)
    requires size > 0
    ensures budget < SEGMENT || |joined| < SEGMENT ==> content == []
    ensures budget >= SEGMENT && |joined| >= SEGMENT ==>
      Hashes(hs, joined, size, hash) && |counts| == size && Small(hs, size) && Histogram(counts, hs)
    ensures budget >= SEGMENT && |joined| >= SEGMENT ==>
      Selection(hs, counts, 0, Max(|joined| / (budget / SEGMENT), SEGMENT), picks)
    ensures Apart(picks, |joined|)
    ensures content == Backwards(joined, picks[..Min(|picks|, budget / SEGMENT)])
    ensures |content| <= budget
  {
    hide Counts, Small, Worth, Selection, Histogram, Zeroed, IsBest, Worthless, WorthAt, Continues, Times;
    content, hs, counts, picks := [], [], [], [];
    var segments := budget / SEGMENT;
    if segments == 0 || |joined| < SEGMENT { return; }
    var strings := HashAll(joined, size, hash);
    hs := strings;
    var freq := new nat[size](_ => 0);
    var inside := new nat[size](_ => 0);
    CountAll(strings, freq);
    counts := freq[..];
    NoCounts(inside[..]);
    var epoch := Max(|joined| / segments, SEGMENT);
    var picked: seq<nat>, start: nat := [], 0;
    ContinuesStart(hs, counts, epoch);
    while start + SEGMENT <= |joined|
      modifies freq, inside
      invariant Counts(inside[..], []) && Apart(picked, Min(start, |joined|))
      invariant Continues(hs, counts, freq[..], start, epoch, picked)
      decreases |joined| - start
    {
      ghost var before := freq[..];
      var end := Min(start + epoch, |joined|);
      var r := TakeEpoch(strings, start, end - SEGMENT, freq, inside);
      if r.Some? {
        BestInside(before, hs, start, end - SEGMENT, r.value);
        ContinuesPick(hs, counts, before, start, epoch, picked, r.value);
        picked := picked + [r.value];
      } else {
        ContinuesNone(hs, counts, before, start, epoch, picked);
      }
      start := start + epoch;
    }
    NothingLeft(hs, freq[..], start, epoch);
    ContinuesWith(hs, counts, freq[..], start, epoch, picked, []);
    assert picked + [] == picked;
    picks := picked;
    if |picked| > segments { picked := picked[..segments]; }
    content := Concat(joined, picked);
    MulMonotone(|picked|, segments, SEGMENT);
    assert budget == SEGMENT * segments + budget % SEGMENT;
  }

  lemma BestInside(freq: seq<nat>, hs: seq<nat>, first: nat, last: nat, at: nat)
    requires last + PER_SEG <= |hs| && Small(hs, |freq|) && IsBest(freq, hs, first, last, at)
    ensures first <= at <= last
  {
  }

  lemma NothingLeft(hs: seq<nat>, freq: seq<nat>, start: nat, epoch: nat)
    requires Small(hs, |freq|) && epoch >= SEGMENT && |hs| >= PER_SEG && start + SEGMENT > |hs| + D - 1
    ensures Selection(hs, freq, start, epoch, [])
  {
  }

  lemma NoCounts(inside: seq<nat>)
    requires forall h :: 0 <= h < |inside| ==> inside[h] == 0
    ensures Counts(inside, [])
  {
  }

  method Concat(joined: seq<byte>, taken: seq<nat>) returns (content: seq<byte>)
    requires forall i :: 0 <= i < |taken| ==> taken[i] + SEGMENT <= |joined|
    ensures content == Backwards(joined, taken)
  {
    content := [];
    var i := |taken|;
    assert taken[i..] == [];
    while i > 0
      invariant 0 <= i <= |taken| && content == Backwards(joined, taken[i..])
    {
      i := i - 1;
      assert taken[i..][0] == taken[i] && taken[i..][1..] == taken[i + 1..];
      content := content + joined[taken[i]..taken[i] + SEGMENT];
    }
    assert taken[0..] == taken;
  }
}
