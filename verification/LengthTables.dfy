// src/huffman.rs: code lengths as packed nibbles. A length stands for itself; a run of
// one to sixteen symbols without a code is a zero and the run less one.

module LengthTables {
  import opened Common
  import opened ByteStrings

  // Symbols without a code at the front, at most sixteen.
  function Run(l: seq<nat>, most: nat): (n: nat)
    ensures n <= most && n <= |l| && forall i :: 0 <= i < n ==> l[i] == 0
    ensures most > 0 && l != [] && l[0] == 0 ==> n > 0
  {
    if most == 0 || l == [] || l[0] != 0 then 0 else
      var n := Run(l[1..], most - 1);
      assert forall i :: 1 <= i < n + 1 ==> l[i] == l[1..][i - 1];
      n + 1
  }

  function Nibbles(l: seq<nat>): seq<nat>
    decreases |l|
  {
    if l == [] then []
    else if l[0] == 0 then
      var run := Run(l, 16);
      [0, run - 1] + Nibbles(l[run..])
    else [l[0]] + Nibbles(l[1..])
  }

  // Runs are taken whole, up to sixteen: n zeros take two nibbles for every sixteen begun.
  lemma {:induction false} ZeroRuns(l: seq<nat>, n: nat)
    requires n <= |l| && (forall i :: 0 <= i < n ==> l[i] == 0) && (n < |l| ==> l[n] != 0)
    ensures |Nibbles(l)| == 2 * ((n + 15) / 16) + |Nibbles(l[n..])|
    decreases n
  {
    hide Nibbles, Run;
    if n == 0 {
      assert l[0..] == l;
    } else {
      var run := Min(n, 16);
      RunIs(l, n, 16);
      RunNibbles(l);
      assert l[run..][n - run..] == l[n..];
      ZeroRuns(l[run..], n - run);
      SixteenFewer(n);
    }
  }

  lemma RunNibbles(l: seq<nat>)
    requires l != [] && l[0] == 0
    ensures |Nibbles(l)| == 2 + |Nibbles(l[Run(l, 16)..])|
  {
  }

  lemma SixteenFewer(n: nat)
    requires n > 0
    ensures (n + 15) / 16 == 1 + (n - Min(n, 16) + 15) / 16
  {
  }

  lemma {:induction false} RunIs(l: seq<nat>, n: nat, most: nat)
    requires n <= |l| && (forall i :: 0 <= i < n ==> l[i] == 0) && (n < |l| ==> l[n] != 0)
    ensures Run(l, most) == Min(n, most)
    decreases most
  {
    if most > 0 && n > 0 { RunIs(l[1..], n - 1, most - 1); }
  }

  // Two nibbles a byte, the low one first; an odd count is padded with a zero.
  function Pairs(ns: seq<nat>): (s: seq<byte>)
    requires forall i :: 0 <= i < |ns| ==> ns[i] < 16
    ensures |s| == (|ns| + 1) / 2
    decreases |ns|
  {
    if ns == [] then []
    else [ns[0] + 16 * (if |ns| > 1 then ns[1] else 0)] + Pairs(if |ns| > 1 then ns[2..] else [])
  }

  ghost predicate Packable(l: seq<nat>) {
    forall i :: 0 <= i < |l| ==> l[i] < 16
  }

  lemma {:induction false} NibblesFit(l: seq<nat>)
    requires Packable(l)
    ensures forall i :: 0 <= i < |Nibbles(l)| ==> Nibbles(l)[i] < 16
    decreases |l|
  {
    if l != [] {
      if l[0] == 0 { NibblesFit(l[Run(l, 16)..]); } else { NibblesFit(l[1..]); }
    }
  }

  ghost function Packed(l: seq<nat>): seq<byte>
    requires Packable(l)
  {
    NibblesFit(l);
    Pairs(Nibbles(l))
  }

  // ---------------------------------------------------------------- reading

  function Nibble(src: seq<byte>, k: nat): (n: Option<nat>)
    ensures n.Some? ==> n.value < 16
  {
    if k / 2 >= |src| then None else Some(if k % 2 == 0 then src[k / 2] % 16 else src[k / 2] / 16)
  }

  function Zeros(n: nat): (s: seq<nat>)
    ensures |s| == n && forall i :: 0 <= i < n ==> s[i] == 0
  {
    if n == 0 then [] else [0] + Zeros(n - 1)
  }

  // The lengths of the next count symbols from nibble k on, and the nibble behind them.
  function Unpacked(src: seq<byte>, k: nat, count: nat): (r: Option<(seq<nat>, nat)>)
    ensures r.Some? ==> |r.value.0| == count
    decreases count
  {
    if count == 0 then Some(([], k))
    else
      match Nibble(src, k)
      case None => None
      case Some(n) =>
        if n > 0 then
          match Unpacked(src, k + 1, count - 1)
          case None => None
          case Some((rest, end)) => Some(([n] + rest, end))
        else
          match Nibble(src, k + 1)
          case None => None
          case Some(m) =>
            if m + 1 > count then None
            else
              match Unpacked(src, k + 2, count - (m + 1))
              case None => None
              case Some((rest, end)) => Some((Zeros(m + 1) + rest, end))
  }

  lemma {:induction false} PairsHold(ns: seq<nat>, rest: seq<byte>, k: nat)
    requires forall i :: 0 <= i < |ns| ==> ns[i] < 16
    requires k < |ns|
    ensures Nibble(Pairs(ns) + rest, k) == Some(ns[k])
    decreases |ns|
  {
    var s := Pairs(ns) + rest;
    if k >= 2 {
      PairsHold(ns[2..], rest, k - 2);
      assert s[1..] == Pairs(ns[2..]) + rest;
      assert (k - 2) / 2 == k / 2 - 1 && s[k / 2] == s[1..][k / 2 - 1];
    }
  }

  lemma RunIsZeros(l: seq<nat>, n: nat)
    requires n <= |l| && forall i :: 0 <= i < n ==> l[i] == 0
    ensures l == Zeros(n) + l[n..]
  {
  }

  // Reading back nibble by nibble, from where the rest of the lengths start.
  lemma {:induction false} NibblesRead(src: seq<byte>, before: seq<nat>, l: seq<nat>)
    requires forall i :: 0 <= i < |before + Nibbles(l)| ==> Nibble(src, i) == Some((before + Nibbles(l))[i])
    ensures Unpacked(src, |before|, |l|) == Some((l, |before + Nibbles(l)|))
    decreases |l|
  {
    hide Nibble, Zeros;
    var all, k := before + Nibbles(l), |before|;
    if l == [] {
    } else if l[0] == 0 {
      var run := Run(l, 16);
      var head := [0, run - 1];
      assert all[k] == 0 && all[k + 1] == run - 1;
      assert before + head + Nibbles(l[run..]) == all;
      NibblesRead(src, before + head, l[run..]);
      RunIsZeros(l, run);
    } else {
      assert all[k] == l[0];
      assert before + [l[0]] + Nibbles(l[1..]) == all;
      NibblesRead(src, before + [l[0]], l[1..]);
      assert [l[0]] + l[1..] == l;
    }
  }

  // Packing loses nothing, whatever follows the table.
  lemma PackedReads(l: seq<nat>, rest: seq<byte>)
    requires Packable(l)
    ensures Unpacked(Packed(l) + rest, 0, |l|) == Some((l, |Nibbles(l)|))
    ensures |Packed(l)| == (|Nibbles(l)| + 1) / 2
  {
    NibblesFit(l);
    var ns, src := Nibbles(l), Packed(l) + rest;
    assert [] + ns == ns;
    forall i | 0 <= i < |ns| ensures Nibble(src, i) == Some(ns[i]) {
      PairsHold(ns, rest, i);
    }
    NibblesRead(src, [], l);
  }

  // ---------------------------------------------------------------- the loops

  method CountRun(l: seq<nat>, from: nat) returns (run: nat)
    requires from <= |l|
    ensures run == Run(l[from..], 16)
  {
    run := 0;
    while from + run < |l| && l[from + run] == 0 && run < 16
      invariant from + run <= |l| && run <= 16
      invariant Run(l[from..], 16) == run + Run(l[from + run..], 16 - run)
    {
      assert l[from + run..][1..] == l[from + run + 1..];
      run := run + 1;
    }
  }

  method WriteNibbles(l: seq<nat>) returns (ns: seq<nat>)
    ensures ns == Nibbles(l)
  {
    hide Nibbles;
    var i: nat := 0;
    ns := [];
    while i < |l|
      invariant i <= |l| && ns + Nibbles(l[i..]) == Nibbles(l)
      decreases |l| - i
    {
      NibblesFrom(l, i);
      if l[i] == 0 {
        var run := CountRun(l, i);
        Assoc(ns, [0, run - 1], Nibbles(l[i + run..]));
        assert ns + [0] + [run - 1] == ns + [0, run - 1];
        ns := ns + [0];
        ns := ns + [run - 1];
        i := i + run;
      } else {
        Assoc(ns, [l[i]], Nibbles(l[i + 1..]));
        ns := ns + [l[i]];
        i := i + 1;
      }
    }
    NoNibbles(l[i..]);
  }

  // The nibbles of what is left of the lengths.
  lemma NibblesFrom(l: seq<nat>, i: nat)
    requires i < |l|
    ensures l[i] != 0 ==> Nibbles(l[i..]) == [l[i]] + Nibbles(l[i + 1..])
    ensures var run := Run(l[i..], 16);
      l[i] == 0 ==> 0 < run && i + run <= |l| && Nibbles(l[i..]) == [0, run - 1] + Nibbles(l[i + run..])
  {
    var run := Run(l[i..], 16);
    assert l[i..][1..] == l[i + 1..];
    if l[i] == 0 { assert l[i..][run..] == l[i + run..]; }
  }

  lemma NoNibbles(l: seq<nat>)
    requires l == []
    ensures Nibbles(l) == []
  {
  }

  // The nibbles from k on.
  function From(ns: seq<nat>, k: nat): (r: seq<nat>)
    ensures (forall i :: 0 <= i < |ns| ==> ns[i] < 16) ==> forall i :: 0 <= i < |r| ==> r[i] < 16
  {
    if k >= |ns| then [] else ns[k..]
  }

  lemma PairsStep(ns: seq<nat>, k: nat)
    requires k < |ns| && forall i :: 0 <= i < |ns| ==> ns[i] < 16
    ensures Pairs(From(ns, k)) == [ns[k] + 16 * (if k + 1 < |ns| then ns[k + 1] else 0)] + Pairs(From(ns, k + 2))
    ensures ns[k] + 16 * (if k + 1 < |ns| then ns[k + 1] else 0) < 256
  {
    if k + 1 < |ns| { assert From(ns, k)[2..] == From(ns, k + 2); }
  }

  lemma FromEnds(ns: seq<nat>, k: nat)
    requires forall i :: 0 <= i < |ns| ==> ns[i] < 16
    ensures From(ns, 0) == ns
    ensures k >= |ns| ==> Pairs(From(ns, k)) == []
  {
  }

  method WritePairs(ns: seq<nat>) returns (out: seq<byte>)
    requires forall i :: 0 <= i < |ns| ==> ns[i] < 16
    ensures out == Pairs(ns)
  {
    hide Pairs, From;
    out := [];
    var k := 0;
    FromEnds(ns, 0);
    Assoc([], [], Pairs(ns));
    while k < |ns|
      invariant out + Pairs(From(ns, k)) == Pairs(ns)
    {
      PairsStep(ns, k);
      var pair := ns[k] + 16 * (if k + 1 < |ns| then ns[k + 1] else 0);
      Assoc(out, [pair], Pairs(From(ns, k + 2)));
      out := out + [pair];
      k := k + 2;
    }
    FromEnds(ns, k);
  }

  method PackLengths(l: seq<nat>) returns (out: seq<byte>)
    requires Packable(l)
    ensures out == Packed(l)
  {
    hide Pairs, Nibbles, Packable;
    NibblesFit(l);
    var ns := WriteNibbles(l);
    out := WritePairs(ns);
  }

  ghost predicate Resumes(all: Option<(seq<nat>, nat)>, done: seq<nat>, rest: Option<(seq<nat>, nat)>) {
    all == match rest case None => None case Some((l, end)) => Some((done + l, end))
  }

  lemma ResumesStart(all: Option<(seq<nat>, nat)>)
    ensures Resumes(all, [], all)
  {
    if all.Some? { assert [] + all.value.0 == all.value.0; }
  }

  lemma ResumesStep(all: Option<(seq<nat>, nat)>, done: seq<nat>, some: seq<nat>, rest: Option<(seq<nat>, nat)>)
    requires Resumes(all, done, match rest case None => None case Some((l, end)) => Some((some + l, end)))
    ensures Resumes(all, done + some, rest)
  {
    if rest.Some? { Assoc(done, some, rest.value.0); }
  }

  lemma ResumesNone(all: Option<(seq<nat>, nat)>, done: seq<nat>)
    ensures Resumes(all, done, None) ==> all == None
  {
  }

  lemma ResumesEnd(all: Option<(seq<nat>, nat)>, done: seq<nat>, k: nat)
    ensures Resumes(all, done, Some(([], k))) ==> all == Some((done, k))
  {
    assert done + [] == done;
  }

  // One length, or one run of symbols without a code, of the left symbols still to come.
  method ReadCode(src: seq<byte>, k: nat, left: nat) returns (r: Option<(seq<nat>, nat)>)
    requires left > 0
    ensures match r
      case None => Unpacked(src, k, left) == None
      case Some((some, next)) =>
        && 0 < |some| <= left
        && Unpacked(src, k, left) ==
             match Unpacked(src, next, left - |some|) case None => None case Some((l, end)) => Some((some + l, end))
  {
    hide Nibble, Unpacked, Zeros;
    var n := Nibble(src, k);
    UnpackedStep(src, k, left);
    if n.None? { return None; }
    if n.value > 0 { return Some(([n.value], k + 1)); }
    var m := Nibble(src, k + 1);
    if m.None? { return None; }
    var run := m.value + 1;
    if run > left { return None; }
    return Some((Zeros(run), k + 2));
  }

  // The lengths of count symbols at the front of src and the bytes they take, or None if
  // the table runs past src or past the symbols.
  method UnpackLengths(src: seq<byte>, count: nat) returns (r: Option<(seq<nat>, nat)>)
    ensures r == match Unpacked(src, 0, count) case None => None case Some((l, k)) => Some((l, (k + 1) / 2))
  {
    hide Resumes, Unpacked;
    var l: seq<nat>, k: nat := [], 0;
    ghost var all := Unpacked(src, 0, count);
    ResumesStart(all);
    while |l| < count
      invariant |l| <= count && Resumes(all, l, Unpacked(src, k, count - |l|))
    {
      var code := ReadCode(src, k, count - |l|);
      if code.None? {
        ResumesNone(all, l);
        return None;
      }
      var (some, next) := code.value;
      ResumesStep(all, l, some, Unpacked(src, next, count - |l| - |some|));
      l, k := l + some, next;
    }
    UnpackedNone(src, k);
    ResumesEnd(all, l, k);
    return Some((l, (k + 1) / 2));
  }

  lemma UnpackedNone(src: seq<byte>, k: nat)
    ensures Unpacked(src, k, 0) == Some(([], k))
  {
  }

  lemma UnpackedStep(src: seq<byte>, k: nat, count: nat)
    requires count > 0
    ensures Unpacked(src, k, count) ==
      match Nibble(src, k)
      case None => None
      case Some(n) =>
        if n > 0 then
          match Unpacked(src, k + 1, count - 1)
          case None => None
          case Some((rest, end)) => Some(([n] + rest, end))
        else
          match Nibble(src, k + 1)
          case None => None
          case Some(m) =>
            if m + 1 > count then None
            else
              match Unpacked(src, k + 2, count - (m + 1))
              case None => None
              case Some((rest, end)) => Some((Zeros(m + 1) + rest, end))
  {
  }
}
