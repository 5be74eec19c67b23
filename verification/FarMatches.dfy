// src/ldm.rs: repeats anywhere in the input, and the cursor a parse walks them with.
// Where candidates come from, hashes and a table of cut positions, does not matter: the
// bytes are compared.

module FarMatches {
  import opened Common
  import opened ByteStrings

  const MIN_LEN: nat := 32
  const HASH_LEN: nat := 32
  const CHUNK: nat := 1024
  const GATE_AT: nat := 0x100_0000
  const GATE_OFFSET: nat := 0x10_0000
  const GATE_YIELD: nat := 32
  const EARLY_AT: nat := 0x40_0000
  const EARLY_YIELD: nat := 64
  const MAX_POS: nat := 0x1_0000_0000

  // len bytes at start equal the bytes off back.
  datatype Far = Far(start: nat, len: nat, off: nat)

  // The widths of a table entry: the position's low bits under some of its hash.
  datatype Layout = Layout(posBits: nat, checkBits: nat)

  ghost predicate Agrees(input: seq<byte>, from: nat, to: nat, off: nat) {
    off <= from && to <= |input| && forall k :: from <= k < to ==> input[k] == input[k - off]
  }

  // A match that cannot be longer at either end, below the earlier matches' end.
  ghost predicate Maximal(input: seq<byte>, m: Far, covered: nat)
    requires Max(covered, m.off) <= m.start && m.start + m.len <= |input|
  {
    && (m.start + m.len == |input| || input[m.start + m.len] != input[m.start + m.len - m.off])
    && (m.start == Max(covered, m.off) || input[m.start - 1] != input[m.start - 1 - m.off])
  }

  ghost predicate Genuine(input: seq<byte>, m: Far, covered: nat, window: nat) {
    && m.len >= MIN_LEN && MIN_LEN <= m.off < window && m.off <= m.start && covered <= m.start
    && m.start + m.len <= |input| && Agrees(input, m.start, m.start + m.len, m.off) && Maximal(input, m, covered)
  }

  // Where the first n matches end.
  function EndOf(list: seq<Far>, n: nat): nat
    requires n <= |list|
  {
    if n == 0 then 0 else list[n - 1].start + list[n - 1].len
  }

  // In position order and without overlaps: each starts at or after the one before ends.
  ghost predicate AllGenuine(input: seq<byte>, list: seq<Far>, window: nat) {
    forall i :: 0 <= i < |list| ==> Genuine(input, list[i], EndOf(list, i), window)
  }

  // ---------------------------------------------------------------- extending

  method Forward(input: seq<byte>, pos: nat, c: nat) returns (len: nat)
    requires c <= pos <= |input|
    ensures pos + len <= |input| && Agrees(input, pos, pos + len, pos - c)
    ensures pos + len == |input| || input[pos + len] != input[c + len]
  {
    var max := |input| - pos;
    len := 0;
    while len + 8 <= max
      invariant len <= max && Agrees(input, pos, pos + len, pos - c)
    {
      var same := 0;
      while same < 8 && input[pos + len + same] == input[c + len + same]
        invariant same <= 8 && Agrees(input, pos, pos + len + same, pos - c)
      {
        same := same + 1;
      }
      len := len + same;
      if same < 8 { break; }
    }
    if len + 8 > max {
      while len < max && input[pos + len] == input[c + len]
        invariant len <= max && Agrees(input, pos, pos + len, pos - c)
      {
        len := len + 1;
      }
    }
  }

  // Back to the match's true start, eight bytes at a time and then singly.
  method Backward(input: seq<byte>, pos: nat, len0: nat, off: nat, floor: nat) returns (start: nat, len: nat)
    requires off <= floor <= pos && pos + len0 <= |input| && Agrees(input, pos, pos + len0, off)
    ensures floor <= start <= pos && start + len == pos + len0 && Agrees(input, start, start + len, off)
    ensures start == floor || input[start - 1] != input[start - 1 - off]
  {
    start, len := pos, len0;
    while start >= floor + 8
      invariant floor <= start <= pos && start + len == pos + len0 && Agrees(input, start, start + len, off)
      decreases start
    {
      var same := 0;
      while same < 8 && input[start - 1 - same] == input[start - 1 - same - off]
        invariant same <= 8 && Agrees(input, start - same, start + len, off)
      {
        same := same + 1;
      }
      start, len := start - same, len + same;
      if same < 8 { break; }
    }
    while start > floor && input[start - 1] == input[start - 1 - off]
      invariant floor <= start <= pos && start + len == pos + len0 && Agrees(input, start, start + len, off)
      decreases start
    {
      start, len := start - 1, len + 1;
    }
  }

  // ---------------------------------------------------------------- the pass

  // A position's low bits under some bits of its hash.
  function EntryFor(pos: nat, h: nat, layout: Layout): nat {
    h % Pow2(layout.checkBits) * Pow2(layout.posBits) + pos % Pow2(layout.posBits)
  }

  function CheckOf(entry: nat, layout: Layout): int {
    entry / Pow2(layout.posBits)
  }

  // How far back the nearest position with an entry's low bits lies: the subtraction
  // wraps, and the window's bits are what is left of it.
  function OffsetTo(pos: nat, entry: nat, layout: Layout): (off: nat)
    ensures off < Pow2(layout.posBits)
  {
    (pos as int - entry % Pow2(layout.posBits)) % Pow2(layout.posBits)
  }

  // An entry names the position it was made for, as long as that is less than a window back.
  lemma EntryNames(pos: nat, p: nat, h: nat, layout: Layout)
    requires p <= pos < p + Pow2(layout.posBits)
    ensures OffsetTo(pos, EntryFor(p, h, layout), layout) == pos - p
    ensures CheckOf(EntryFor(p, h, layout), layout) == h % Pow2(layout.checkBits)
  {
    hide Pow2;
    var w := Pow2(layout.posBits);
    DivModIs(EntryFor(p, h, layout), w, h % Pow2(layout.checkBits), p % w);
    assert p == w * (p / w) + p % w;
    DivModIs(pos - p % w, w, p / w, pos - p);
  }

  // One anchor: its slot learns it, and a candidate that verifies becomes a match.
  method Visit(input: seq<byte>, table: array<nat>, pos: nat, h: nat, covered: nat, layout: Layout, slots: nat -> nat)
    returns (r: Option<Far>)
    requires pos <= |input| && table.Length > 0
    modifies table
    ensures r.Some? ==> Genuine(input, r.value, covered, Pow2(layout.posBits))
  {
    hide Pow2;
    var slot := slots(h) % table.Length;
    var entry := table[slot];
    table[slot] := EntryFor(pos, h, layout);
    if pos < covered || CheckOf(entry, layout) != CheckOf(table[slot], layout) { return None; }
    var off := OffsetTo(pos, entry, layout);
    if off < MIN_LEN || off > pos { return None; }
    var len := Forward(input, pos, pos - off);
    if len < MIN_LEN { return None; }
    var start, all := Backward(input, pos, len, off, Max(covered, off));
    r := Some(Far(start, all, off));
  }

  // The matches of a whole input. The anchors of a chunk are any positions in it.
  method Find(input: seq<byte>, gated: bool, tableBits: nat, layout: Layout, slots: nat -> nat,
              anchors: (nat, nat) -> seq<(nat, nat)>)
    returns (list: seq<Far>)
    requires |input| < MAX_POS
    requires forall a, b, k :: 0 <= k < |anchors(a, b)| ==> anchors(a, b)[k].0 < b
    ensures AllGenuine(input, list, Pow2(layout.posBits))
    ensures |input| < 2 * MIN_LEN + HASH_LEN ==> list == []
  {
    hide Genuine;
    list := [];
    var n := |input|;
    if n < 2 * MIN_LEN + HASH_LEN { return; }
    var table := new nat[Pow2(tableBits)](_ => MAX_POS - 1);
    var end := n - HASH_LEN;
    var gateAt := if gated then Some(Min(n / 2, GATE_AT)) else None;
    var earlyAt := if gated then Some(Min(n / 2, EARLY_AT)) else None;
    var covered, yieldAll, yieldFar := 0, 0, 0;
    var chunkStart := 0;
    while chunkStart < end
      modifies table
      invariant AllGenuine(input, list, Pow2(layout.posBits)) && covered == EndOf(list, |list|)
      decreases end - chunkStart
    {
      if earlyAt.Some? && chunkStart >= earlyAt.value {
        if yieldAll < earlyAt.value / EARLY_YIELD { break; }
        earlyAt := None;
      }
      if gateAt.Some? && chunkStart >= gateAt.value {
        if yieldFar < gateAt.value / GATE_YIELD { break; }
        gateAt := None;
      }
      var chunkEnd := Min(chunkStart + CHUNK, end);
      var found := anchors(Max(chunkStart, covered), chunkEnd);
      for i := 0 to |found|
        modifies table
        invariant AllGenuine(input, list, Pow2(layout.posBits)) && covered == EndOf(list, |list|)
      {
        var m := Visit(input, table, found[i].0, found[i].1, covered, layout, slots);
        if m.Some? {
          FindsMore(input, list, m.value, Pow2(layout.posBits));
          list := list + [m.value];
          covered := m.value.start + m.value.len;
          yieldAll := yieldAll + m.value.len;
          if m.value.off >= GATE_OFFSET { yieldFar := yieldFar + m.value.len; }
        }
      }
      chunkStart := chunkEnd;
    }
  }

  lemma FindsMore(input: seq<byte>, list: seq<Far>, m: Far, window: nat)
    requires AllGenuine(input, list, window) && Genuine(input, m, EndOf(list, |list|), window)
    ensures AllGenuine(input, list + [m], window)
  {
    hide Genuine;
    var more := list + [m];
    forall i | 0 <= i < |more| ensures Genuine(input, more[i], EndOf(more, i), window) {
      if i < |list| { assert EndOf(more, i) == EndOf(list, i); } else { assert EndOf(more, i) == EndOf(list, i); }
    }
  }

  // ---------------------------------------------------------------- the cursor

  // In order and without overlaps, and none is empty.
  ghost predicate Ordered(list: seq<Far>) {
    && (forall i :: 0 <= i < |list| ==> list[i].len > 0)
    && (forall a, b :: 0 <= a < b < |list| ==> list[a].start + list[a].len <= list[b].start)
  }

  lemma GenuineAt(input: seq<byte>, list: seq<Far>, window: nat, i: nat)
    requires AllGenuine(input, list, window) && i < |list|
    ensures list[i].len > 0 && EndOf(list, i) <= list[i].start
  {
    hide Agrees, Maximal;
    assert Genuine(input, list[i], EndOf(list, i), window);
  }

  lemma {:induction false} GenuineEnds(input: seq<byte>, list: seq<Far>, window: nat, a: nat, b: nat)
    requires AllGenuine(input, list, window) && a < b <= |list|
    ensures list[a].start + list[a].len <= EndOf(list, b)
    decreases b
  {
    hide AllGenuine;
    GenuineAt(input, list, window, b - 1);
    if a < b - 1 { GenuineEnds(input, list, window, a, b - 1); }
  }

  lemma GenuineOrdered(input: seq<byte>, list: seq<Far>, window: nat)
    requires AllGenuine(input, list, window)
    ensures Ordered(list)
  {
    hide AllGenuine;
    forall i | 0 <= i < |list| ensures list[i].len > 0 {
      GenuineAt(input, list, window, i);
    }
    forall a, b | 0 <= a < b < |list| ensures list[a].start + list[a].len <= list[b].start {
      GenuineEnds(input, list, window, a, b);
      GenuineAt(input, list, window, b);
    }
  }

  // A linear search: the match that covers pos, as its length from there and its offset.
  function Covering(list: seq<Far>, pos: nat): Option<(nat, nat)> {
    if list == [] then None
    else if list[0].start <= pos < list[0].start + list[0].len then Some((list[0].start + list[0].len - pos, list[0].off))
    else Covering(list[1..], pos)
  }

  lemma {:induction false} CoveringAt(list: seq<Far>, pos: nat, i: nat)
    requires i < |list| && list[i].start <= pos < list[i].start + list[i].len
    requires forall j :: 0 <= j < i ==> !(list[j].start <= pos < list[j].start + list[j].len)
    ensures Covering(list, pos) == Some((list[i].start + list[i].len - pos, list[i].off))
  {
    if i > 0 {
      assert list[1..][i - 1] == list[i];
      forall j | 0 <= j < i - 1 ensures !(list[1..][j].start <= pos < list[1..][j].start + list[1..][j].len) {
        assert list[1..][j] == list[j + 1];
      }
      CoveringAt(list[1..], pos, i - 1);
    }
  }

  lemma {:induction false} CoveringNone(list: seq<Far>, pos: nat)
    requires forall j :: 0 <= j < |list| ==> !(list[j].start <= pos < list[j].start + list[j].len)
    ensures Covering(list, pos) == None
  {
    if list != [] {
      forall j | 0 <= j < |list[1..]| ensures !(list[1..][j].start <= pos < list[1..][j].start + list[1..][j].len) {
        assert list[1..][j] == list[j + 1];
      }
      CoveringNone(list[1..], pos);
    }
  }

  ghost predicate EndedBy(list: seq<Far>, n: nat, pos: nat) {
    n <= |list| && forall j :: 0 <= j < n ==> list[j].start + list[j].len <= pos
  }

  class Cursor {
    const list: seq<Far>
    var i: nat
    // The match in hand; no start once the list is used up.
    var start: Option<nat>
    var end: nat
    var off: nat
    // The least position that may still be asked for.
    ghost var from: nat

    ghost predicate Loaded()
      reads this
    {
      && Ordered(list) && i <= |list|
      && (i < |list| ==> start == Some(list[i].start) && end == list[i].start + list[i].len && off == list[i].off)
      && (i == |list| ==> start == None)
    }

    // Every match before the one in hand ends at or before any position to come.
    ghost predicate Valid()
      reads this
    {
      Loaded() && EndedBy(list, i, from)
    }

    constructor (list: seq<Far>, from: nat)
      requires Ordered(list)
      ensures Valid() && this.list == list && this.from == from
    {
      this.list, this.from := list, from;
      start, end, off := None, 0, 0;
      i := 0;
      new;
      // partition_point: the ends grow, so the first match ending behind from splits the list.
      var lo, hi := 0, |list|;
      while lo < hi
        invariant lo <= hi <= |list| && this.list == list && this.from == from
        invariant EndedBy(list, lo, from)
        invariant hi < |list| ==> list[hi].start + list[hi].len > from
      {
        var mid := (lo + hi) / 2;
        if list[mid].start + list[mid].len <= from { lo := mid + 1; } else { hi := mid; }
      }
      i := lo;
      Load();
    }

    method Load()
      requires Ordered(list) && i <= |list|
      modifies `start, `end, `off
      ensures Loaded()
    {
      if i < |list| {
        start, end, off := Some(list[i].start), list[i].start + list[i].len, list[i].off;
      } else {
        start := None;
      }
    }

    // The match covering pos. For positions that never go back it is the linear search's.
    method At(pos: nat) returns (r: Option<(nat, nat)>)
      requires Valid() && from <= pos
      modifies this
      ensures Valid() && from == pos
      ensures r == Covering(list, pos)
    {
      from := pos;
      if start.None? || pos < start.value {
        NotCovered(list, i, pos);
        return None;
      }
      while pos >= end
        invariant Loaded() && i < |list| && EndedBy(list, i, pos) && from == pos && start.value <= pos
        decreases |list| - i
      {
        i := i + 1;
        Load();
        if start.None? || pos < start.value {
          NotCovered(list, i, pos);
          return None;
        }
      }
      Covered(list, i, pos);
      return Some((end - pos, off));
    }
  }

  lemma NotCovered(list: seq<Far>, i: nat, pos: nat)
    requires Ordered(list) && EndedBy(list, i, pos) && (i < |list| ==> pos < list[i].start)
    ensures Covering(list, pos) == None
  {
    hide Covering;
    CoveringNone(list, pos);
  }

  lemma Covered(list: seq<Far>, i: nat, pos: nat)
    requires Ordered(list) && EndedBy(list, i, pos) && i < |list| && list[i].start <= pos < list[i].start + list[i].len
    ensures Covering(list, pos) == Some((list[i].start + list[i].len - pos, list[i].off))
  {
    hide Covering;
    CoveringAt(list, pos, i);
  }
}
