// The container's page codec filled with the Snappy compressor and the search for the
// build that wrote a stream (open_parquet and produce of src/deflate.rs with
// src/resnappy.rs).

module SnappyPages {
  import opened Common
  import opened ByteStrings
  import opened Recipes
  import opened Closing
  import S = Snappy

  // The first build from k on that writes the stream from its content.
  function FirstBuild(stream: seq<byte>, text: seq<byte>, builds: seq<S.Build>, k: nat): (r: Option<nat>)
    requires k <= |builds|
    ensures r.Some? ==> k <= r.value < |builds|
    decreases |builds| - k
  {
    if k == |builds| then None
    else if S.Compressed(text, builds[k]) == stream then Some(k)
    else FirstBuild(stream, text, builds, k + 1)
  }

  lemma {:induction false} FirstBuildWrites(stream: seq<byte>, text: seq<byte>, builds: seq<S.Build>, k: nat)
    requires k <= |builds|
    ensures var r := FirstBuild(stream, text, builds, k); r.Some? ==> S.Compressed(text, builds[r.value]) == stream
    decreases |builds| - k
  {
    hide S.Compressed;
    if k < |builds| { FirstBuildWrites(stream, text, builds, k + 1); }
  }

  // The build at i is the first when it writes the stream and none before it does; with
  // i past the end there is none.
  lemma {:induction false} FirstBuildIs(stream: seq<byte>, text: seq<byte>, builds: seq<S.Build>, k: nat, i: nat)
    requires k <= i <= |builds| && forall j :: k <= j < i ==> S.Compressed(text, builds[j]) != stream
    requires i < |builds| ==> S.Compressed(text, builds[i]) == stream
    ensures FirstBuild(stream, text, builds, k) == if i < |builds| then Some(i) else None
    decreases i - k
  {
    hide S.Compressed;
    if k < i { FirstBuildIs(stream, text, builds, k + 1, i); }
  }

  // Any build that writes the stream is no earlier than the first.
  lemma {:induction false} FirstBuildAtMost(stream: seq<byte>, text: seq<byte>, builds: seq<S.Build>, k: nat, i: nat)
    requires k <= i < |builds| && S.Compressed(text, builds[i]) == stream
    ensures var r := FirstBuild(stream, text, builds, k); r.Some? && r.value <= i
    decreases i - k
  {
    hide S.Compressed;
    if k < i { FirstBuildAtMost(stream, text, builds, k + 1, i); }
  }

  // A stream as a page: its content, and the number of the build that writes it.
  function Reproduced(stream: seq<byte>, builds: seq<S.Build>): (r: Option<Page>)
    requires |builds| <= 256
    ensures r.Some? ==> r.value.tag == SNAPPY_PAGE && |r.value.text| < 0x1_0000_0000
  {
    match S.Content(stream)
    case None => None
    case Some(text) =>
      if |text| >= 0x1_0000_0000 then None
      else
        match FirstBuild(stream, text, builds, 0)
        case None => None
        case Some(i) => Some(Page(SNAPPY_PAGE, i, text))
  }

  function Rewritten(tag: byte, build: byte, text: seq<byte>, builds: seq<S.Build>): Option<seq<byte>> {
    if tag == SNAPPY_PAGE && build < |builds| then Some(S.Compressed(text, builds[build])) else None
  }

  // Codecs that open Snappy pages, wherever a scan finds them, and nothing else.
  function SnappyCodecs(builds: seq<S.Build>, isContainer: seq<byte> -> bool,
                        scan: (seq<byte>, seq<byte>) -> Option<seq<Place>>): Codecs
    requires |builds| <= 256
  {
    Codecs(Reflate, isContainer, scan,
           d => None, (t, r) => None, d => None, (t, r) => None, d => None, d => None, (ps, t) => None, d => None, d => None,
           d => Reproduced(d, builds), (tag, build, text) => Rewritten(tag, build, text, builds), d => None, (r, t) => None)
  }

  // What the search finds writes the stream again, so these codecs are inverse.
  lemma SnappyInverse(builds: seq<S.Build>, isContainer: seq<byte> -> bool, scan: (seq<byte>, seq<byte>) -> Option<seq<Place>>)
    requires |builds| <= 256
    ensures Inverse(SnappyCodecs(builds, isContainer, scan))
  {
    hide FirstBuild, Reproduced, S.Compressed;
    forall d, p | Reproduced(d, builds) == Some(p) ensures Rewritten(p.tag, p.build, p.text, builds) == Some(d) {
      ReproducedRewrites(d, p, builds);
    }
  }

  lemma ReproducedRewrites(d: seq<byte>, p: Page, builds: seq<S.Build>)
    requires |builds| <= 256 && Reproduced(d, builds) == Some(p)
    ensures p.tag == SNAPPY_PAGE && p.build < |builds| && S.Compressed(p.text, builds[p.build]) == d
  {
    hide S.Compressed, S.Content, FirstBuild;
    FirstBuildWrites(d, p.text, builds, 0);
  }

  // And they do open something: every page a listed build wrote, with its own content.
  lemma WrittenPagesOpen(input: seq<byte>, builds: seq<S.Build>, i: nat)
    requires |builds| <= 256 && i < |builds| && |input| < 0x1_0000_0000
    ensures var r := Reproduced(S.Compressed(input, builds[i]), builds);
      r.Some? && r.value.text == input && r.value.build <= i
  {
    hide FirstBuild, S.Compressed, S.Content;
    S.RoundTrip(input, builds[i]);
    FirstBuildAtMost(S.Compressed(input, builds[i]), input, builds, 0, i);
  }

  // The search of the program finds that page.
  method ReproducePage(stream: seq<byte>, builds: seq<S.Build>) returns (r: Option<Page>)
    requires |builds| <= 256
    ensures r == Reproduced(stream, builds)
  {
    hide FirstBuild, S.Compressed, S.Content;
    var found := S.Reproduce(stream, builds);
    if found.None? {
      ghost var content := S.Content(stream);
      if content.Some? && |content.value| < 0x1_0000_0000 { FirstBuildIs(stream, content.value, builds, 0, |builds|); }
      return None;
    }
    FirstBuildIs(stream, found.value.0, builds, 0, found.value.1);
    return Some(Page(SNAPPY_PAGE, found.value.1, found.value.0));
  }
}
