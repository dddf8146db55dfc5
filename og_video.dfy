/** The `og:video` extractor: a case-insensitive search for
      <meta\s+property="og:video"\s+content="([^"]+)"
    that returns the first capture group of the leftmost match, or nothing.

    The pattern is matched directly rather than through a regular-expression
    engine. Every `\s+` is followed by a non-space literal and `[^"]+` by a
    quote, so the greedy runs never need to give characters back: a match at
    a position exists exactly when the maximal whitespace runs are non-empty,
    the literals line up and a closing quote follows a non-empty quote-free
    run. */
module OgVideo {
  import opened Wrappers
  import opened Text

  const MetaOpen: string := "<meta"
  const PropertyAttr: string := "property=\"og:video\""
  const ContentOpen: string := "content=\""

  /** The case folding `re.IGNORECASE` applies to the letters of the
      pattern: ASCII capitals fold to lower case, and both the dotted
      capital I (U+0130) and the dotless small i (U+0131) fold to `i`. */
  function Fold(c: char): char {
    if 'A' <= c <= 'Z' then (c as int + 32) as char
    else if c == '\U{0130}' || c == '\U{0131}' then 'i'
    else c
  }

  /** `lit` occurs at `h[i..]` up to case. */
  predicate LiteralAt(h: string, i: nat, lit: string) {
    i + |lit| <= |h| && forall k :: 0 <= k < |lit| ==> Fold(h[i + k]) == Fold(lit[k])
  }

  /** Where, in `h`, the capture group lies. */
  datatype Span = Span(start: nat, end: nat)

  /** `lit\s+` at `i`: the position after the whitespace run, when the
      literal is there and at least one whitespace character follows it. */
  function SpacedLiteral(h: string, i: nat, lit: string): (r: Option<nat>)
    ensures r.Some? ==> i + |lit| < r.value <= |h|
  {
    if !LiteralAt(h, i, lit) then None
    else
      var a := i + |lit|;
      var b := SkipSpace(h, a);
      if b == a then None else Some(b)
  }

  /** `content="([^"]+)"` at `d`: the span of the quoted value. */
  function QuotedValue(h: string, d: nat): (r: Option<Span>)
    ensures r.Some? ==> d < r.value.start < r.value.end < |h|
    ensures r.Some? ==> h[r.value.end] == '"'
    ensures r.Some? ==> forall k :: r.value.start <= k < r.value.end ==> h[k] != '"'
  {
    if !LiteralAt(h, d, ContentOpen) then None
    else
      var s := d + |ContentOpen|;
      var e := Find(h, '"', s);
      if e == s || e == |h| then None else Some(Span(s, e))
  }

  /** The match of the pattern that starts at `i`, if there is one, given
      by the span of its capture group. */
  function CaptureAt(h: string, i: nat): (r: Option<Span>)
    ensures r.Some? ==> i < r.value.start < r.value.end < |h|
    ensures r.Some? ==> h[r.value.end] == '"'
    ensures r.Some? ==> forall k :: r.value.start <= k < r.value.end ==> h[k] != '"'
  {
    match SpacedLiteral(h, i, MetaOpen)
    case None => None
    case Some(b) =>
      match SpacedLiteral(h, b, PropertyAttr)
      case None => None
      case Some(d) => QuotedValue(h, d)
  }

  /** The least `j` in `from..n` where `p` holds, if any: how `re.search`
      settles on the leftmost of several matches. */
  function Leftmost(p: nat -> bool, from: nat, n: nat): (r: Option<nat>)
    requires from <= n
    ensures r.Some? ==> from <= r.value <= n && p(r.value)
    ensures forall j :: from <= j <= n && (r.None? || j < r.value) ==> !p(j)
    decreases n - from
  {
    if p(from) then Some(from)
    else if from == n then None
    else Leftmost(p, from + 1, n)
  }

  /** Two tests that agree on `from..n` find the same leftmost position. */
  lemma {:induction false} LeftmostSame(p: nat -> bool, q: nat -> bool, from: nat, n: nat)
    requires from <= n
    requires forall j :: from <= j <= n ==> p(j) == q(j)
    ensures Leftmost(p, from, n) == Leftmost(q, from, n)
    decreases n - from
  {
    if !p(from) && from < n {
      LeftmostSame(p, q, from + 1, n);
    }
  }

  /** The test `re.search` applies at each position of `h`. */
  function MatchesAt(h: string): nat -> bool {
    (j: nat) => CaptureAt(h, j).Some?
  }

  /** Where the leftmost match of the pattern in `h` starts. */
  function FirstMatch(h: string): (r: Option<nat>)
    ensures r.Some? ==> r.value <= |h| && CaptureAt(h, r.value).Some?
    ensures forall j :: 0 <= j <= |h| && (r.None? || j < r.value) ==> CaptureAt(h, j).None?
  {
    assert forall j: nat :: MatchesAt(h)(j) == CaptureAt(h, j).Some?;
    Leftmost(MatchesAt(h), 0, |h|)
  }

  /** `_extract_og_video`: group 1 of the leftmost match, if any. */
  function ExtractOgVideo(h: string): (r: Option<string>)
    ensures r.None? <==> forall i :: 0 <= i <= |h| ==> CaptureAt(h, i).None?
    ensures r.Some? ==> |r.value| > 0
  {
    match FirstMatch(h)
    case None => None
    case Some(i) =>
      var sp := CaptureAt(h, i).value;
      Some(h[sp.start..sp.end])
  }

  /** The capture of the leftmost match is what is extracted. */
  lemma ExtractLeftmost(h: string, i: nat)
    requires i <= |h| && CaptureAt(h, i).Some?
    requires forall j :: 0 <= j < i ==> CaptureAt(h, j).None?
    ensures ExtractOgVideo(h) == Some(h[CaptureAt(h, i).value.start..CaptureAt(h, i).value.end])
  {
    var r := FirstMatch(h);
    assert r == Some(i) by {
      if r.None? {
      } else if r.value < i {
      } else if r.value > i {
      }
    }
  }

  /** A capture is a quote-free run closed by a quote. */
  lemma CaptureQuoteFree(h: string, i: nat)
    requires CaptureAt(h, i).Some?
    ensures h[CaptureAt(h, i).value.end] == '"'
    ensures '"' !in h[CaptureAt(h, i).value.start..CaptureAt(h, i).value.end]
  {
    var sp := CaptureAt(h, i).value;
    SliceQuoteFree(h, sp.start, sp.end);
  }

  lemma SliceQuoteFree(h: string, s: nat, e: nat)
    requires s <= e <= |h|
    requires forall k :: s <= k < e ==> h[k] != '"'
    ensures '"' !in h[s..e]
  {
    var v := h[s..e];
    forall k | 0 <= k < |v|
      ensures v[k] != '"'
    {
      assert v[k] == h[s + k];
    }
  }

  /** What is extracted never contains a double quote. */
  lemma ExtractQuoteFree(h: string)
    ensures ExtractOgVideo(h).Some? ==> '"' !in ExtractOgVideo(h).value
  {
    var r := FirstMatch(h);
    if r.Some? {
      CaptureQuoteFree(h, r.value);
    }
  }

  // ---- Case-insensitivity ----

  /** `h1` and `h2` are equal up to `Fold`: they differ only in ASCII letter
      case and in U+0130 or U+0131 against `i`. */
  predicate SameFold(h1: string, h2: string) {
    |h1| == |h2| && forall k :: 0 <= k < |h1| ==> Fold(h1[k]) == Fold(h2[k])
  }

  /** Only letters fold together, and letters are neither whitespace nor quotes. */
  lemma FoldKeeps(c: char, d: char)
    requires Fold(c) == Fold(d)
    ensures IsSpace(c) == IsSpace(d)
    ensures (c == '"') == (d == '"')
  {
    if c != d {
      assert 'a' <= Fold(c) <= 'z';
      assert c as int in {304, 305} || 'A' <= c <= 'Z' || 'a' <= c <= 'z';
      assert d as int in {304, 305} || 'A' <= d <= 'Z' || 'a' <= d <= 'z';
    }
  }

  lemma {:induction false} SkipSpaceFold(h1: string, h2: string, i: nat)
    requires SameFold(h1, h2) && i <= |h1|
    ensures SkipSpace(h1, i) == SkipSpace(h2, i)
    decreases |h1| - i
  {
    if i < |h1| {
      FoldKeeps(h1[i], h2[i]);
      SkipSpaceFold(h1, h2, i + 1);
    }
  }

  lemma {:induction false} FindFold(h1: string, h2: string, i: nat)
    requires SameFold(h1, h2) && i <= |h1|
    ensures Find(h1, '"', i) == Find(h2, '"', i)
    decreases |h1| - i
  {
    if i < |h1| {
      FoldKeeps(h1[i], h2[i]);
      FindFold(h1, h2, i + 1);
    }
  }

  lemma LiteralFold(h1: string, h2: string, i: nat, lit: string)
    requires SameFold(h1, h2)
    ensures LiteralAt(h1, i, lit) == LiteralAt(h2, i, lit)
  {
  }

  lemma SpacedLiteralFold(h1: string, h2: string, i: nat, lit: string)
    requires SameFold(h1, h2)
    ensures SpacedLiteral(h1, i, lit) == SpacedLiteral(h2, i, lit)
  {
    LiteralFold(h1, h2, i, lit);
    if LiteralAt(h1, i, lit) {
      SkipSpaceFold(h1, h2, i + |lit|);
    }
  }

  lemma QuotedValueFold(h1: string, h2: string, d: nat)
    requires SameFold(h1, h2)
    ensures QuotedValue(h1, d) == QuotedValue(h2, d)
  {
    LiteralFold(h1, h2, d, ContentOpen);
    if LiteralAt(h1, d, ContentOpen) {
      FindFold(h1, h2, d + |ContentOpen|);
    }
  }

  /** A match starts at the same place, with the same capture span, whatever
      the letter case of the page. */
  lemma CaptureFold(h1: string, h2: string, i: nat)
    requires SameFold(h1, h2)
    ensures CaptureAt(h1, i) == CaptureAt(h2, i)
  {
    SpacedLiteralFold(h1, h2, i, MetaOpen);
    var b := SpacedLiteral(h1, i, MetaOpen);
    if b.Some? {
      SpacedLiteralFold(h1, h2, b.value, PropertyAttr);
      var d := SpacedLiteral(h1, b.value, PropertyAttr);
      if d.Some? {
        QuotedValueFold(h1, h2, d.value);
      }
    }
  }

  /** The leftmost match starts at the same place whatever the letter case. */
  lemma FirstMatchFold(h1: string, h2: string)
    requires SameFold(h1, h2)
    ensures FirstMatch(h1) == FirstMatch(h2)
  {
    forall j: nat | j <= |h1|
      ensures MatchesAt(h1)(j) == MatchesAt(h2)(j)
    {
      CaptureFold(h1, h2, j);
    }
    LeftmostSame(MatchesAt(h1), MatchesAt(h2), 0, |h1|);
  }

  lemma SliceFold(h1: string, h2: string, s: nat, e: nat)
    requires SameFold(h1, h2) && s <= e <= |h1|
    ensures SameFold(h1[s..e], h2[s..e])
  {
    assert forall k :: 0 <= k < e - s ==> h1[s..e][k] == h1[s + k] && h2[s..e][k] == h2[s + k];
  }

  /** Matching ignores case: two pages that differ only in letter case both
      yield a URL or both yield none, and the URLs differ only in case. */
  lemma ExtractIgnoresCase(h1: string, h2: string)
    requires SameFold(h1, h2)
    ensures ExtractOgVideo(h1).Some? == ExtractOgVideo(h2).Some?
    ensures ExtractOgVideo(h1).Some? ==> SameFold(ExtractOgVideo(h1).value, ExtractOgVideo(h2).value)
  {
    FirstMatchFold(h1, h2);
    var r := FirstMatch(h1);
    if r.Some? {
      CaptureFold(h1, h2, r.value);
      var sp := CaptureAt(h1, r.value).value;
      SliceFold(h1, h2, sp.start, sp.end);
    }
  }

  // ---- The tag Instagram pages carry ----

  /** `<meta property="og:video" content="url"`, with the given whitespace
      between the attributes. */
  function Tag(ws1: string, ws2: string, url: string): string {
    MetaOpen + ws1 + PropertyAttr + ws2 + ContentOpen + url + "\""
  }

  lemma LiteralHere(pre: string, lit: string, post: string)
    ensures LiteralAt(pre + lit + post, |pre|, lit)
  {
    var h := pre + lit + post;
    assert forall k :: 0 <= k < |lit| ==> h[|pre| + k] == lit[k];
  }

  lemma SpaceRunHere(pre: string, ws: string, post: string)
    requires AllSpace(ws) && post != [] && !IsSpace(post[0])
    ensures SkipSpace(pre + ws + post, |pre|) == |pre| + |ws|
  {
    var h := pre + ws + post;
    assert forall k :: |pre| <= k < |pre| + |ws| ==> h[k] == ws[k - |pre|];
    SkipSpaceTo(h, |pre|, |pre| + |ws|);
  }

  lemma QuoteHere(pre: string, url: string, post: string)
    requires '"' !in url && post != [] && post[0] == '"'
    ensures Find(pre + url + post, '"', |pre|) == |pre| + |url|
  {
    var h := pre + url + post;
    assert forall k :: |pre| <= k < |pre| + |url| ==> h[k] == url[k - |pre|];
    FindTo(h, '"', |pre|, |pre| + |url|);
  }

  /** `lit` followed by a whitespace run is recognised, and the run is skipped. */
  lemma SpacedLiteralHere(pre: string, lit: string, ws: string, post: string)
    requires ws != [] && AllSpace(ws) && post != [] && !IsSpace(post[0])
    ensures SpacedLiteral(pre + lit + ws + post, |pre|, lit) == Some(|pre| + |lit| + |ws|)
  {
    LiteralHere(pre, lit, ws + post);
    assert pre + lit + ws + post == pre + lit + (ws + post);
    SpaceRunHere(pre + lit, ws, post);
  }

  /** `content="url"` is recognised and its value captured. */
  lemma QuotedValueHere(pre: string, url: string, rest: string)
    requires url != [] && '"' !in url
    ensures QuotedValue(pre + ContentOpen + url + "\"" + rest, |pre|)
         == Some(Span(|pre| + |ContentOpen|, |pre| + |ContentOpen| + |url|))
  {
    var h := pre + ContentOpen + url + "\"" + rest;
    assert h == pre + ContentOpen + (url + "\"" + rest);
    LiteralHere(pre, ContentOpen, url + "\"" + rest);
    assert h == (pre + ContentOpen) + url + ("\"" + rest);
    QuoteHere(pre + ContentOpen, url, "\"" + rest);
  }

  /** `lit\s+` recognised where the rest of the page reads `lit`, then
      whitespace, then `post`; the match moves on to `post`. */
  lemma SpacedLiteralSuffix(h: string, i: nat, lit: string, ws: string, post: string)
      returns (j: nat)
    requires i <= |h| && h[i..] == lit + ws + post
    requires ws != [] && AllSpace(ws) && post != [] && !IsSpace(post[0])
    ensures SpacedLiteral(h, i, lit) == Some(j) && j <= |h| && h[j..] == post
  {
    var pre := h[..i];
    assert h == pre + lit + ws + post by {
      assert h == h[..i] + h[i..];
    }
    SpacedLiteralHere(pre, lit, ws, post);
    j := i + |lit| + |ws|;
    assert h[j..] == post;
  }

  /** `content="url"` recognised where the rest of the page reads so. */
  lemma QuotedValueSuffix(h: string, d: nat, url: string, rest: string)
      returns (s: nat, e: nat)
    requires d <= |h| && h[d..] == ContentOpen + url + "\"" + rest
    requires url != [] && '"' !in url
    ensures QuotedValue(h, d) == Some(Span(s, e)) && s <= e <= |h| && h[s..e] == url
  {
    var pre := h[..d];
    assert h == pre + ContentOpen + url + "\"" + rest by {
      assert h == h[..d] + h[d..];
    }
    QuotedValueHere(pre, url, rest);
    s := d + |ContentOpen|;
    e := s + |url|;
    assert h == (pre + ContentOpen) + url + ("\"" + rest);
    assert h[s..e] == url;
  }

  /** The three stages of the pattern each succeed on a page that opens with
      the tag, and the capture is the tag's URL. */
  lemma TagStages(ws1: string, ws2: string, url: string, rest: string)
      returns (b: nat, d: nat, s: nat, e: nat)
    requires ws1 != [] && AllSpace(ws1) && ws2 != [] && AllSpace(ws2)
    requires url != [] && '"' !in url
    ensures SpacedLiteral(Tag(ws1, ws2, url) + rest, 0, MetaOpen) == Some(b)
    ensures SpacedLiteral(Tag(ws1, ws2, url) + rest, b, PropertyAttr) == Some(d)
    ensures QuotedValue(Tag(ws1, ws2, url) + rest, d) == Some(Span(s, e))
    ensures s <= e <= |Tag(ws1, ws2, url) + rest| && (Tag(ws1, ws2, url) + rest)[s..e] == url
  {
    var h := Tag(ws1, ws2, url) + rest;
    var post2 := ContentOpen + url + "\"" + rest;
    var post1 := PropertyAttr + ws2 + post2;
    assert h[0..] == MetaOpen + ws1 + post1;
    assert !IsSpace(post1[0]);
    b := SpacedLiteralSuffix(h, 0, MetaOpen, ws1, post1);
    assert !IsSpace(post2[0]);
    d := SpacedLiteralSuffix(h, b, PropertyAttr, ws2, post2);
    s, e := QuotedValueSuffix(h, d, url, rest);
  }

  /** A match assembled from its three stages. */
  lemma CaptureFromStages(h: string, i: nat, b: nat, d: nat)
    requires SpacedLiteral(h, i, MetaOpen) == Some(b)
    requires SpacedLiteral(h, b, PropertyAttr) == Some(d)
    ensures CaptureAt(h, i) == QuotedValue(h, d)
  {
  }

  /** A match at the very start of the page is the leftmost one. */
  lemma ExtractAtStart(h: string, s: nat, e: nat)
    requires CaptureAt(h, 0) == Some(Span(s, e))
    ensures ExtractOgVideo(h) == Some(h[s..e])
  {
    ExtractLeftmost(h, 0);
  }

  /** Round trip: a page that opens with the tag yields the tag's URL,
      whatever follows. */
  lemma ExtractTag(ws1: string, ws2: string, url: string, rest: string)
    requires ws1 != [] && AllSpace(ws1) && ws2 != [] && AllSpace(ws2)
    requires url != [] && '"' !in url
    ensures ExtractOgVideo(Tag(ws1, ws2, url) + rest) == Some(url)
  {
    var b, d, s, e := TagStages(ws1, ws2, url, rest);
    CaptureFromStages(Tag(ws1, ws2, url) + rest, 0, b, d);
    ExtractAtStart(Tag(ws1, ws2, url) + rest, s, e);
  }

  lemma ExampleHead()
    ensures MetaOpen + " " + PropertyAttr + " " + ContentOpen
         == "<meta property=\"og:video\" content=\""
  {
    assert MetaOpen + " " == "<meta ";
    assert "<meta " + PropertyAttr == "<meta property=\"og:video\"";
    assert "<meta property=\"og:video\"" + " " == "<meta property=\"og:video\" ";
  }

  lemma ExamplePage()
    ensures Tag(" ", " ", "https://x/y.mp4") + ">"
         == "<meta property=\"og:video\" content=\"https://x/y.mp4\">"
  {
    ExampleHead();
    assert "<meta property=\"og:video\" content=\"" + "https://x/y.mp4"
        == "<meta property=\"og:video\" content=\"https://x/y.mp4";
    assert "<meta property=\"og:video\" content=\"https://x/y.mp4" + "\""
        == "<meta property=\"og:video\" content=\"https://x/y.mp4\"";
  }

  /** An `og:video` tag of the kind a reel page carries. */
  lemma ExtractExample()
    ensures ExtractOgVideo("<meta property=\"og:video\" content=\"https://x/y.mp4\">")
         == Some("https://x/y.mp4")
  {
    ExamplePage();
    ExtractTag(" ", " ", "https://x/y.mp4", ">");
  }
}
