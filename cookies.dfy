/** The cookie-header translator shared by both browser sessions: a `Cookie`
    request header (the `cookie-string` of section 4.2.1 of RFC 6265, read
    loosely) becomes the cookie records installed into the browser context. */
module Cookies {
  import opened Wrappers
  import opened Text
  import opened Seqs

  /** A cookie record handed to the browser context. Every record is scoped
      to the site's root: its domain and path are fixed, not read from the header. */
  datatype Cookie = Cookie(name: string, value: string) {
    const domain: string := ".instagram.com"
    const path: string := "/"
  }

  /** What every translated record looks like: a trimmed name holding no `=`
      and a trimmed value. */
  predicate WellFormed(c: Cookie) {
    '=' !in c.name && Trimmed(c.name) && Trimmed(c.value)
  }

  /** One `;`-fragment: stripped, dropped when it holds no `=`, otherwise cut
      at its first `=` into a stripped name and a stripped value. */
  function ParseFragment(fragment: string): (r: Option<Cookie>)
    ensures r.Some? <==> '=' in Strip(fragment)
    ensures r.Some? ==> WellFormed(r.value)
  {
    var part := Strip(fragment);
    if '=' !in part then None
    else
      var i := IndexOf(part, '=');
      StripKeeps(part[..i], '=');
      Some(Cookie(Strip(part[..i]), Strip(part[i + 1..])))
  }

  /** The records one fragment contributes: none or one. */
  function FragmentCookies(fragment: string): seq<Cookie> {
    match ParseFragment(fragment)
    case Some(c) => [c]
    case None => []
  }

  /** `header.split(";")` translated fragment by fragment. */
  function ParseCookies(header: string): seq<Cookie> {
    FlatMap(FragmentCookies, Split(header, ';'))
  }

  /** At most one record per `;`-fragment, each of them well formed. */
  lemma ParseCookiesShape(header: string)
    ensures |ParseCookies(header)| <= |Split(header, ';')|
    ensures forall c :: c in ParseCookies(header) ==> WellFormed(c)
  {
    FragmentsShape(Split(header, ';'));
  }

  lemma {:induction false} FragmentsShape(fragments: seq<string>)
    ensures |FlatMap(FragmentCookies, fragments)| <= |fragments|
    ensures forall c :: c in FlatMap(FragmentCookies, fragments) ==> WellFormed(c)
  {
    if fragments != [] {
      FragmentsShape(fragments[1..]);
    }
  }

  /** The loop that appends one record per fragment holding `=`. */
  method TranslateCookies(header: string) returns (cookies: seq<Cookie>)
    ensures cookies == ParseCookies(header)
  {
    var parts := Split(header, ';');
    cookies := [];
    for k := 0 to |parts|
      invariant cookies == FlatMap(FragmentCookies, parts[..k])
    {
      FlatMapPrefix(FragmentCookies, parts, k);
      var part := Strip(parts[k]);
      if '=' !in part {
        assert FragmentCookies(parts[k]) == [];
        continue;
      }
      var i := IndexOf(part, '=');
      var cookie := Cookie(Strip(part[..i]), Strip(part[i + 1..]));
      assert FragmentCookies(parts[k]) == [cookie];
      cookies := cookies + [cookie];
    }
    assert parts[..|parts|] == parts;
  }

  /** An empty header holds no record. */
  lemma EmptyHeader()
    ensures ParseCookies("") == []
  {
    assert Split("", ';') == [""];
    FlatMapSingle(FragmentCookies, "");
    assert Strip("") == "";
  }

  /** The records installed into a browser context, or `None` when
      `add_cookies` is not called: no header, an empty header, or a header
      with no `name=value` fragment. */
  function CookiesToAdd(header: Option<string>): (r: Option<seq<Cookie>>)
    ensures r.Some? ==> r.value != [] && header.Some? && r.value == ParseCookies(header.value)
    ensures r.None? <==> header.None? || ParseCookies(header.value) == []
  {
    EmptyHeader();
    if header.None? || header.value == [] then None
    else
      var cookies := ParseCookies(header.value);
      if cookies == [] then None else Some(cookies)
  }

  /** A fragment holding no `=` between two `;` is dropped. */
  lemma DropsFragmentWithoutEquals(a: string, f: string, b: string)
    requires '=' !in f && ';' !in f
    ensures ParseCookies(a + ";" + f + ";" + b) == ParseCookies(a + ";" + b)
  {
    var fa, fb := Split(a, ';'), Split(b, ';');
    SplitAround(a, f, b);
    SplitAppend(a, b, ';');
    assert a + ";" + b == a + [';'] + b;
    StripKeeps(f, '=');
    assert FragmentCookies(f) == [];
    FlatMapCons(FragmentCookies, f, fb);
    assert FlatMap(FragmentCookies, [f] + fb) == FlatMap(FragmentCookies, fb);
    FlatMapAppend(FragmentCookies, fa, [f] + fb);
    FlatMapAppend(FragmentCookies, fa, fb);
  }

  /** The fragments of a header with `f` spliced in between two `;`. */
  lemma SplitAround(a: string, f: string, b: string)
    requires ';' !in f
    ensures Split(a + ";" + f + ";" + b, ';') == Split(a, ';') + ([f] + Split(b, ';'))
  {
    assert a + ";" + f + ";" + b == a + [';'] + (f + [';'] + b);
    SplitAppend(a, f + [';'] + b, ';');
    SplitAtFirst(f, b, ';');
  }

  /** The header text of records: `name=value` pairs joined by `"; "`. */
  function Serialize(cs: seq<Cookie>): string
    requires |cs| >= 1
  {
    if |cs| == 1 then Pair(cs[0]) else Pair(cs[0]) + "; " + Serialize(cs[1..])
  }

  function Pair(c: Cookie): string {
    c.name + "=" + c.value
  }

  /** A record that survives the trip through header text. */
  predicate Serializable(c: Cookie) {
    WellFormed(c) && ';' !in c.name && ';' !in c.value
  }

  lemma PairTrimmed(c: Cookie)
    requires Serializable(c)
    ensures Trimmed(Pair(c))
  {
    assert Pair(c) == c.name + ['='] + c.value;
  }

  /** `ParseFragment` only sees the stripped fragment. */
  lemma FragmentDependsOnStrip(x: string, y: string)
    requires Strip(x) == Strip(y)
    ensures ParseFragment(x) == ParseFragment(y)
  {
  }

  lemma PairFragment(c: Cookie)
    requires Serializable(c)
    ensures ParseFragment(Pair(c)) == Some(c)
  {
    var p := Pair(c);
    PairTrimmed(c);
    StripTrimmed(p);
    assert p == c.name + ['='] + c.value;
    IndexOfAfter(c.name, c.value, '=');
    assert p[..|c.name|] == c.name && p[|c.name| + 1..] == c.value;
    StripTrimmed(c.name);
    StripTrimmed(c.value);
  }

  lemma FragmentOfPair(w: string, c: Cookie)
    requires AllSpace(w)
    requires Serializable(c)
    ensures ParseFragment(w + Pair(c)) == Some(c)
  {
    PairTrimmed(c);
    StripTrimmed(Pair(c));
    StripLeadingSpace(w, Pair(c));
    PairFragment(c);
    FragmentDependsOnStrip(w + Pair(c), Pair(c));
  }

  /** Translating the header text of well-formed records, after any leading
      whitespace, gives the records back. */
  lemma {:induction false} ParseSerializeAfter(w: string, cs: seq<Cookie>)
    requires AllSpace(w) && ';' !in w
    requires |cs| >= 1
    requires forall k :: 0 <= k < |cs| ==> Serializable(cs[k])
    ensures ParseCookies(w + Serialize(cs)) == cs
    decreases |cs|
  {
    var first := w + Pair(cs[0]);
    FirstFragment(w, cs[0]);
    if |cs| == 1 {
      ParseCookiesSingle(first);
    } else {
      var rest := " " + Serialize(cs[1..]);
      SerializeCons(w, cs);
      ParseSerializeAfter(" ", cs[1..]);
      ParseCookiesCons(first, rest);
      assert cs == [cs[0]] + cs[1..];
    }
  }

  lemma FirstFragment(w: string, c: Cookie)
    requires AllSpace(w) && ';' !in w
    requires Serializable(c)
    ensures ';' !in w + Pair(c)
    ensures FragmentCookies(w + Pair(c)) == [c]
  {
    FragmentOfPair(w, c);
    assert Pair(c) == c.name + ['='] + c.value;
  }

  lemma SerializeCons(w: string, cs: seq<Cookie>)
    requires |cs| >= 2
    ensures w + Serialize(cs) == (w + Pair(cs[0])) + [';'] + (" " + Serialize(cs[1..]))
  {
    SerializeUnfold(cs);
    Regroup(w, Pair(cs[0]), Serialize(cs[1..]));
  }

  lemma SerializeUnfold(cs: seq<Cookie>)
    requires |cs| >= 2
    ensures Serialize(cs) == Pair(cs[0]) + "; " + Serialize(cs[1..])
  {
  }

  lemma Regroup(w: string, a: string, t: string)
    ensures w + (a + "; " + t) == (w + a) + [';'] + (" " + t)
  {
    assert "; " == [';'] + " ";
  }

  lemma ParseCookiesSingle(f: string)
    requires ';' !in f
    ensures ParseCookies(f) == FragmentCookies(f)
  {
    assert Split(f, ';') == [f];
    FlatMapSingle(FragmentCookies, f);
  }

  lemma ParseCookiesCons(f: string, rest: string)
    requires ';' !in f
    ensures ParseCookies(f + [';'] + rest) == FragmentCookies(f) + ParseCookies(rest)
  {
    SplitAppend(f, rest, ';');
    assert Split(f, ';') == [f];
    FlatMapCons(FragmentCookies, f, Split(rest, ';'));
  }

  /** Translating the header text of well-formed records gives the records back;
      values may hold `=` since only the first `=` of a fragment splits it. */
  lemma ParseSerialize(cs: seq<Cookie>)
    requires |cs| >= 1
    requires forall k :: 0 <= k < |cs| ==> Serializable(cs[k])
    ensures ParseCookies(Serialize(cs)) == cs
  {
    ParseSerializeAfter("", cs);
    assert "" + Serialize(cs) == Serialize(cs);
  }

  /** `"a=1; b=2=x"` gives `a` = `"1"` and `b` = `"2=x"`. */
  lemma ExampleHeader()
    ensures ParseCookies("a=1; b=2=x")
         == [Cookie("a", "1"), Cookie("b", "2=x")]
  {
    var cs := ExampleCookies();
    ExampleText();
    ExampleSerializable();
    ParseSerialize(cs);
  }

  function ExampleCookies(): seq<Cookie> {
    [Cookie("a", "1"), Cookie("b", "2=x")]
  }

  lemma ExampleText()
    ensures Serialize(ExampleCookies()) == "a=1; b=2=x"
  {
    var cs := ExampleCookies();
    assert cs[1..] == [cs[1]];
  }

  lemma ExampleSerializable()
    ensures forall k :: 0 <= k < |ExampleCookies()| ==> Serializable(ExampleCookies()[k])
  {
    assert !IsSpace('a') && !IsSpace('b') && !IsSpace('1') && !IsSpace('x');
  }
}
