/** Python `str` primitives the service relies on, over `seq<char>`:
    `isspace`, `strip`, `lstrip(c)`, `split(sep)`, `endswith` and the
    substring test `t in s`. */
module Text {

  /** `str.isspace` for one character (also what Python's `re` matches with
      `\s` in a `str` pattern): the ASCII controls 9-13 and 28-31, the space,
      and the Unicode separators. */
  predicate IsSpace(c: char) {
    if c <= ' ' then '\t' <= c <= '\r' || '\U{1C}' <= c
    else if c < '\U{0085}' then false
    else
      || c == '\U{0085}' || c == '\U{00A0}' || c == '\U{1680}'
      || '\U{2000}' <= c <= '\U{200A}' || c == '\U{2028}' || c == '\U{2029}'
      || c == '\U{202F}' || c == '\U{205F}' || c == '\U{3000}'
  }

  predicate AllSpace(s: string) {
    forall i :: 0 <= i < |s| ==> IsSpace(s[i])
  }

  /** Neither end of `s` is whitespace: what `strip` returns. */
  predicate Trimmed(s: string) {
    s == [] || (!IsSpace(s[0]) && !IsSpace(s[|s| - 1]))
  }

  /** The first position at or after `i` that does not hold `c`. */
  function SkipChar(s: string, c: char, i: nat): (j: nat)
    requires i <= |s|
    ensures i <= j <= |s|
    ensures forall k :: i <= k < j ==> s[k] == c
    ensures j == |s| || s[j] != c
    decreases |s| - i
  {
    if i < |s| && s[i] == c then SkipChar(s, c, i + 1) else i
  }

  /** The first position at or after `i` that holds `c`, or `|s|` when none does. */
  function Find(s: string, c: char, i: nat): (j: nat)
    requires i <= |s|
    ensures i <= j <= |s|
    ensures forall k :: i <= k < j ==> s[k] != c
    ensures j == |s| || s[j] == c
    decreases |s| - i
  {
    if i < |s| && s[i] != c then Find(s, c, i + 1) else i
  }

  lemma {:induction false} FindTo(s: string, c: char, i: nat, m: nat)
    requires i <= m <= |s|
    requires forall k :: i <= k < m ==> s[k] != c
    requires m == |s| || s[m] == c
    ensures Find(s, c, i) == m
    decreases m - i
  {
    if i < m { FindTo(s, c, i + 1, m); }
  }

  /** `s.lstrip(c)`: drops every leading `c`. */
  function LStripChar(s: string, c: char): (r: string)
    ensures |r| <= |s| && r == s[|s| - |r|..]
    ensures forall k :: 0 <= k < |s| - |r| ==> s[k] == c
    ensures r == [] || r[0] != c
  {
    s[SkipChar(s, c, 0)..]
  }

  /** The first position at or after `i` that does not hold whitespace. */
  function SkipSpace(s: string, i: nat): (j: nat)
    requires i <= |s|
    ensures i <= j <= |s|
    ensures forall k :: i <= k < j ==> IsSpace(s[k])
    ensures j == |s| || !IsSpace(s[j])
    decreases |s| - i
  {
    if i < |s| && IsSpace(s[i]) then SkipSpace(s, i + 1) else i
  }

  /** The start of the whitespace run that ends at `e`. */
  function BackSpace(s: string, e: nat): (j: nat)
    requires e <= |s|
    ensures j <= e
    ensures forall k :: j <= k < e ==> IsSpace(s[k])
    ensures j == 0 || !IsSpace(s[j - 1])
  {
    if e > 0 && IsSpace(s[e - 1]) then BackSpace(s, e - 1) else e
  }

  /** `s.strip()`: what is left once whitespace is removed from both ends. */
  function Strip(s: string): (r: string)
    ensures Trimmed(r)
  {
    var i := SkipSpace(s, 0);
    if i == |s| then []
    else
      var j := BackSpace(s, |s|);
      s[i..j]
  }

  /** A character absent from `s` is absent from `strip(s)`. */
  lemma StripKeeps(s: string, c: char)
    requires c !in s
    ensures c !in Strip(s)
  {
    var i := SkipSpace(s, 0);
    if i < |s| {
      var j := BackSpace(s, |s|);
      assert c !in s[i..j];
    }
  }

  lemma {:induction false} SkipSpaceTo(s: string, i: nat, m: nat)
    requires i <= m <= |s|
    requires forall k :: i <= k < m ==> IsSpace(s[k])
    requires m == |s| || !IsSpace(s[m])
    ensures SkipSpace(s, i) == m
    decreases m - i
  {
    if i < m { SkipSpaceTo(s, i + 1, m); }
  }

  lemma {:induction false} BackSpaceTo(s: string, e: nat, m: nat)
    requires m <= e <= |s|
    requires forall k :: m <= k < e ==> IsSpace(s[k])
    requires m == 0 || !IsSpace(s[m - 1])
    ensures BackSpace(s, e) == m
    decreases e - m
  {
    if m < e { BackSpaceTo(s, e - 1, m); }
  }

  /** `strip` keeps exactly the trimmed middle between two whitespace runs. */
  lemma StripMiddle(a: string, r: string, b: string)
    requires AllSpace(a) && AllSpace(b) && Trimmed(r)
    ensures Strip(a + r + b) == r
  {
    var s := a + r + b;
    if r == [] {
      SkipSpaceTo(s, 0, |s|);
    } else {
      SkipSpaceTo(s, 0, |a|);
      BackSpaceTo(s, |s|, |a| + |r|);
      assert s[|a|..|a| + |r|] == r;
    }
  }

  lemma StripTrimmed(s: string)
    requires Trimmed(s)
    ensures Strip(s) == s
  {
    StripMiddle([], s, []);
    assert [] + s + [] == s;
  }

  /** Every string is a whitespace run, what `strip` keeps, and another
      whitespace run. */
  lemma StripParts(s: string) returns (a: string, r: string, b: string)
    ensures s == a + r + b && AllSpace(a) && AllSpace(b) && Trimmed(r)
    ensures Strip(s) == r
  {
    var i := SkipSpace(s, 0);
    if i == |s| {
      SliceAllSpace(s, 0, |s|);
      a, r, b := s[..], [], [];
      assert s + [] + [] == s;
    } else {
      var j := BackSpace(s, |s|);
      assert !IsSpace(s[i]);
      assert i < j;
      assert !IsSpace(s[j - 1]);
      SliceAllSpace(s, 0, i);
      SliceAllSpace(s, j, |s|);
      a, r, b := s[0..i], s[i..j], s[j..|s|];
      assert r[0] == s[i] && r[|r| - 1] == s[j - 1];
      assert Trimmed(r);
      SliceThree(s, i, j);
    }
  }

  lemma SliceThree<T>(s: seq<T>, i: nat, j: nat)
    requires i <= j <= |s|
    ensures s == s[0..i] + s[i..j] + s[j..|s|]
  {
  }

  lemma SliceAllSpace(s: string, i: nat, j: nat)
    requires i <= j <= |s|
    requires forall k :: i <= k < j ==> IsSpace(s[k])
    ensures AllSpace(s[i..j])
  {
    assert forall k :: 0 <= k < j - i ==> s[i..j][k] == s[i + k];
  }

  lemma AllSpaceAppend(a: string, b: string)
    requires AllSpace(a) && AllSpace(b)
    ensures AllSpace(a + b)
  {
    assert forall k :: 0 <= k < |a + b| ==> (a + b)[k] == if k < |a| then a[k] else b[k - |a|];
  }

  /** Leading whitespace does not change what `strip` returns. */
  lemma StripLeadingSpace(w: string, s: string)
    requires AllSpace(w)
    ensures Strip(w + s) == Strip(s)
  {
    var a, r, b := StripParts(s);
    AllSpaceAppend(w, a);
    Reassociate(w, a, r, b);
    StripMiddle(w + a, r, b);
  }

  lemma Reassociate<T>(w: seq<T>, a: seq<T>, r: seq<T>, b: seq<T>)
    ensures w + (a + r + b) == (w + a) + r + b
  {
  }

  /** `sep in s`: the position of the first occurrence. */
  function IndexOf(s: string, sep: char): (i: nat)
    requires sep in s
    ensures i < |s| && s[i] == sep && sep !in s[..i]
  {
    if s[0] == sep then 0 else 1 + IndexOf(s[1..], sep)
  }

  /** The first `sep` of `a + [sep] + b` is the one after `a` when `a` has none. */
  lemma {:induction false} IndexOfAfter(a: string, b: string, sep: char)
    requires sep !in a
    ensures IndexOf(a + [sep] + b, sep) == |a|
  {
    if a != [] {
      assert (a + [sep] + b)[1..] == a[1..] + [sep] + b;
      IndexOfAfter(a[1..], b, sep);
    }
  }

  /** The inverse of `Split`: the parts glued back with `sep`. */
  function Join(parts: seq<string>, sep: char): string
    requires |parts| >= 1
  {
    if |parts| == 1 then parts[0] else parts[0] + [sep] + Join(parts[1..], sep)
  }

  /** `s.split(sep)` for a one-character separator: always at least one part,
      no part holds `sep`, and gluing the parts back gives `s`. */
  function Split(s: string, sep: char): (parts: seq<string>)
    ensures |parts| >= 1
    ensures forall k :: 0 <= k < |parts| ==> sep !in parts[k]
    ensures Join(parts, sep) == s
    decreases |s|
  {
    if sep in s then
      var i := IndexOf(s, sep);
      var rest := Split(s[i + 1..], sep);
      assert s == s[..i] + [sep] + s[i + 1..];
      [s[..i]] + rest
    else
      [s]
  }

  /** The first part of a split is a prefix of the string, so it holds no
      character the string does not. */
  lemma SplitHead(s: string, sep: char, c: char)
    requires c !in s
    ensures c !in Split(s, sep)[0]
  {
    if sep in s {
      assert Split(s, sep)[0] == s[..IndexOf(s, sep)];
    }
  }

  /** Splitting a glued string gives back its parts. */
  lemma {:induction false} SplitJoin(parts: seq<string>, sep: char)
    requires |parts| >= 1
    requires forall k :: 0 <= k < |parts| ==> sep !in parts[k]
    ensures Split(Join(parts, sep), sep) == parts
  {
    if |parts| > 1 {
      var tail := Join(parts[1..], sep);
      assert Join(parts, sep) == parts[0] + [sep] + tail;
      SplitJoin(parts[1..], sep);
      SplitAtFirst(parts[0], tail, sep);
      assert parts == [parts[0]] + parts[1..];
    }
  }

  /** `a + [sep] + b` with no `sep` in `a` splits at the end of `a`. */
  lemma SplitAtFirst(a: string, b: string, sep: char)
    requires sep !in a
    ensures Split(a + [sep] + b, sep) == [a] + Split(b, sep)
  {
    var s := a + [sep] + b;
    IndexOfAfter(a, b, sep);
    assert s[..|a|] == a;
    assert s[|a| + 1..] == b;
  }

  /** Splitting at one separator splits each side on its own. */
  lemma SplitAppend(a: string, b: string, sep: char)
    ensures Split(a + [sep] + b, sep) == Split(a, sep) + Split(b, sep)
  {
    var pa, pb := Split(a, sep), Split(b, sep);
    PartsAppend(pa, pb, sep);
    JoinAppend(pa, pb, sep);
    SplitJoin(pa + pb, sep);
  }

  lemma PartsAppend(p: seq<string>, q: seq<string>, sep: char)
    requires forall k :: 0 <= k < |p| ==> sep !in p[k]
    requires forall k :: 0 <= k < |q| ==> sep !in q[k]
    ensures forall k :: 0 <= k < |p + q| ==> sep !in (p + q)[k]
  {
    forall k | 0 <= k < |p + q| ensures sep !in (p + q)[k] {
      if k < |p| { assert (p + q)[k] == p[k]; } else { assert (p + q)[k] == q[k - |p|]; }
    }
  }

  lemma {:induction false} JoinAppend(p: seq<string>, q: seq<string>, sep: char)
    requires |p| >= 1 && |q| >= 1
    ensures Join(p + q, sep) == Join(p, sep) + [sep] + Join(q, sep)
  {
    if |p| > 1 {
      assert (p + q)[1..] == p[1..] + q;
      JoinAppend(p[1..], q, sep);
    }
  }

  /** Python's `t in s` on strings. */
  predicate Contains(s: string, t: string)
    decreases |s|
  {
    t <= s || (s != [] && Contains(s[1..], t))
  }

  lemma {:induction false} ContainsAppend(s: string, t: string, u: string)
    requires Contains(s, t)
    ensures Contains(s + u, t)
  {
    if !(t <= s) {
      assert (s + u)[1..] == s[1..] + u;
      ContainsAppend(s[1..], t, u);
    }
  }

  /** `s.endswith(c)` for a one-character suffix. */
  predicate EndsWith(s: string, c: char) {
    s != [] && s[|s| - 1] == c
  }
}
