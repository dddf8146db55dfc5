/** The `/reels/{username}` route: open the profile's reels grid in a
    headless browser, scroll it round after round collecting every link to a
    reel, and stop once enough links are known or the grid has shown nothing
    new for a while.

    The browser is not modelled: opening the grid at a URL with a set of
    cookies yields a `Feed`, the links the page exposes at each round (or
    the exception a round raised). Scrolling and the waits between rounds
    are what separate one round from the next. */
module Reels {
  import opened Wrappers
  import opened Text
  import opened Order
  import opened Cookies
  import opened Resolver

  /** Rounds in a row without a new link after which collection stops. */
  const IdleLimit: nat := 15

  /** What marks a link as a reel. */
  const ReelMarker: string := "/reel/"

  const CollectFailed: string := "Failed to collect reels: "

  // ---- The profile URL ----

  /** `username.strip().lstrip('@')`. */
  function CanonicalUsername(username: string): (name: string)
    ensures name == [] || name[0] != '@'
  {
    LStripChar(Strip(username), '@')
  }

  function ReelsUrl(username: string): string {
    "https://www.instagram.com/" + CanonicalUsername(username) + "/reels/"
  }

  /** Surrounding whitespace and any number of leading `@` are dropped, and
      nothing else. */
  lemma CanonicalUsernameOf(w1: string, ats: string, name: string, w2: string)
    requires AllSpace(w1) && AllSpace(w2)
    requires forall k :: 0 <= k < |ats| ==> ats[k] == '@'
    requires name != [] && Trimmed(name) && name[0] != '@'
    ensures CanonicalUsername(w1 + ats + name + w2) == name
  {
    var core := ats + name;
    assert !IsSpace('@');
    assert core[0] == if ats == [] then name[0] else '@';
    assert core[|core| - 1] == name[|name| - 1];
    assert w1 + ats + name + w2 == w1 + core + w2;
    StripMiddle(w1, core, w2);
    assert core[|ats|..] == name;
  }

  /** The grid of `name` however the username was padded and prefixed. */
  lemma ReelsUrlOf(w1: string, ats: string, name: string, w2: string)
    requires AllSpace(w1) && AllSpace(w2)
    requires forall k :: 0 <= k < |ats| ==> ats[k] == '@'
    requires name != [] && Trimmed(name) && name[0] != '@'
    ensures ReelsUrl(w1 + ats + name + w2) == "https://www.instagram.com/" + name + "/reels/"
  {
    CanonicalUsernameOf(w1, ats, name, w2);
  }

  /** One leading `@` is dropped from a trimmed name. */
  lemma CanonicalUsernameDropsAt(name: string)
    requires name != [] && Trimmed(name) && name[0] != '@'
    ensures CanonicalUsername("@" + name) == CanonicalUsername(name) == name
  {
    var s := "@" + name;
    assert !IsSpace('@') && s[0] == '@' && s[|s| - 1] == name[|name| - 1];
    StripTrimmed(s);
    StripTrimmed(name);
    assert s[1] == name[0];
    assert SkipChar(s, '@', 0) == 1;
    assert s[1..] == name;
  }

  /** `@name` and `name` lead to the same grid. */
  lemma ReelsUrlIgnoresAt(name: string)
    requires name != [] && Trimmed(name) && name[0] != '@'
    ensures ReelsUrl("@" + name) == ReelsUrl(name)
  {
    CanonicalUsernameDropsAt(name);
  }

  // ---- Links ----

  /** `"/reel/" in href`. */
  predicate IsReelHref(href: string) {
    Contains(href, ReelMarker)
  }

  /** A link in the form the route reports: a reel link ending in `/`. */
  predicate IsReelUrl(u: string) {
    IsReelHref(u) && EndsWith(u, '/')
  }

  /** The link with a trailing `/` added when it has none. */
  function Canonical(href: string): (r: string)
    ensures EndsWith(r, '/')
    ensures |href| <= |r| <= |href| + 1 && r[..|href|] == href
    ensures EndsWith(href, '/') ==> r == href
  {
    if EndsWith(href, '/') then href else href + "/"
  }

  /** Canonical links are reel URLs, and canonicalising twice changes
      nothing more. */
  lemma CanonicalIsReelUrl(href: string)
    requires IsReelHref(href)
    ensures IsReelUrl(Canonical(href))
    ensures Canonical(Canonical(href)) == Canonical(href)
  {
    if !EndsWith(href, '/') {
      ContainsAppend(href, ReelMarker, "/");
    }
  }

  /** The canonical reel links among `hrefs`. */
  function ShownIn(hrefs: seq<string>): set<string> {
    set h | h in hrefs && IsReelHref(h) :: Canonical(h)
  }

  /** The links of a round, one `href` at a time. */
  lemma ShownInCons(hrefs: seq<string>)
    requires hrefs != []
    ensures ShownIn(hrefs)
         == (if IsReelHref(hrefs[0]) then {Canonical(hrefs[0])} else {}) + ShownIn(hrefs[1..])
  {
    assert forall h :: h in hrefs <==> h == hrefs[0] || h in hrefs[1..];
  }

  /** Every member of `ShownIn` is a reel URL. */
  lemma ShownInUrls(hrefs: seq<string>)
    ensures forall u :: u in ShownIn(hrefs) ==> IsReelUrl(u)
  {
    forall h | h in hrefs && IsReelHref(h)
      ensures IsReelUrl(Canonical(h))
    {
      CanonicalIsReelUrl(h);
    }
  }

  // ---- One round ----

  /** `max_count and len(seen) >= max_count`: a cap of `None` or `0` never
      stops collection, a negative one stops it at once. */
  predicate CapReached(maxCount: Option<int>, size: nat) {
    maxCount.Some? && maxCount.value != 0 && size >= maxCount.value
  }

  datatype Harvested = Harvested(seen: set<string>, added: nat)

  /** The links known after one round over `hrefs`, and how many of them are
      new: each new canonical reel link is added in order, and the round is
      cut short as soon as the cap is reached. */
  function Harvest(hrefs: seq<string>, seen: set<string>, maxCount: Option<int>): Harvested
    decreases |hrefs|
  {
    if hrefs == [] then Harvested(seen, 0)
    else
      var rest := hrefs[1..];
      if !IsReelHref(hrefs[0]) then Harvest(rest, seen, maxCount)
      else
        var u := Canonical(hrefs[0]);
        if u in seen then Harvest(rest, seen, maxCount)
        else if CapReached(maxCount, |seen| + 1) then Harvested(seen + {u}, 1)
        else
          var r := Harvest(rest, seen + {u}, maxCount);
          Harvested(r.seen, r.added + 1)
  }

  /** A round keeps every link known and adds only links it showed, and it
      adds none exactly when it leaves the links known unchanged. */
  lemma {:induction false} HarvestBounds(hrefs: seq<string>, seen: set<string>, maxCount: Option<int>)
    ensures var r := Harvest(hrefs, seen, maxCount);
      && seen <= r.seen <= seen + ShownIn(hrefs)
      && (r.added == 0 <==> r.seen == seen)
    decreases |hrefs|
  {
    if hrefs != [] {
      var rest := hrefs[1..];
      ShownInCons(hrefs);
      var u := Canonical(hrefs[0]);
      if !IsReelHref(hrefs[0]) || u in seen {
        HarvestBounds(rest, seen, maxCount);
      } else if !CapReached(maxCount, |seen| + 1) {
        HarvestBounds(rest, seen + {u}, maxCount);
      }
    }
  }

  /** `added` counts the new links exactly, and once the next new link
      reaches the cap the round adds at most that one. */
  lemma {:induction false} HarvestCounts(hrefs: seq<string>, seen: set<string>, maxCount: Option<int>)
    ensures var r := Harvest(hrefs, seen, maxCount);
      && |r.seen| == |seen| + r.added
      && (CapReached(maxCount, |seen| + 1) ==> r.added <= 1)
    decreases |hrefs|
  {
    if hrefs != [] {
      var rest := hrefs[1..];
      var u := Canonical(hrefs[0]);
      if !IsReelHref(hrefs[0]) || u in seen {
        HarvestCounts(rest, seen, maxCount);
      } else if !CapReached(maxCount, |seen| + 1) {
        HarvestCounts(rest, seen + {u}, maxCount);
      }
    }
  }

  /** Unless the cap cut the round short, it keeps every link it showed. */
  lemma {:induction false} HarvestKeepsAll(hrefs: seq<string>, seen: set<string>, maxCount: Option<int>)
    ensures var r := Harvest(hrefs, seen, maxCount);
      !CapReached(maxCount, |r.seen|) ==> r.seen == seen + ShownIn(hrefs)
    decreases |hrefs|
  {
    if hrefs != [] {
      var rest := hrefs[1..];
      ShownInCons(hrefs);
      var u := Canonical(hrefs[0]);
      if !IsReelHref(hrefs[0]) {
        HarvestKeepsAll(rest, seen, maxCount);
      } else if u in seen {
        HarvestKeepsAll(rest, seen, maxCount);
        UnionKnown(seen, u, ShownIn(rest));
      } else if !CapReached(maxCount, |seen| + 1) {
        HarvestKeepsAll(rest, seen + {u}, maxCount);
        UnionRegroup(seen, u, ShownIn(rest));
      } else {
        assert |seen + {u}| == |seen| + 1;
      }
    }
  }

  /** Set regrouping steps for `HarvestKeepsAll`, stated apart so that the
      solver meets them in a small context. */
  lemma UnionKnown<T>(a: set<T>, x: T, b: set<T>)
    requires x in a
    ensures a + ({x} + b) == a + b
  {
  }

  lemma UnionRegroup<T>(a: set<T>, x: T, b: set<T>)
    ensures a + ({x} + b) == (a + {x}) + b
  {
  }

  /** A positive cap not yet reached is never overshot. */
  lemma {:induction false} HarvestWithinCap(hrefs: seq<string>, seen: set<string>, maxCount: Option<int>)
    requires !CapReached(maxCount, |seen|) && maxCount.Some? && maxCount.value > 0
    ensures |Harvest(hrefs, seen, maxCount).seen| <= maxCount.value
    decreases |hrefs|
  {
    if hrefs != [] {
      var rest := hrefs[1..];
      var u := Canonical(hrefs[0]);
      if !IsReelHref(hrefs[0]) || u in seen {
        HarvestWithinCap(rest, seen, maxCount);
      } else if !CapReached(maxCount, |seen| + 1) {
        HarvestWithinCap(rest, seen + {u}, maxCount);
      }
    }
  }

  /** `Harvest` over the links from position `i` on, one link at a time. */
  lemma HarvestUnfold(hrefs: seq<string>, i: nat, seen: set<string>, maxCount: Option<int>)
    requires i < |hrefs|
    ensures var rest := Harvest(hrefs[i + 1..], seen, maxCount);
      var u := Canonical(hrefs[i]);
      Harvest(hrefs[i..], seen, maxCount)
        == if !IsReelHref(hrefs[i]) || u in seen then rest
           else if CapReached(maxCount, |seen| + 1) then Harvested(seen + {u}, 1)
           else
             var r := Harvest(hrefs[i + 1..], seen + {u}, maxCount);
             Harvested(r.seen, r.added + 1)
  {
    assert hrefs[i..][0] == hrefs[i] && hrefs[i..][1..] == hrefs[i + 1..];
  }

  /** The inner `for href in hrefs` loop. */
  method HarvestRound(hrefs: seq<string>, seen0: set<string>, maxCount: Option<int>)
    returns (seen: set<string>, added: nat)
    ensures Harvested(seen, added) == Harvest(hrefs, seen0, maxCount)
  {
    seen, added := seen0, 0;
    var i := 0;
    while i < |hrefs|
      invariant 0 <= i <= |hrefs|
      invariant var rest := Harvest(hrefs[i..], seen, maxCount);
        Harvest(hrefs, seen0, maxCount) == Harvested(rest.seen, added + rest.added)
    {
      HarvestUnfold(hrefs, i, seen, maxCount);
      var href := hrefs[i];
      if IsReelHref(href) {
        if !EndsWith(href, '/') {
          href := href + "/";
        }
        assert href == Canonical(hrefs[i]);
        if href !in seen {
          seen := seen + {href};
          added := added + 1;
          if CapReached(maxCount, |seen|) {
            break;
          }
        }
      }
      i := i + 1;
    }
    assert i == |hrefs| ==> hrefs[i..] == [];
  }

  // ---- The collector ----

  /** One round of the grid: the `href` of every matching anchor, or the
      message of the exception the round raised. */
  datatype Round = Links(hrefs: seq<string>) | Raised(message: string)

  /** The rounds of one browser session, numbered from 0. */
  type Feed = nat -> Round

  /** The session the collector opens for a profile. */
  function FeedFor(browser: (string, Option<seq<Cookie>>) -> Feed, username: string,
                   cookieHeader: Option<string>): Feed {
    browser(ReelsUrl(username), CookiesToAdd(cookieHeader))
  }

  /** The canonical reel links a round shows. */
  function LinksOf(round: Round): set<string> {
    if round.Links? then ShownIn(round.hrefs) else {}
  }

  /** The canonical reel links shown in the first `n` rounds. */
  function Shown(feed: Feed, n: nat): set<string> {
    if n == 0 then {} else Shown(feed, n - 1) + LinksOf(feed(n - 1))
  }

  /** Later rounds only add links. */
  lemma {:induction false} ShownGrows(feed: Feed, a: nat, b: nat)
    requires a <= b
    ensures Shown(feed, a) <= Shown(feed, b)
    decreases b
  {
    if a < b { ShownGrows(feed, a, b - 1); }
  }

  /** Everything shown is a reel URL. */
  lemma {:induction false} ShownUrls(feed: Feed, n: nat)
    ensures forall u :: u in Shown(feed, n) ==> IsReelUrl(u)
  {
    if n > 0 {
      ShownUrls(feed, n - 1);
      if feed(n - 1).Links? { ShownInUrls(feed(n - 1).hrefs); }
    }
  }

  /** The profile has finitely many reels: every round shows links from
      `universe` only. */
  ghost predicate Bounded(feed: Feed, universe: set<string>) {
    forall k: nat :: LinksAt(feed, k) <= universe
  }

  /** The links round `k` shows. */
  function LinksAt(feed: Feed, k: nat): set<string> {
    LinksOf(feed(k))
  }

  /** Round `k` showed nothing that the rounds before it had not. */
  predicate Quiet(feed: Feed, k: nat) {
    LinksOf(feed(k)) <= Shown(feed, k)
  }

  /** Each of the `IdleLimit` rounds before round `n` was quiet. */
  predicate QuietWindow(feed: Feed, n: nat) {
    n >= IdleLimit && forall k :: n - IdleLimit <= k < n ==> Quiet(feed, k)
  }

  /** What one round that showed `hrefs` does to the links known, when
      they were exactly those shown before it: it keeps them and adds only
      links it showed, all of them unless the cap cut it short, and then it
      added none exactly when it was quiet. */
  lemma AfterRound(feed: Feed, n: nat, hrefs: seq<string>,
                   before: set<string>, maxCount: Option<int>)
    requires feed(n) == Links(hrefs) && before == Shown(feed, n)
    ensures var h := Harvest(hrefs, before, maxCount);
      && before <= h.seen <= Shown(feed, n + 1)
      && (!CapReached(maxCount, |h.seen|) ==>
            h.seen == Shown(feed, n + 1) && (Quiet(feed, n) <==> h.added == 0))
  {
    assert Shown(feed, n + 1) == before + ShownIn(hrefs);
    HarvestBounds(hrefs, before, maxCount);
    HarvestKeepsAll(hrefs, before, maxCount);
  }

  /** A round either learns a link of `universe` not known before or
      learns nothing. */
  lemma RoundProgress(feed: Feed, universe: set<string>, n: nat, hrefs: seq<string>,
                      before: set<string>, maxCount: Option<int>)
    requires Bounded(feed, universe) && before <= universe
    requires feed(n) == Links(hrefs)
    ensures var h := Harvest(hrefs, before, maxCount);
      && h.seen <= universe
      && (universe - h.seen < universe - before || (h.seen == before && h.added == 0))
  {
    HarvestBounds(hrefs, before, maxCount);
    var h := Harvest(hrefs, before, maxCount);
    assert LinksAt(feed, n) <= universe;
    if h.added > 0 {
      var x :| x in h.seen && x !in before;
      assert x in universe - before;
    }
  }

  /** No round boundary from 1 to `n` found the cap reached. */
  ghost predicate CapNeverReached(feed: Feed, maxCount: Option<int>, n: nat) {
    forall j :: 1 <= j <= n ==> !CapReached(maxCount, |Shown(feed, j)|)
  }

  /** What the scrolling loop knows before each round: the rounds so far
      all showed links, the links known are exactly those shown, the cap was
      reached at no round boundary so far, and `idle` counts the quiet rounds
      at the end, fewer than `IdleLimit` of them, so no earlier round closed
      a quiet window. */
  ghost predicate Scrolling(feed: Feed, universe: set<string>, maxCount: Option<int>,
                            seen: set<string>, idle: nat, rounds: nat) {
    && (forall k :: 0 <= k < rounds ==> feed(k).Links?)
    && seen <= universe
    && CapNeverReached(feed, maxCount, rounds)
    && seen == Shown(feed, rounds)
    && idle < IdleLimit && idle <= rounds
    && (forall k :: rounds - idle <= k < rounds ==> Quiet(feed, k))
    && (idle < rounds ==> !Quiet(feed, rounds - idle - 1))
    && (forall j :: 0 <= j <= rounds ==> !QuietWindow(feed, j))
  }

  /** What scrolling promises when it stops after `rounds` rounds: it
      stopped at the first chance, since every round but the last showed
      links and no earlier round boundary had reached the cap or closed a
      quiet window; it failed exactly when the last round raised; on success
      it holds what the last round's `Harvest` leaves, over the links shown
      before it: those links and the last round's first new ones in `href`
      order, never more than a positive cap (a negative cap
      stops it after one link of the first round); and, unless the cap
      stopped it, every link shown, after `IdleLimit` quiet rounds in a
      row. */
  ghost predicate Scrolled(feed: Feed, maxCount: Option<int>,
                           outcome: Result<set<string>, string>, rounds: nat) {
    && rounds >= 1
    && (forall k :: 0 <= k < rounds - 1 ==> feed(k).Links?)
    && CapNeverReached(feed, maxCount, rounds - 1)
    && (forall j :: 0 <= j < rounds ==> !QuietWindow(feed, j))
    && (outcome.Failure? <==> feed(rounds - 1).Raised?)
    && (outcome.Failure? ==> outcome.error == feed(rounds - 1).message)
    && (outcome.Success? ==>
          && outcome.value == Harvest(feed(rounds - 1).hrefs, Shown(feed, rounds - 1), maxCount).seen
          && Shown(feed, rounds - 1) <= outcome.value <= Shown(feed, rounds)
          && (maxCount.Some? && maxCount.value > 0 ==> |outcome.value| <= maxCount.value)
          && (maxCount.Some? && maxCount.value < 0 ==> rounds == 1 && |outcome.value| <= 1))
    && (outcome.Success? && !CapReached(maxCount, |outcome.value|) ==>
          && outcome.value == Shown(feed, rounds)
          && QuietWindow(feed, rounds))
  }

  lemma {:induction false} SubsetSize<T>(a: set<T>, b: set<T>)
    requires a <= b
    ensures |a| <= |b|
    decreases |b|
  {
    if a != {} {
      var x :| x in a;
      SubsetSize(a - {x}, b - {x});
    }
  }

  /** A run that satisfies `Scrolled` cannot have stopped before `later`
      rounds when `later` rounds also satisfy it. */
  lemma NotEarlier(feed: Feed, maxCount: Option<int>,
                   o1: Result<set<string>, string>, r1: nat,
                   o2: Result<set<string>, string>, r2: nat)
    requires Scrolled(feed, maxCount, o1, r1) && Scrolled(feed, maxCount, o2, r2)
    ensures r2 <= r1
  {
    if r1 < r2 {
      assert feed(r1 - 1).Links?;
      if CapReached(maxCount, |o1.value|) {
        SubsetSize(o1.value, Shown(feed, r1));
      }
    }
  }

  /** `Scrolled` pins down how scrolling ends: two runs over the same feed
      and cap stop after the same round with the same outcome. */
  lemma ScrolledStopsOnce(feed: Feed, maxCount: Option<int>,
                          o1: Result<set<string>, string>, r1: nat,
                          o2: Result<set<string>, string>, r2: nat)
    requires Scrolled(feed, maxCount, o1, r1) && Scrolled(feed, maxCount, o2, r2)
    ensures r1 == r2 && o1 == o2
  {
    NotEarlier(feed, maxCount, o1, r1, o2, r2);
    NotEarlier(feed, maxCount, o2, r2, o1, r1);
  }

  /** The round behind `CapKeepsFirstNew`: its first link is a new reel,
      and a cap of one keeps that link alone. */
  lemma FirstOfTwo(hrefs: seq<string>)
    requires hrefs == ["/reel/a/", "/reel/b/"]
    ensures "/reel/a/" in ShownIn(hrefs)
    ensures Harvest(hrefs, {}, Some(1)).seen == {"/reel/a/"}
  {
    var a := hrefs[0];
    assert IsReelHref(a) by { assert a[0..|ReelMarker|] == ReelMarker; }
    assert Canonical(a) == a;
  }

  /** A cap of one reached in the first round keeps that round's first reel
      and ignores the rest of its links. */
  lemma CapKeepsFirstNew(feed: Feed, outcome: Result<set<string>, string>, rounds: nat)
    requires feed(0) == Links(["/reel/a/", "/reel/b/"])
    requires Scrolled(feed, Some(1), outcome, rounds)
    ensures rounds == 1 && outcome == Success({"/reel/a/"})
  {
    FirstOfTwo(feed(0).hrefs);
    if rounds > 1 {
      assert "/reel/a/" in Shown(feed, 1);
    }
  }

  /** Scrolling starts with nothing known. */
  lemma ScrollingStart(feed: Feed, universe: set<string>, maxCount: Option<int>)
    ensures Scrolling(feed, universe, maxCount, {}, 0, 0)
  {
    assert !QuietWindow(feed, 0);
  }

  /** A round that raises ends scrolling with its message. */
  lemma RaisedStops(feed: Feed, universe: set<string>, maxCount: Option<int>,
                    seen: set<string>, idle: nat, rounds: nat)
    requires Scrolling(feed, universe, maxCount, seen, idle, rounds)
    requires feed(rounds).Raised?
    ensures Scrolled(feed, maxCount, Failure(feed(rounds).message), rounds + 1)
  {
  }

  /** A round that reaches the cap ends scrolling with what it knows. */
  lemma CapStops(feed: Feed, universe: set<string>, maxCount: Option<int>,
                 seen: set<string>, idle: nat, rounds: nat, hrefs: seq<string>,
                 seen': set<string>, added: nat)
    requires Bounded(feed, universe)
    requires Scrolling(feed, universe, maxCount, seen, idle, rounds)
    requires feed(rounds) == Links(hrefs)
    requires Harvested(seen', added) == Harvest(hrefs, seen, maxCount)
    requires CapReached(maxCount, |seen'|)
    ensures Scrolled(feed, maxCount, Success(seen'), rounds + 1)
  {
    AfterRound(feed, rounds, hrefs, seen, maxCount);
    HarvestCounts(hrefs, seen, maxCount);
    if maxCount.Some? && maxCount.value > 0 {
      HarvestWithinCap(hrefs, seen, maxCount);
    }
    ShownGrows(feed, rounds, rounds + 1);
  }

  /** The `IdleLimit`-th quiet round in a row ends scrolling. */
  lemma IdleStops(feed: Feed, universe: set<string>, maxCount: Option<int>,
                  seen: set<string>, idle: nat, rounds: nat, hrefs: seq<string>,
                  seen': set<string>, added: nat)
    requires Bounded(feed, universe)
    requires Scrolling(feed, universe, maxCount, seen, idle, rounds)
    requires feed(rounds) == Links(hrefs)
    requires Harvested(seen', added) == Harvest(hrefs, seen, maxCount)
    requires !CapReached(maxCount, |seen'|)
    requires added == 0 && idle + 1 >= IdleLimit
    ensures Scrolled(feed, maxCount, Success(seen'), rounds + 1)
  {
    AfterRound(feed, rounds, hrefs, seen, maxCount);
    ShownGrows(feed, rounds, rounds + 1);
    assert Quiet(feed, rounds);
    forall k | rounds + 1 - IdleLimit <= k < rounds + 1
      ensures Quiet(feed, k)
    {
      assert k == rounds || rounds - idle <= k < rounds;
    }
  }

  /** The links known, one round further on. */
  lemma GoesOnLinks(feed: Feed, universe: set<string>, maxCount: Option<int>,
                    seen: set<string>, rounds: nat, hrefs: seq<string>,
                    seen': set<string>, added: nat)
    requires Bounded(feed, universe)
    requires forall k :: 0 <= k < rounds ==> feed(k).Links?
    requires seen <= universe && seen == Shown(feed, rounds)
    requires feed(rounds) == Links(hrefs)
    requires Harvested(seen', added) == Harvest(hrefs, seen, maxCount)
    requires !CapReached(maxCount, |seen'|)
    ensures forall k :: 0 <= k < rounds + 1 ==> feed(k).Links?
    ensures seen' <= universe && seen' == Shown(feed, rounds + 1)
  {
    AfterRound(feed, rounds, hrefs, seen, maxCount);
    RoundProgress(feed, universe, rounds, hrefs, seen, maxCount);
  }

  /** The cap is still unreached one boundary further on. */
  lemma CapStillUnreached(feed: Feed, maxCount: Option<int>, rounds: nat)
    requires CapNeverReached(feed, maxCount, rounds)
    requires !CapReached(maxCount, |Shown(feed, rounds + 1)|)
    ensures CapNeverReached(feed, maxCount, rounds + 1)
  {
    // naming the new boundary's size keeps the solver off other boundaries
    var m := |Shown(feed, rounds + 1)|;
    assert !CapReached(maxCount, m);
  }

  /** The quiet rounds at the end, one round further on. */
  lemma GoesOnQuiet(feed: Feed, idle: nat, rounds: nat, idle': nat)
    requires idle <= rounds
    requires forall k :: rounds - idle <= k < rounds ==> Quiet(feed, k)
    requires idle < rounds ==> !Quiet(feed, rounds - idle - 1)
    requires forall j :: 0 <= j <= rounds ==> !QuietWindow(feed, j)
    requires idle' == (if Quiet(feed, rounds) then idle + 1 else 0) && idle' < IdleLimit
    ensures forall k :: rounds + 1 - idle' <= k < rounds + 1 ==> Quiet(feed, k)
    ensures idle' < rounds + 1 ==> !Quiet(feed, rounds + 1 - idle' - 1)
    ensures forall j :: 0 <= j <= rounds + 1 ==> !QuietWindow(feed, j)
  {
    var last := rounds + 1 - idle' - 1;
    if Quiet(feed, rounds) {
      assert last == rounds - idle - 1;
    } else {
      assert last == rounds;
    }
  }

  /** Any other round leaves scrolling going, one round further on. */
  lemma ScrollingGoesOn(feed: Feed, universe: set<string>, maxCount: Option<int>,
                        seen: set<string>, idle: nat, rounds: nat, hrefs: seq<string>,
                        seen': set<string>, added: nat, idle': nat)
    requires Bounded(feed, universe)
    requires Scrolling(feed, universe, maxCount, seen, idle, rounds)
    requires feed(rounds) == Links(hrefs)
    requires Harvested(seen', added) == Harvest(hrefs, seen, maxCount)
    requires !CapReached(maxCount, |seen'|)
    requires idle' == (if added == 0 then idle + 1 else 0) && idle' < IdleLimit
    ensures Scrolling(feed, universe, maxCount, seen', idle', rounds + 1)
  {
    GoesOnLinks(feed, universe, maxCount, seen, rounds, hrefs, seen', added);
    CapStillUnreached(feed, maxCount, rounds);
    AfterRound(feed, rounds, hrefs, seen, maxCount);
    GoesOnQuiet(feed, idle, rounds, idle');
  }

  /** What one pass of the `while True` body leaves: the state for the next
      pass, or what the collector returns. */
  datatype Step = Continue(seen: set<string>, idle: nat) | Stop(outcome: Result<set<string>, string>)

  /** One pass of the `while True` body: read the round's links (or its
      exception), harvest them, then stop on the cap, count the round as
      idle or not, and stop on the `IdleLimit`-th idle round in a row.
      Either it stops with what `Scrolled` promises, or scrolling goes on
      having learnt a new link or one more idle round.

      `Scrolling` and `Scrolled` are compared with `true` in these contracts
      so that the verifier keeps each as one fact rather than splitting it
      into its conjuncts at every use; the lemmas above unfold them. */
  method ScrollRound(feed: Feed, maxCount: Option<int>, ghost universe: set<string>,
                     seen: set<string>, idle: nat, rounds: nat)
    returns (step: Step)
    requires Bounded(feed, universe)
    requires Scrolling(feed, universe, maxCount, seen, idle, rounds) == true
    ensures step.Stop? ==> Scrolled(feed, maxCount, step.outcome, rounds + 1) == true
    ensures step.Continue? ==>
      Scrolling(feed, universe, maxCount, step.seen, step.idle, rounds + 1) == true
    ensures step.Continue? ==>
      universe - step.seen < universe - seen || (step.seen == seen && step.idle > idle)
  {
    var round := feed(rounds);
    if round.Raised? {
      RaisedStops(feed, universe, maxCount, seen, idle, rounds);
      return Stop(Failure(round.message));
    }
    RoundProgress(feed, universe, rounds, round.hrefs, seen, maxCount);
    var seen', added := HarvestRound(round.hrefs, seen, maxCount);
    if CapReached(maxCount, |seen'|) {
      CapStops(feed, universe, maxCount, seen, idle, rounds, round.hrefs, seen', added);
      return Stop(Success(seen'));
    }
    var idle': nat := if added == 0 then idle + 1 else 0;
    if idle' >= IdleLimit {
      IdleStops(feed, universe, maxCount, seen, idle, rounds, round.hrefs, seen', added);
      return Stop(Success(seen'));
    }
    ScrollingGoesOn(feed, universe, maxCount, seen, idle, rounds, round.hrefs, seen', added, idle');
    return Continue(seen', idle');
  }

  /** The `while True` loop: it stops, on every feed whose links are drawn
      from a finite `universe`, either because each round learns a new link
      of `universe` or because idle rounds pile up to `IdleLimit`. */
  method Scroll(feed: Feed, maxCount: Option<int>, ghost universe: set<string>)
    returns (outcome: Result<set<string>, string>, rounds: nat)
    requires Bounded(feed, universe)
    ensures Scrolled(feed, maxCount, outcome, rounds) == true
  {
    var seen: set<string> := {};
    var idle: nat := 0;
    rounds := 0;
    ScrollingStart(feed, universe, maxCount);
    while true
      invariant Scrolling(feed, universe, maxCount, seen, idle, rounds) == true
      decreases universe - seen, IdleLimit - idle
    {
      var step := ScrollRound(feed, maxCount, universe, seen, idle, rounds);
      rounds := rounds + 1;
      match step
      case Stop(result) =>
        outcome := result;
        return;
      case Continue(seen', idle') =>
        seen, idle := seen', idle';
    }
  }

  /** `_playwright_collect_reels`: the sorted links, or the message of the
      exception that ended the session, and (as a ghost) the rounds run. */
  method CollectReels(username: string, maxCount: Option<int>, cookieHeader: Option<string>,
                      browser: (string, Option<seq<Cookie>>) -> Feed, ghost universe: set<string>)
    returns (outcome: Result<seq<string>, string>, ghost rounds: nat)
    requires Bounded(FeedFor(browser, username, cookieHeader), universe)
    ensures var feed := FeedFor(browser, username, cookieHeader);
      && rounds >= 1
      && (forall k :: 0 <= k < rounds - 1 ==> feed(k).Links?)
      && CapNeverReached(feed, maxCount, rounds - 1)
      && (forall j :: 0 <= j < rounds ==> !QuietWindow(feed, j))
      && (outcome.Failure? <==> feed(rounds - 1).Raised?)
      && (outcome.Failure? ==> outcome.error == feed(rounds - 1).message)
    ensures outcome.Success? ==>
      && StrictlySorted(outcome.value)
      && (forall u :: u in outcome.value ==> IsReelUrl(u))
      && (maxCount.Some? && maxCount.value > 0 ==> |outcome.value| <= maxCount.value)
      && (maxCount.Some? && maxCount.value < 0 ==> |outcome.value| <= 1)
    ensures var feed := FeedFor(browser, username, cookieHeader);
      outcome.Success? ==>
        && Elems(outcome.value) == Harvest(feed(rounds - 1).hrefs, Shown(feed, rounds - 1), maxCount).seen
        && Shown(feed, rounds - 1) <= Elems(outcome.value) <= Shown(feed, rounds)
        && (maxCount.Some? && maxCount.value < 0 ==> rounds == 1)
    ensures var feed := FeedFor(browser, username, cookieHeader);
      outcome.Success? && !CapReached(maxCount, |outcome.value|) ==>
        && Elems(outcome.value) == Shown(feed, rounds)
        && QuietWindow(feed, rounds)
  {
    var url := ReelsUrl(username);
    var cookies: Option<seq<Cookie>> := None;
    if cookieHeader.Some? && cookieHeader.value != [] {
      var parsed := TranslateCookies(cookieHeader.value);
      if parsed != [] {
        cookies := Some(parsed);
      }
    }
    assert cookies == CookiesToAdd(cookieHeader);
    var feed := browser(url, cookies);
    var seen;
    seen, rounds := Scroll(feed, maxCount, universe);
    match seen
    case Failure(message) =>
      outcome := Failure(message);
    case Success(links) =>
      var reels := SortedList(links);
      ShownUrls(feed, rounds);
      outcome := Success(reels);
  }

  // ---- The route ----

  datatype ReelsOut = ReelsOut(username: string, count: int, reels: seq<string>)

  /** `list_reels`: the collected links with their count; an exception while
      collecting becomes a 502 that carries its message. The rounds the
      session ran are a ghost result. */
  method ListReels(username: string, maxCount: Option<int>, cookieHeader: Option<string>,
                   browser: (string, Option<seq<Cookie>>) -> Feed, ghost universe: set<string>)
    returns (r: Result<ReelsOut, RouteError>, ghost rounds: nat)
    requires Bounded(FeedFor(browser, username, cookieHeader), universe)
    ensures r.Success? ==>
      && r.value.username == username
      && r.value.count == |r.value.reels|
      && StrictlySorted(r.value.reels)
      && (forall u :: u in r.value.reels ==> IsReelUrl(u))
      && (maxCount.Some? && maxCount.value > 0 ==> |r.value.reels| <= maxCount.value)
      && (maxCount.Some? && maxCount.value < 0 ==> |r.value.reels| <= 1)
    ensures var feed := FeedFor(browser, username, cookieHeader);
      r.Failure? ==>
        exists k: nat :: feed(k).Raised? && r.error == HttpError(502, CollectFailed + feed(k).message)
    ensures var feed := FeedFor(browser, username, cookieHeader);
      && rounds >= 1
      && (forall k :: 0 <= k < rounds - 1 ==> feed(k).Links?)
      && CapNeverReached(feed, maxCount, rounds - 1)
      && (forall j :: 0 <= j < rounds ==> !QuietWindow(feed, j))
      && (r.Failure? <==> feed(rounds - 1).Raised?)
      && (r.Failure? ==> r.error == HttpError(502, CollectFailed + feed(rounds - 1).message))
    ensures var feed := FeedFor(browser, username, cookieHeader);
      r.Success? ==>
        && Elems(r.value.reels) == Harvest(feed(rounds - 1).hrefs, Shown(feed, rounds - 1), maxCount).seen
        && Shown(feed, rounds - 1) <= Elems(r.value.reels) <= Shown(feed, rounds)
        && (maxCount.Some? && maxCount.value < 0 ==> rounds == 1)
    ensures var feed := FeedFor(browser, username, cookieHeader);
      r.Success? && !CapReached(maxCount, |r.value.reels|) ==>
        && Elems(r.value.reels) == Shown(feed, rounds)
        && QuietWindow(feed, rounds)
  {
    var outcome;
    outcome, rounds := CollectReels(username, maxCount, cookieHeader, browser, universe);
    match outcome
    case Failure(message) =>
      r := Failure(HttpError(502, CollectFailed + message));
    case Success(urls) =>
      r := Success(ReelsOut(username, |urls|, urls));
  }
}
