# ig-reels-resolver, modelled in Dafny

The service is a small web API in front of Instagram. It has two routes.

- `/resolve` turns a reel URL into the direct MP4 URL that the reel page
  exposes in its `og:video` meta tag. It first fetches the page over plain
  HTTP. When that fails or shows no tag, it renders the page in a headless
  browser.
- `/reels/{username}` opens a profile's reels grid in a headless browser and
  scrolls it round after round, collecting every reel link. It stops when a
  cap is reached or after 15 rounds in a row that showed nothing new. It
  returns the links sorted.

The model covers the logic of these routes over `seq<char>` strings.

- **Text** (`text.dfy`): Python's `str.isspace`, `strip`, `lstrip(c)`,
  `split(sep)`, `in` and `endswith`. `Split` is proved inverse to `Join`.
- **Cookies** (`cookies.dfy`): the `Cookie`-header translator that both
  browser sessions use. It reads the `cookie-string` of section 4.2.1 of
  RFC 6265 loosely. `ParseCookies` specifies it and the loop
  `TranslateCookies` is proved equal to it. `CookiesToAdd` decides whether
  `add_cookies` is called at all.
- **OgVideo** (`og_video.dfy`): the fixed pattern
  `<meta\s+property="og:video"\s+content="([^"]+)"`, matched directly under
  Python's `re.IGNORECASE`, as far as the pattern's letters can see it: ASCII
  case, and U+0130 and U+0131 folding onto `i`.
  `\s` is Python's Unicode whitespace. The result is the capture of the
  leftmost match.
- **Resolver** (`resolver.dfy`): `_http_get`, the filename suggestion and
  `resolve_direct_mp4`. The HTTP client is a function from URL and headers
  to a reply. The browser is a function from URL and cookies to a rendered
  page or a failure.
- **Order** (`order.dfy`): Python's `<` on `str` (code point by code
  point), and `sorted` of a set as a strictly increasing sequence.
- **Reels** (`reels.dfy`): the profile URL, one harvest round (the inner
  `for href in hrefs` loop), the `while True` scrolling loop, the sorted
  result and `list_reels`. The browser session is a `Feed`: the `href`s the
  page exposes at each round, or the exception that round raised.

## Model

| member | source | states |
|---|---|---|
| Text.IsSpace | app.py:62 | `str.isspace` of one character, which is also what `\s` matches in a `str` pattern: the ASCII controls 9-13 and 28-31, the space and the Unicode separators |
| Text.Strip | app.py:62 | `strip` leaves no whitespace at either end |
| Text.StripMiddle | app.py:62 | `strip` of a whitespace run, a trimmed middle and another whitespace run is exactly that middle |
| Text.StripKeeps | app.py:62-63 | a character absent from a fragment is absent from the stripped fragment |
| Text.StripLeadingSpace | app.py:62 | leading whitespace does not change what `strip` returns |
| Text.StripParts | app.py:62 | every string splits into whitespace, the stripped part and whitespace, and `strip` returns the middle |
| Text.Split | app.py:61 | `split(sep)` gives at least one part, no part holds `sep`, and joining the parts with `sep` gives the input back |
| Text.SplitJoin | app.py:61 | splitting parts glued with `sep` gives those parts back, the other half of the round trip |
| Text.SplitAppend | app.py:61 | splitting at one separator splits each side on its own |
| Text.SplitAtFirst | app.py:65 | `a + sep + b` with no `sep` in `a` splits into `a` and the parts of `b`, so the first `=` cuts a fragment |
| Text.IndexOfAfter | app.py:65 | the first `sep` of `a + sep + b` is the one right after `a` when `a` has none |
| Text.Find | app.py:41 | the first position at or after `i` that holds `c`, or the end when there is none |
| Text.SkipSpace | app.py:41 | the end of the maximal whitespace run at `i`, as the greedy `\s+` consumes it |
| Text.SkipChar | app.py:81 | the end of the maximal run of `c` at `i`, as `lstrip('@')` removes it |
| Text.LStripChar | app.py:81 | `lstrip(c)` returns a suffix of its input, everything it drops is `c`, and what it returns does not start with `c` |
| Text.Contains | app.py:109 | Python's substring test `t in s`: `t` is a prefix of some suffix of `s` |
| Text.EndsWith | app.py:111 | `s.endswith(c)`: `s` is non-empty and its last character is `c` |
| Cookies.ParseFragment | app.py:62-67 | a fragment gives a record exactly when its stripped form holds `=`; the record's name holds no `=` and name and value are trimmed |
| Cookies.ParseCookies | app.py:61-67 | the records of a header: each `;`-fragment translated in order, keeping those with `=`; its properties are the lemmas below |
| Cookies.ParseCookiesShape | app.py:61-67 | at most one record per `;`-fragment, and every record is well formed |
| Cookies.TranslateCookies | app.py:59-67 | the loop appending one record per fragment with `=` builds exactly `ParseCookies` of the header |
| Cookies.EmptyHeader | app.py:59 | an empty header gives no record |
| Cookies.CookiesToAdd | app.py:59-69 | `add_cookies` gets records only when the header is present and yields at least one record, and then gets all of them |
| Cookies.DropsFragmentWithoutEquals | app.py:63-64 | a fragment without `=` standing between two `;` is dropped: removing it leaves the records unchanged |
| Cookies.PairFragment | app.py:65 | `name=value` with a trimmed name without `=` gives back that name and that value, which may itself hold `=` |
| Cookies.FragmentOfPair | app.py:62-65 | whitespace before `name=value` is stripped before the split |
| Cookies.ParseSerializeAfter | app.py:61-67 | the header text `n1=v1; n2=v2; ...` of well-formed records, after leading whitespace, translates back to those records |
| Cookies.ParseSerialize | app.py:86-93 | translating the header text of well-formed records gives back those records in order |
| Cookies.ExampleHeader | app.py:86-93 | `"a=1; b=2=x"` gives `a` = `"1"` and `b` = `"2=x"`, split at the first `=` only |
| OgVideo.Fold | app.py:41 | the part of `re.IGNORECASE` folding that the pattern's letters can see: a page character matches a letter of the pattern (all ASCII, no `s` or `k`) exactly when its `Fold` equals the letter's, which folds ASCII capitals to lower case and U+0130 and U+0131 to `i`; the folding of other characters (such as U+017F, U+212A or accented letters) is not modelled |
| OgVideo.SpacedLiteral | app.py:41 | a literal followed by `\s+` is recognised only with at least one whitespace character after it |
| OgVideo.QuotedValue | app.py:41 | `content="([^"]+)"` captures a non-empty quote-free span closed by a quote |
| OgVideo.CaptureAt | app.py:41 | a match at `i` captures a non-empty quote-free span after `i` that is closed by a quote |
| OgVideo.Leftmost | app.py:41 | the least position where the test holds, and no earlier position passes it |
| OgVideo.LeftmostSame | app.py:41 | two tests that agree on a range find the same leftmost position |
| OgVideo.FirstMatch | app.py:41 | `re.search` starts its match at the leftmost position where the pattern matches |
| OgVideo.ExtractOgVideo | app.py:39-42 | nothing is returned exactly when the pattern matches nowhere, and a returned value is never empty |
| OgVideo.ExtractLeftmost | app.py:41-42 | when `i` is the first match position, the result is the capture of the match at `i` |
| OgVideo.CaptureQuoteFree | app.py:41 | a capture holds no `"` and is followed by one |
| OgVideo.ExtractQuoteFree | app.py:39-42 | a returned URL never contains `"` |
| OgVideo.FoldKeeps | app.py:41 | `Fold` never turns whitespace or a quote into anything else |
| OgVideo.SkipSpaceFold | app.py:41 | whitespace runs end at the same place in two pages equal up to `Fold` |
| OgVideo.FindFold | app.py:41 | the closing quote is found at the same place in pages equal up to `Fold` |
| OgVideo.SpacedLiteralFold | app.py:41 | `lit\s+` is recognised the same way in pages equal up to `Fold` |
| OgVideo.QuotedValueFold | app.py:41 | the quoted value is found at the same span in pages equal up to `Fold` |
| OgVideo.CaptureFold | app.py:41 | a match and its capture span are the same in pages equal up to `Fold` |
| OgVideo.FirstMatchFold | app.py:41 | the leftmost match starts at the same place in pages equal up to `Fold` |
| OgVideo.SliceFold | app.py:41-42 | pages equal up to `Fold` have slices equal up to `Fold` |
| OgVideo.ExtractIgnoresCase | app.py:41-42 | pages that differ only in ASCII letter case and in U+0130/U+0131 against `i` both give a URL or both give none, and the URLs differ only in that way |
| OgVideo.LiteralHere | app.py:41 | a literal is recognised where it stands |
| OgVideo.SpaceRunHere | app.py:41 | a whitespace run followed by a non-space is skipped whole |
| OgVideo.QuoteHere | app.py:41 | the closing quote after a quote-free URL is the first quote found |
| OgVideo.SpacedLiteralHere | app.py:41 | a literal followed by a non-empty whitespace run is recognised and the run is skipped |
| OgVideo.QuotedValueHere | app.py:41 | `content="url"` is recognised and captures exactly `url` |
| OgVideo.SpacedLiteralSuffix | app.py:41 | `lit\s+` is recognised where the rest of the page reads `lit`, whitespace and more |
| OgVideo.QuotedValueSuffix | app.py:41 | `content="url"` is recognised where the rest of the page reads so, and the span is exactly `url` |
| OgVideo.TagStages | app.py:41 | the three stages of the pattern each succeed on a page that opens with the tag |
| OgVideo.CaptureFromStages | app.py:41 | a match is assembled from its three stages |
| OgVideo.ExtractAtStart | app.py:41-42 | a match at the start of the page is the leftmost one and gives its capture |
| OgVideo.ExtractTag | app.py:39-42 | round trip: a page that opens with `<meta property="og:video" content="url"`, with any whitespace runs and any rest, yields `url` |
| OgVideo.ExtractExample | app.py:40-42 | the fragment `<meta property="og:video" content="https://x/y.mp4">` yields `https://x/y.mp4` |
| Resolver.VideoId | app.py:146 | the id holds neither `/` nor `?` |
| Resolver.VideoIdOf | app.py:146 | the id is the segment after the last `/`, cut at the first `?` |
| Resolver.VideoIdPlain | app.py:159 | without a query string the id is the whole last segment |
| Resolver.Filename | app.py:159-160 | the suggested file name holds neither `/` nor `?` and ends in `.mp4` |
| Resolver.FilenameOfMp4 | app.py:146-147 | a CDN file `<stem>.mp4?...` is suggested as `<stem>.mp4.mp4`, since the id keeps its own extension |
| Resolver.RequestHeaders | app.py:45-47 | the request always carries the user agent, and carries the cookie header exactly when it is a non-empty string |
| Resolver.HttpGet | app.py:44-52 | the body is returned exactly for a response below 400; a status of 400 or more or a transport failure is an error |
| Resolver.FastPath | app.py:141-152 | a successful fetch yields the `og:video` URL of the fetched page, and a failed fetch yields nothing |
| Resolver.Resolve | app.py:138-160 | the browser runs at most once, and exactly when the fast path found no URL; without the browser the answer is the fast path's URL; with it, a browser failure escapes unhandled, a rendered page with the tag gives that page's URL and one without it gives 502 with the fixed message; every success carries the reel URL, a non-empty MP4 URL, its filename and no title |
| Resolver.FastPathIgnoresBrowser | app.py:144-147 | once the fast path finds a URL the browser plays no part |
| Resolver.FallbackIgnoresClient | app.py:148-155 | an error status, a transport failure and a page without the tag all lead to the same fallback |
| Resolver.ErrorStatusFallsBack | app.py:50-51 | a status of 400 or more from the plain fetch is swallowed and the browser is tried |
| Resolver.OkPageWithTag | app.py:141-147 | a page fetched with a status below 400 that carries the tag answers with its URL and its filename, and the browser never runs |
| Resolver.OkPageWithoutTag | app.py:141-155 | a page fetched with a status below 400 without the tag sends the route to the browser, exactly once |
| Resolver.NoTagIs502 | app.py:155-158 | when neither page carries the tag the route answers 502 with its fixed message |
| Order.Below | app.py:130 | Python's `<` on `str`: the first differing code point decides, and a proper prefix comes first |
| Order.BelowIrreflexive | app.py:130 | no string sorts before itself |
| Order.BelowTransitive | app.py:130 | the string order is transitive |
| Order.BelowTotal | app.py:130 | of two different strings exactly one sorts first |
| Order.ElemsEmpty | app.py:130 | a sorted list is empty exactly when the set was |
| Order.SortedDistinct | app.py:130 | a strictly sorted list holds no string twice |
| Order.Insert | app.py:130 | inserting a missing string keeps the list strictly sorted and adds exactly that string |
| Order.SortedUnique | app.py:130 | two strictly sorted lists with the same strings are equal, so `sorted(seen)` is determined by `seen` |
| Order.SortedList | app.py:130 | `sorted` of a set: strictly increasing, holding exactly the set's strings, as many as the set has |
| Reels.CanonicalUsername | app.py:81 | `username.strip().lstrip('@')` never starts with `@` |
| Reels.ReelsUrl | app.py:81 | the grid URL: `https://www.instagram.com/`, the canonical name, `/reels/` |
| Reels.CanonicalUsernameOf | app.py:81 | surrounding whitespace and any number of leading `@` are removed from the username, and nothing else |
| Reels.CanonicalUsernameDropsAt | app.py:81 | a leading `@` is dropped from a trimmed name |
| Reels.ReelsUrlOf | app.py:81 | a name with any surrounding whitespace and any leading `@` opens `https://www.instagram.com/<name>/reels/` |
| Reels.ReelsUrlIgnoresAt | app.py:81 | `@name` and `name` open the same grid URL |
| Reels.IsReelHref | app.py:109 | an href is kept when it contains `/reel/` |
| Reels.Canonical | app.py:111-112 | the link ends in `/`, is the href itself when it already did, and otherwise is the href with one `/` added |
| Reels.CanonicalIsReelUrl | app.py:109-112 | a kept href becomes a reel link ending in `/`, and adding the slash again changes nothing |
| Reels.ShownInCons | app.py:108-114 | the reel links of a round are those of its first href and of the rest |
| Reels.ShownInUrls | app.py:109-114 | every link a round yields contains `/reel/` and ends with `/` |
| Reels.CapReached | app.py:115-117 | `max_count and len(seen) >= max_count`: no cap for `None` or `0`, and a negative cap is reached at once |
| Reels.Harvest | app.py:108-116 | the known links and new-link count after one round: each new canonical reel link added in order, the round cut short once the cap is reached; its properties are the lemmas below |
| Reels.HarvestBounds | app.py:108-116 | a round keeps every known link, adds only links it showed, and adds none exactly when the known links stay the same |
| Reels.HarvestCounts | app.py:113-116 | `new` counts exactly the links added, and once the next new link reaches the cap the round adds at most that one |
| Reels.HarvestKeepsAll | app.py:108-116 | a round the cap did not cut short adds every reel link it showed |
| Reels.HarvestWithinCap | app.py:115-116 | a round never takes the known set past a positive cap it had not reached |
| Reels.HarvestRound | app.py:107-116 | the inner `for` loop, with its break at the cap, computes the known set and new-link count of `Harvest` |
| Reels.ShownGrows | app.py:102-126 | later rounds only add to the links shown |
| Reels.ShownUrls | app.py:109-114 | every link shown in any round is a reel URL ending in `/` |
| Reels.AfterRound | app.py:108-122 | a round keeps the known links and adds only links it showed; unless the cap cut it, it adds all of them, and it is idle exactly when it showed nothing new |
| Reels.RoundProgress | app.py:108-122 | on a profile with finitely many reels, a round either learns a reel not known before or learns nothing |
| Reels.ScrollingStart | app.py:82-101 | scrolling starts with nothing known and no idle round |
| Reels.RaisedStops | app.py:102-106 | a round that raises ends collection with its message |
| Reels.CapStops | app.py:115-118 | a round that reaches the cap ends collection, never past a positive cap, and a negative cap stops after one link of the first round |
| Reels.IdleStops | app.py:119-124 | the 15th quiet round in a row ends collection with every link shown |
| Reels.GoesOnLinks | app.py:108-118 | a round that does not stop leaves the known set equal to all links shown so far |
| Reels.GoesOnQuiet | app.py:119-124 | `idle_rounds` counts exactly the quiet rounds at the end, and no earlier window of 15 quiet rounds existed |
| Reels.ScrollingGoesOn | app.py:102-126 | a round that stops neither on the cap nor on idleness keeps the loop invariant one round further on |
| Reels.ScrollRound | app.py:102-126 | one pass of the loop either stops with the promised outcome or goes on having learnt a new reel or one more idle round |
| Reels.Scroll | app.py:101-126 | on a profile with finitely many reels the loop stops, at the first round that raises, reaches the cap or closes 15 quiet rounds in a row: no earlier round boundary reached the cap or closed such a window; it fails exactly when the last round raised, and otherwise holds what `Harvest` leaves after the last round: the links shown before it plus that round's first new links in `href` order up to the cap, which is all links shown unless the cap stopped it |
| Reels.ScrolledStopsOnce | app.py:101-126 | the promise of `Scroll` determines how it ends: two runs over the same rounds and cap stop after the same round with the same outcome |
| Reels.CapKeepsFirstNew | app.py:107-117 | a first round showing `/reel/a/` then `/reel/b/` under a cap of 1 ends collection after that round with `/reel/a/` alone; the rest of the batch is ignored |
| Reels.CollectReels | app.py:80-130 | the session stops at its first raise, cap or quiet window of 15 rounds; the links returned are strictly sorted reel URLs ending in `/`, exactly what `Harvest` leaves after the last round (the links shown before it plus its first new links in `href` order up to the cap), within a positive cap, and all links shown when no cap stopped collection |
| Reels.ListReels | app.py:162-168 | the reply carries the username, the sorted reel links and their exact count, within a positive cap; collection stopped at its first raise, cap or quiet window of 15 rounds, and the links are those collected, exactly what `Harvest` leaves after the last round and all links shown when no cap stopped it; a round that raised becomes a 502 carrying its message |

## Left out

- The network, the browser, their timeouts and waits are parameters. The HTTP
  client maps URL and headers to a reply. The browser maps URL and cookies to
  a rendered page or, for the grid, a `Feed` of rounds. Redirects, the 30 s
  and 60 s timeouts and the 1.2 s and 1.5 s waits are not modelled.
- Closing the browser and its context is not modelled. The code closes them
  only on the normal path and otherwise relies on the `with` block.
- The user agent read from the environment is a parameter. The port and the
  health route are not modelled.
- FastAPI routing and pydantic validation are not modelled. The reel URL is
  taken as the string `str(payload.reel_url)` would give.
- Resolver.Resolve: every extracted URL is taken to be a valid `HttpUrl`.
  In the code, building `ResolveOut` at app.py:147 validates `mp4_url`, a
  failure there is swallowed at app.py:151-152 and the browser runs; at
  app.py:160 it escapes as an error. So "the browser runs exactly when the
  fast path found no URL" holds for URLs that pass that validation, and the
  URL returned is the extracted string, not pydantic's normalised form.
- An exception from the browser in `/resolve` is one `BrowserError` outcome.
  The route lets it escape, and the model reports it as `Unhandled`.
- A failure to launch the browser or open the grid is modelled as the first
  round raising. Any exception while collecting becomes that round's message.
- The grid's anchors are taken as the page reports them. The CSS selector
  `a[href*='/reel/']` is not evaluated, so the code's own `/reel/` test is
  what filters links.
- Reels.Scroll: termination is proved only for feeds whose links all come
  from a finite set of reels (`Bounded`). Without a cap, the code's loop
  does not end on a page that keeps showing new links.
- OgVideo.Fold: only the folding that the pattern's letters can see is
  modelled; `re.IGNORECASE` also folds characters such as U+017F, U+212A
  and accented capitals, which never match this pattern's letters.
- Reels.CollectReels: requires `Bounded` even under a positive cap, where
  the code's loop ends on every page because each non-idle round adds a
  link. The rounds run are a ghost result.
- Reels.ListReels: requires `Bounded`, as `Reels.CollectReels` does.
- Resolver.Filename: follows the code, which appends `.mp4` to an id that
  already ends in `.mp4`. A CDN link `.../abc123.mp4?sig=z` gives
  `abc123.mp4.mp4`, not `abc123.mp4`.
- Only the fixed `og:video` pattern is matched. There is no general regular
  expression engine and no full RFC 6265 cookie grammar; the code has
  neither.
