# A model of the news aggregator of mu

mu's `news` package keeps a registry of RSS feeds (name ↦ URL). Every few
minutes a background cycle, `parseFeed`, does the following:

- visits the feeds in ascending name order;
- keeps a retry record per feed (attempt count, last error, backoff time);
- builds one section per feed it fetched, holding at most ten items whose
  descriptions went through a chain of sanitizers;
- promotes each such feed's first item to a headline;
- sorts the headlines newest first;
- puts a headline block (with an optional hadith and market prices) in front
  of the sections;
- hands the page to `saveHtml`, which replaces the served page unless the
  page data is empty.

This project models one such cycle as a pure function, together with the
registry operations (`addHandler`'s insert and `loadFeed`'s merge). It proves
what each step promises.

Modules, one per file:

- `Base` (base.dfy): `Option`, `Result`, and map lookup.
- `Names` (names.dfy): the lexicographic order used by `sort.Strings`, and
  the ascending enumeration of a set of names.
- `Sanitize` (sanitize.dfy): the `replace` chain. Each transform removes
  every leftmost, non-overlapping match of one pattern:
  - the fixed boilerplate sentence;
  - the regular expression `<img .*>`, where `.` stops at a newline and `*`
    is greedy.
- `Aggregate` (aggregate.dfy): items, articles and sections. Covers the
  ten-item cap, headline promotion and the newest-first sort.
- `Retry` (retry.dfy): the `Feed` status record and the per-feed state
  machine (skip, fail or reset).
- `Registry` (registry.dfy): `addHandler`'s checks and insert, and
  `loadFeed`'s merge.
- `Cycle` (cycle.dfy): the cycle, page composition, `saveHtml`, and the
  finding below.

How the environment is modelled:

- **Fetching.** `gofeed`'s `ParseURL` becomes a parameter
  `fetch: string -> FetchResult`.
- **Backoff.** `mu.Backoff` becomes a parameter `backoff: nat -> int`, and
  nothing is assumed about it.
- **Clock.** The clock is an integer `now`. A backoff time of 0 stands for
  Go's zero `time.Time`.
- **Enrichment.** The two providers (`getSunnah`, `getPrice`) become their
  answers: a string, and an optional map.
- **Map iteration.** Go ranges over a map in an unspecified order, so
  `loadFeed`'s merge is given that order explicitly. The cycle's own
  iteration order does not matter, because the names are sorted before the
  loop.

## Model

| member | source | states |
|---|---|---|
| Registry.AddFeed | news/news.go:87-107 | an empty name or URL is refused with "missing name or feed"; an existing name is refused with "feed exists"; otherwise exactly `name ↦ url` is added and every other entry keeps its URL |
| Registry.AddTwiceRefused | news/news.go:98-103 | once a name is registered, registering it again is refused whatever the URL |
| Registry.Merge | news/news.go:187-194 | the merge loop adds exactly the visited persisted names that are missing, with their persisted URLs, and keeps every entry already present |
| Registry.LoadFeeds | news/news.go:166-198 | the loaded registry has the union of the bundled and persisted names; every bundled name keeps its bundled URL; the other names take their persisted URLs |
| Registry.LoadOrderIrrelevant | news/news.go:187-194 | the loaded registry does not depend on the order in which the persisted map is ranged over |
| Registry.ReloadRestores | news/news.go:176-194 | loading a persisted registry that agrees with the defaults gives that registry back |
| Names.SortedNames | news/news.go:222-235 | the names visited by a cycle are the registered names, each exactly once, in strictly ascending byte order |
| Sanitize.MatchAt | news/news.go:76-81 | a literal matches only a non-empty copy of itself; `<img .*>` matches from `<img ` to the last `>` before the next newline; a match is never empty |
| Sanitize.RemoveMatchesIdentity | news/news.go:75-82 | a transform changes a text exactly when the text holds a match |
| Sanitize.RemoveMatches | news/news.go:75-82 | a transform never lengthens its input |
| Sanitize.ApplyChain | news/news.go:309-311 | running the chain never lengthens a description |
| Sanitize.ApplyChainAppend | news/news.go:309-311 | the chain runs in list order, each transform on the previous one's output |
| Sanitize.SanitizeText | news/news.go:75-82 | the stored description is the text without the boilerplate, then without image tags, and is no longer than the original |
| Sanitize.SanitizeCleanUnchanged | news/news.go:75-82 | a description holding neither the boilerplate nor an image tag comes through unchanged, so sanitizing it again changes nothing |
| Aggregate.Cleaned | news/news.go:309-311 | only the description of an item is sanitized, to exactly the sanitized text; title, link and publish time are kept |
| Aggregate.RenderFrom | news/news.go:303-317 | the item loop from position i yields the cleaned items i, i+1, … up to the cap of ten |
| Aggregate.BuildSection | news/news.go:297-333 | a section carries the feed's name and exactly its first min(10, n) items, cleaned, in feed order |
| Aggregate.SectionCapped | news/news.go:303-307 | a feed with ten or more items shows exactly its first ten |
| Aggregate.Promote | news/news.go:319-330 | a feed has a headline exactly when it has an item; the headline is its first cleaned item, with the feed name as category |
| Aggregate.Insert | news/news.go:367-370 | inserting into a newest-first list gives a newest-first list with one more copy of the article |
| Aggregate.SortHeadlines | news/news.go:367-370 | the sorted headlines are a permutation of the candidates with non-increasing publish times |
| Retry.Initial | news/news.go:243-253 | a feed seen for the first time starts with no attempts, no error and no backoff |
| Retry.Visit | news/news.go:242-295 | a feed still backing off keeps its status and shows nothing; a failed fetch adds one attempt, records the error, sets backoff to now + backoff(attempts) and shows nothing; a successful fetch resets the record and shows the section and the promoted headline; the record invariant is kept |
| Retry.ShownIff | news/news.go:255-296 | a feed shows a section exactly when it is not backing off and its fetch succeeds |
| Retry.HeadlineImpliesSection | news/news.go:297-330 | a feed that contributes a headline also contributes a section of the same name |
| Retry.FailureBacksOff | news/news.go:268-284 | when the backoff policy is positive, a failure makes the feed be skipped until its backoff time and retried at any cycle from then on |
| Cycle.LoopStatuses | news/news.go:239-295 | after the loop, every registered feed has the status of its own turn, and every other status is kept |
| Cycle.LoopSections | news/news.go:297-334 | the gathered sections are exactly those the feeds' turns produce, in strictly ascending name order |
| Cycle.LoopCandidates | news/news.go:319-330 | the gathered headline candidates are exactly those the feeds' turns produce, none twice |
| Cycle.ReorderedHeadlines | news/news.go:367-370 | sorting the candidates loses and adds no headline |
| Cycle.MarketsOf | news/news.go:347-363 | the markets part is present exactly when the provider answered, and shows each ticker's price, or the empty string when the price is missing |
| Cycle.HadithOf | news/news.go:340-344 | the hadith part is present exactly when the provider returned non-empty text, and then shows that text |
| Cycle.Anchors | news/news.go:297 | the head holds one anchor per section, in section order |
| Cycle.Compose | news/news.go:382 | the page data is the headline block followed by the sections, in order |
| Cycle.ParseFeed | news/news.go:200-385 | a cycle's statuses, sections (ascending by name) and headlines (newest first, each feed's at most once) are exactly those of the feeds' turns; the head has one link per section; the data is the headline block followed by the sections |
| Cycle.CycleKeepsWellFormed | news/news.go:243-295 | if every status had "no attempts ⇒ no error and no backoff" before a cycle, every status has it after |
| Cycle.NotShownAbsent | news/news.go:255-285 | a feed whose turn shows nothing has neither a section nor a headline on the page |
| Cycle.SkippedFeedUnchanged | news/news.go:255-261 | a feed still backing off keeps its status and shows neither a section nor a headline |
| Cycle.FailedFeedBacksOff | news/news.go:267-285 | a due feed whose fetch fails has one more attempt, the error, backoff now + backoff(attempts), and neither a section nor a headline |
| Cycle.FetchedFeedShown | news/news.go:287-333 | a due feed whose fetch succeeds is reset and shows its capped, cleaned section; its first item is among the headlines |
| Cycle.FailureIsolated | news/news.go:267-285 | making one feed fail changes neither the status nor the section of any feed with a different URL, and the failing feed shows no section |
| Cycle.HeadlinesHaveSections | news/news.go:319-333 | every headline's category names a section on the same page |
| Cycle.SaveHtml | news/news.go:140-150 | empty data leaves the served page unchanged; otherwise the page becomes exactly the given head and data |
| Cycle.GuardNeverFires | news/news.go:382-385 | as written, the page handed to `saveHtml` after a cycle always replaces the served page |
| Cycle.AllFailingNoSections | news/news.go:267-285 | when every feed's fetch fails, the cycle produces no section |
| Cycle.AllFailingReplacesPage | news/news.go:382-385 | as written, a cycle in which every fetch fails replaces a page that showed sections with one that shows none |
| Cycle.Publish | news/news.go:140-143 | corrected guard: a cycle without sections keeps the served page; otherwise the new page, which shows a section, replaces it |
| Cycle.PublishKeepsSections | news/news.go:140-143 | with the corrected guard, once the served page shows a section, every later page does |

## Left out

- HTTP handlers are not modelled, because they are request parsing, routing and rendering. This covers `IndexHandler`, `StatusHandler`, `FeedsHandler`, the form half of `addHandler`, and the routes in cmd/mu/main.go.
- home/home.go is static markup and a cookie read, so it is not modelled.
- `getPrice` and `getSunnah` are network calls with randomness and unchecked JSON assertions. Only their answers enter the model, as parameters.
- File persistence is not modelled. This covers `saveFeed`, the cache write in `saveHtml`, the cold-start cache read and its one-minute sleep in `parseFeed`, and reading the embedded `feeds.json`. The persisted and bundled registries are given as maps.
- A `feeds.json` that fails to parse is not modelled. The model starts from the map it would hold.
- The mutex, the `go parseFeed()` goroutine and the ten-minute sleep-and-repeat recursion are not modelled. The model covers one cycle; a sequence of cycles is a sequence of calls.
- `gofeed` parsing is the `fetch` parameter. `mu.Template` and `mu.Render` wrap markup and are not modelled.
- Exact HTML is not modelled. Sections, headlines, the head links and the page body are structured values. The model states which blocks appear, in what order, with what contents.
- Retry.Visit reads the clock once per cycle (`now`). The source reads it separately for the skip test (`time.Until`, line 258) and for the new backoff (`time.Now`, line 275), so a slow cycle would see later times for later feeds.
- Retry.FeedStatus: `attempts` is unbounded. Go's `int` could in principle wrap after 2^63 consecutive failures.
- Retry.FailureBacksOff: its promise is conditional on a positive backoff policy. `mu.Backoff` is not part of this model, so nothing about it is assumed.
- Aggregate.SortHeadlines: the order among headlines with equal publish times is left open, because `sort.Slice` is not stable.
- Aggregate.Item: a missing publish time is not modelled. The source dereferences `PublishedParsed` unconditionally and would panic on a nil pointer.
- Sanitize.SanitizeText: not idempotent in general, and no such claim is made. Removing the boilerplate can join two halves that form a new copy of it. Only clean text is proved unchanged (Sanitize.SanitizeCleanUnchanged).
- Strings, meaning feed names, URLs and item text, are modelled as sequences of Unicode scalar values, not Go's byte strings. A feed name holding invalid UTF-8 cannot be represented, for example one sent URL-encoded as `%FF` to `addHandler` (news/news.go:90). For such names, `sort.Strings`' byte order (news/news.go:235) and the code-point order of Names.Less can differ.
- Stale fragments are not modelled. A skipped or failed feed contributes nothing to the page, which is what the source does: `data` is rebuilt from scratch every cycle.

## Findings

| source | as written | input that shows it | evidently intended | confidence | as-written member | corrected member |
|---|---|---|---|---|---|---|
| news/news.go:382-385 | `saveHtml` refuses to replace the page only when `data` is empty (lines 141-143). But `parseFeed` always prepends the headline block first (line 382), so `data` is never empty and the guard never fires. | a registry whose feeds all fail to fetch, while the served page shows sections: the served page is replaced by one showing only the (empty) headline block | a cycle that produced no feed section keeps the page readers are already served | medium, not executed | Cycle.AllFailingReplacesPage | Cycle.Publish |

How the finding is established:

- Cycle.GuardNeverFires proves that, as written, every cycle replaces the page.
- Cycle.AllFailingReplacesPage proves the failing case.
- Cycle.Publish guards on the sections instead of the raw data.
- Cycle.PublishKeepsSections proves that, with this guard, a page with sections is never replaced by one without.
