/**
 * One pass of `parseFeed` in news/news.go: visit the registered feeds in
 * ascending name order, update each feed's status, collect the sections and
 * the headline candidates, sort the headlines newest first, compose the page
 * and hand it to `saveHtml`.
 */
module Cycle {
  import opened Base
  import opened Names
  import opened Aggregate
  import opened Retry
  import Registry

  type Statuses = map<string, FeedStatus>

  /**
   * One feed's turn: given a feed name and the status it had before the
   * cycle, what the feed contributes. A cycle's turn depends on that feed's
   * own status and its own fetch only.
   */
  type Turn = (string, Option<FeedStatus>) -> Step

  /** The turn of feed `n` against the statuses from before the cycle. */
  function StepOf(turn: Turn, statuses: Statuses, n: string): Step
  {
    turn(n, Lookup(statuses, n))
  }

  /** The empty or one-element sequence holding `o`'s value. */
  function Listed<T>(o: Option<T>): (r: seq<T>)
    ensures |r| <= 1 && (o.Some? <==> |r| == 1)
    ensures o.Some? ==> r[0] == o.value
  {
    if o.Some? then [o.value] else []
  }

  /** What the feed loop leaves: the statuses, and each visited feed's step in visiting order. */
  datatype Walked = Walked(statuses: Statuses, steps: seq<Step>)

  /** The feed loop over `names`, in order, each turn seeing the statuses the earlier ones left. */
  function Walk(names: seq<string>, turn: Turn, statuses: Statuses): Walked
    decreases |names|
  {
    if |names| == 0 then Walked(statuses, [])
    else
      var n := names[0];
      var step := StepOf(turn, statuses, n);
      var rest := Walk(names[1..], turn, statuses[n := step.status]);
      Walked(rest.statuses, [step] + rest.steps)
  }

  /** What `pick` finds in each step, in step order: the loop's appends to `data` or `headlines`. */
  function Gather<T>(steps: seq<Step>, pick: Step -> Option<T>): seq<T>
    decreases |steps|
  {
    if |steps| == 0 then [] else Listed(pick(steps[0])) + Gather(steps[1..], pick)
  }

  function SectionOf(s: Step): Option<Section> { s.section }

  function HeadlineOf(s: Step): Option<Article> { s.headline }

  function SectionName(s: Section): string { s.name }

  function Category(a: Article): string { a.category }

  /** Names later in a strictly sorted list differ from, and sort after, its head. */
  lemma TailAfterHead(names: seq<string>, n: string)
    requires |names| > 0 && StrictlySorted(names) && n in names[1..]
    ensures Less(names[0], n) && n != names[0]
  {
    var i :| 0 <= i < |names[1..]| && names[1..][i] == n;
    assert names[i + 1] == n;
    LessIrreflexive(names[0]);
  }

  /** The loop records a status for every visited feed and forgets none. */
  lemma {:induction false} WalkKeys(names: seq<string>, turn: Turn, statuses: Statuses)
    ensures Walk(names, turn, statuses).statuses.Keys == statuses.Keys + (set n | n in names)
    decreases |names|
  {
    if |names| > 0 {
      var n0 := names[0];
      var st' := statuses[n0 := StepOf(turn, statuses, n0).status];
      WalkKeys(names[1..], turn, st');
      assert (set n | n in names) == {n0} + (set n | n in names[1..]) by {
        assert names == [n0] + names[1..];
      }
    }
  }

  /** Every visited feed ends with the status of its own turn; unvisited ones keep theirs. */
  lemma {:induction false} WalkStatuses(names: seq<string>, turn: Turn, statuses: Statuses)
    requires StrictlySorted(names)
    ensures var r := Walk(names, turn, statuses).statuses;
      && r.Keys == statuses.Keys + (set n | n in names)
      && (forall n :: n in names ==> r[n] == StepOf(turn, statuses, n).status)
      && (forall n :: n in statuses && n !in names ==> r[n] == statuses[n])
    decreases |names|
  {
    WalkKeys(names, turn, statuses);
    if |names| > 0 {
      var n0 := names[0];
      var step := StepOf(turn, statuses, n0);
      var st' := statuses[n0 := step.status];
      WalkStatuses(names[1..], turn, st');
      var r := Walk(names, turn, statuses).statuses;
      assert r == Walk(names[1..], turn, st').statuses;
      assert names == [n0] + names[1..];
      forall n | n in names[1..]
        ensures r[n] == StepOf(turn, statuses, n).status
      {
        TailAfterHead(names, n);
        assert Lookup(st', n) == Lookup(statuses, n);
      }
      if n0 in names[1..] {
        TailAfterHead(names, n0);
      }
      assert r[n0] == step.status;
    }
  }

  /** The i-th step is the turn of the i-th name, taken against the statuses from before the loop. */
  lemma {:induction false} WalkSteps(names: seq<string>, turn: Turn, statuses: Statuses)
    requires StrictlySorted(names)
    ensures var steps := Walk(names, turn, statuses).steps;
      && |steps| == |names|
      && forall i :: 0 <= i < |names| ==> steps[i] == StepOf(turn, statuses, names[i])
    decreases |names|
  {
    if |names| > 0 {
      var n0 := names[0];
      var st' := statuses[n0 := StepOf(turn, statuses, n0).status];
      WalkSteps(names[1..], turn, st');
      var steps := Walk(names, turn, statuses).steps;
      var rest := Walk(names[1..], turn, st').steps;
      assert steps == [StepOf(turn, statuses, n0)] + rest;
      forall i | 1 <= i < |names|
        ensures steps[i] == StepOf(turn, statuses, names[i])
      {
        assert names[1..][i - 1] == names[i];
        TailAfterHead(names, names[i]);
        assert Lookup(st', names[i]) == Lookup(statuses, names[i]);
      }
    }
  }

  /** A value is gathered exactly when some step's pick is that value. */
  lemma {:induction false} GatherMembers<T>(steps: seq<Step>, pick: Step -> Option<T>, x: T)
    ensures x in Gather(steps, pick) <==> exists i :: 0 <= i < |steps| && pick(steps[i]) == Some(x)
    decreases |steps|
  {
    if |steps| > 0 {
      GatherMembers(steps[1..], pick, x);
      if x in Gather(steps[1..], pick) {
        var i :| 0 <= i < |steps[1..]| && pick(steps[1..][i]) == Some(x);
        assert pick(steps[i + 1]) == Some(x);
      }
      if exists i :: 0 <= i < |steps| && pick(steps[i]) == Some(x) {
        var i :| 0 <= i < |steps| && pick(steps[i]) == Some(x);
        if i > 0 {
          assert pick(steps[1..][i - 1]) == Some(x);
        }
      }
    }
  }

  /** The keys of `g` rise strictly, in the order of `Less`. */
  predicate Ascending<T>(g: seq<T>, key: T -> string)
  {
    forall i, j :: 0 <= i < j < |g| ==> Less(key(g[i]), key(g[j]))
  }

  /**
   * When what is picked from the i-th step is keyed by the i-th of strictly
   * ascending names, the gathered values come in strictly ascending key order.
   */
  lemma {:induction false} GatherSorted<T>(steps: seq<Step>, pick: Step -> Option<T>, key: T -> string, names: seq<string>)
    requires |steps| == |names| && StrictlySorted(names)
    requires forall i :: 0 <= i < |steps| && pick(steps[i]).Some? ==> key(pick(steps[i]).value) == names[i]
    ensures Ascending(Gather(steps, pick), key)
    decreases |steps|
  {
    if |steps| > 0 {
      var rest := Gather(steps[1..], pick);
      GatherSorted(steps[1..], pick, key, names[1..]);
      var g := Gather(steps, pick);
      assert g == Listed(pick(steps[0])) + rest;
      if pick(steps[0]).Some? {
        forall j | 0 <= j < |rest|
          ensures Less(names[0], key(rest[j]))
        {
          GatherMembers(steps[1..], pick, rest[j]);
          var i :| 0 <= i < |steps[1..]| && pick(steps[1..][i]) == Some(rest[j]);
          assert pick(steps[i + 1]) == Some(rest[j]);
        }
        forall i, j | 0 <= i < j < |g|
          ensures Less(key(g[i]), key(g[j]))
        {
          assert g[j] == rest[j - 1];
          if i > 0 {
            assert g[i] == rest[i - 1];
          }
        }
      } else {
        assert g == rest;
      }
    }
  }

  /**
   * When every turn labels what `pick` finds with the visited name, the values
   * gathered over a walk are exactly those the names' own turns produce, in
   * strictly ascending label order.
   */
  lemma GatherWalk<T>(names: seq<string>, turn: Turn, statuses: Statuses, pick: Step -> Option<T>, key: T -> string)
    requires StrictlySorted(names)
    requires forall n, k :: pick(turn(n, k)).Some? ==> key(pick(turn(n, k)).value) == n
    ensures var g := Gather(Walk(names, turn, statuses).steps, pick);
      && (forall k :: 0 <= k < |g| ==> key(g[k]) in names && pick(StepOf(turn, statuses, key(g[k]))) == Some(g[k]))
      && (forall n :: n in names && pick(StepOf(turn, statuses, n)).Some? ==> pick(StepOf(turn, statuses, n)).value in g)
      && Ascending(g, key)
  {
    var steps := Walk(names, turn, statuses).steps;
    var g := Gather(steps, pick);
    WalkSteps(names, turn, statuses);
    forall k | 0 <= k < |g|
      ensures key(g[k]) in names && pick(StepOf(turn, statuses, key(g[k]))) == Some(g[k])
    {
      GatherMembers(steps, pick, g[k]);
      var i :| 0 <= i < |steps| && pick(steps[i]) == Some(g[k]);
      assert steps[i] == StepOf(turn, statuses, names[i]);
    }
    forall n | n in names && pick(StepOf(turn, statuses, n)).Some?
      ensures pick(StepOf(turn, statuses, n)).value in g
    {
      var i :| 0 <= i < |names| && names[i] == n;
      assert steps[i] == StepOf(turn, statuses, n);
      GatherMembers(steps, pick, pick(StepOf(turn, statuses, n)).value);
    }
    GatherSorted(steps, pick, key, names);
  }

  /** No element occurs twice. */
  predicate Distinct<T(==)>(xs: seq<T>)
  {
    forall i, j :: 0 <= i < j < |xs| ==> xs[i] != xs[j]
  }

  /** Values with strictly rising keys are all different. */
  lemma AscendingDistinct<T>(g: seq<T>, key: T -> string)
    requires Ascending(g, key)
    ensures Distinct(g)
  {
    forall i, j | 0 <= i < j < |g|
      ensures g[i] != g[j]
    {
      LessIrreflexive(key(g[i]));
    }
  }

  lemma {:induction false} DistinctCount<T>(xs: seq<T>, x: T)
    requires Distinct(xs)
    ensures multiset(xs)[x] <= 1
    decreases |xs|
  {
    if |xs| > 0 {
      assert xs == [xs[0]] + xs[1..];
      DistinctCount(xs[1..], x);
      if xs[0] == x {
        assert x !in xs[1..];
      }
    }
  }

  /** Reordering a list with no repeats gives a list with no repeats. */
  lemma DistinctPermutation<T>(xs: seq<T>, ys: seq<T>)
    requires Distinct(xs) && multiset(xs) == multiset(ys)
    ensures Distinct(ys)
  {
    forall i, j | 0 <= i < j < |ys|
      ensures ys[i] != ys[j]
    {
      if ys[i] == ys[j] {
        var x := ys[i];
        assert ys == ys[..j] + [x] + ys[j + 1..];
        assert x in ys[..j];
        assert multiset(ys)[x] >= 2;
        DistinctCount(xs, x);
      }
    }
  }

  /** The URL registered under `n`; the cycle only asks for registered names. */
  function UrlOf(feeds: Registry.Feeds, n: string): string
  {
    if n in feeds then feeds[n] else ""
  }

  /** The turn of `parseFeed`: fetch the feed's URL and run its state machine. */
  function TurnFor(feeds: Registry.Feeds, now: int, fetch: string -> FetchResult, backoff: nat -> int): Turn
  {
    (n: string, known: Option<FeedStatus>) => Visit(n, UrlOf(feeds, n), known, now, fetch(UrlOf(feeds, n)), backoff)
  }

  /** What registered feed `n` contributes to a cycle run against `statuses`. */
  function Turned(feeds: Registry.Feeds, statuses: Statuses, now: int,
                  fetch: string -> FetchResult, backoff: nat -> int, n: string): Step
    requires n in feeds
  {
    StepOf(TurnFor(feeds, now, fetch, backoff), statuses, n)
  }

  /** The market tickers of the headline block, in the order the page shows them. */
  datatype Markets = Markets(btc: string, eth: string, bnb: string, sol: string)

  /**
   * The headline block: the optional enrichments (a hadith, market prices)
   * and the sorted headlines.
   */
  datatype HeadlineBlock = HeadlineBlock(hadith: Option<string>, markets: Option<Markets>, headlines: seq<Article>)

  /** One block of the page body. Every block renders to non-empty markup. */
  datatype Block = Headlines(block: HeadlineBlock) | SectionBlock(section: Section)

  /** The page readers are served: nothing yet, or the head links and the body blocks. */
  datatype Page = Blank | Rendered(head: seq<string>, body: seq<Block>)

  /** Everything one cycle produces. `head` and `data` are the two arguments of `saveHtml`. */
  datatype CycleResult = CycleResult(
    statuses: Statuses,
    sections: seq<Section>,
    headlines: seq<Article>,
    head: seq<string>,
    data: seq<Block>)

  /** A price the provider returned, or the empty string for one it did not (a Go map miss). */
  function PriceOf(prices: map<string, string>, ticker: string): string
  {
    if ticker in prices then prices[ticker] else ""
  }

  /** The markets part of the headline block: present exactly when the provider answered. */
  function MarketsOf(prices: Option<map<string, string>>): (r: Option<Markets>)
    ensures r.Some? <==> prices.Some?
    ensures r.Some? ==> forall t :: t in prices.value ==>
      (t == "BTC" ==> r.value.btc == prices.value[t]) && (t == "ETH" ==> r.value.eth == prices.value[t])
      && (t == "BNB" ==> r.value.bnb == prices.value[t]) && (t == "SOL" ==> r.value.sol == prices.value[t])
    ensures r.Some? && "BTC" !in prices.value ==> r.value.btc == ""
    ensures r.Some? && "ETH" !in prices.value ==> r.value.eth == ""
    ensures r.Some? && "BNB" !in prices.value ==> r.value.bnb == ""
    ensures r.Some? && "SOL" !in prices.value ==> r.value.sol == ""
  {
    match prices
    case None => None
    case Some(p) => Some(Markets(PriceOf(p, "BTC"), PriceOf(p, "ETH"), PriceOf(p, "BNB"), PriceOf(p, "SOL")))
  }

  /** The hadith part of the headline block: present exactly when the provider gave non-empty text. */
  function HadithOf(hadith: string): (r: Option<string>)
    ensures r.Some? <==> |hadith| > 0
    ensures r.Some? ==> r.value == hadith
  {
    if |hadith| > 0 then Some(hadith) else None
  }

  /** The feed loop of a cycle: the registered names in ascending order, each taking its turn. */
  function Loop(feeds: Registry.Feeds, statuses: Statuses, now: int,
                fetch: string -> FetchResult, backoff: nat -> int): Walked
  {
    Walk(SortedNames(feeds.Keys), TurnFor(feeds, now, fetch, backoff), statuses)
  }

  /** A registered feed's turn fetches its registered URL and runs its state machine. */
  lemma TurnedVisits(feeds: Registry.Feeds, statuses: Statuses, now: int,
                     fetch: string -> FetchResult, backoff: nat -> int, n: string)
    requires n in feeds
    ensures Turned(feeds, statuses, now, fetch, backoff, n) == Visit(n, feeds[n], Lookup(statuses, n), now, fetch(feeds[n]), backoff)
  {
    var t := TurnFor(feeds, now, fetch, backoff);
    assert UrlOf(feeds, n) == feeds[n];
    assert t(n, Lookup(statuses, n)) == Visit(n, UrlOf(feeds, n), Lookup(statuses, n), now, fetch(UrlOf(feeds, n)), backoff);
  }

  /** Every registered feed ends with the status of its own turn; other statuses are kept. */
  ghost predicate StatusesAfter(after: Statuses, feeds: Registry.Feeds, statuses: Statuses, now: int,
                                fetch: string -> FetchResult, backoff: nat -> int)
  {
    && after.Keys == statuses.Keys + feeds.Keys
    && (forall n :: n in feeds ==> after[n] == Turned(feeds, statuses, now, fetch, backoff, n).status)
    && (forall n :: n in statuses && n !in feeds ==> after[n] == statuses[n])
  }

  /** `secs` holds the section of each feed whose turn produced one, each once, in ascending name order. */
  ghost predicate ShowsSections(secs: seq<Section>, feeds: Registry.Feeds, statuses: Statuses, now: int,
                                fetch: string -> FetchResult, backoff: nat -> int)
  {
    && (forall k :: 0 <= k < |secs| ==>
          (secs[k].name in feeds && Turned(feeds, statuses, now, fetch, backoff, secs[k].name).section == Some(secs[k])))
    && (forall n :: n in feeds && Turned(feeds, statuses, now, fetch, backoff, n).section.Some? ==>
          Turned(feeds, statuses, now, fetch, backoff, n).section.value in secs)
    && (forall i, j :: 0 <= i < j < |secs| ==> Less(secs[i].name, secs[j].name))
  }

  /** `hs` holds the headline of each feed whose turn produced one, and nothing twice. */
  ghost predicate ShowsHeadlines(hs: seq<Article>, feeds: Registry.Feeds, statuses: Statuses, now: int,
                                 fetch: string -> FetchResult, backoff: nat -> int)
  {
    && (forall k :: 0 <= k < |hs| ==>
          (hs[k].category in feeds && Turned(feeds, statuses, now, fetch, backoff, hs[k].category).headline == Some(hs[k])))
    && (forall n :: n in feeds && Turned(feeds, statuses, now, fetch, backoff, n).headline.Some? ==>
          Turned(feeds, statuses, now, fetch, backoff, n).headline.value in hs)
    && Distinct(hs)
  }

  /** Whatever the cycle's turn shows is labelled with the feed it came from. */
  lemma TurnForLabels(feeds: Registry.Feeds, now: int, fetch: string -> FetchResult, backoff: nat -> int)
    ensures var t := TurnFor(feeds, now, fetch, backoff);
      && (forall n, k :: SectionOf(t(n, k)).Some? ==> SectionName(SectionOf(t(n, k)).value) == n)
      && (forall n, k :: HeadlineOf(t(n, k)).Some? ==> Category(HeadlineOf(t(n, k)).value) == n)
  {
    var t := TurnFor(feeds, now, fetch, backoff);
    forall n, k
      ensures SectionOf(t(n, k)).Some? ==> SectionName(SectionOf(t(n, k)).value) == n
      ensures HeadlineOf(t(n, k)).Some? ==> Category(HeadlineOf(t(n, k)).value) == n
    {
      assert t(n, k) == Visit(n, UrlOf(feeds, n), k, now, fetch(UrlOf(feeds, n)), backoff);
    }
  }

  lemma LoopStatuses(feeds: Registry.Feeds, statuses: Statuses, now: int,
                     fetch: string -> FetchResult, backoff: nat -> int)
    ensures StatusesAfter(Loop(feeds, statuses, now, fetch, backoff).statuses, feeds, statuses, now, fetch, backoff)
  {
    var names := SortedNames(feeds.Keys);
    WalkStatuses(names, TurnFor(feeds, now, fetch, backoff), statuses);
    assert (set n | n in names) == feeds.Keys;
  }

  lemma LoopSections(feeds: Registry.Feeds, statuses: Statuses, now: int,
                     fetch: string -> FetchResult, backoff: nat -> int)
    ensures ShowsSections(Gather(Loop(feeds, statuses, now, fetch, backoff).steps, SectionOf), feeds, statuses, now, fetch, backoff)
  {
    var names := SortedNames(feeds.Keys);
    var t := TurnFor(feeds, now, fetch, backoff);
    TurnForLabels(feeds, now, fetch, backoff);
    GatherWalk(names, t, statuses, SectionOf, SectionName);
  }

  lemma LoopCandidates(feeds: Registry.Feeds, statuses: Statuses, now: int,
                       fetch: string -> FetchResult, backoff: nat -> int)
    ensures ShowsHeadlines(Gather(Loop(feeds, statuses, now, fetch, backoff).steps, HeadlineOf), feeds, statuses, now, fetch, backoff)
  {
    var names := SortedNames(feeds.Keys);
    var t := TurnFor(feeds, now, fetch, backoff);
    var cs := Gather(Loop(feeds, statuses, now, fetch, backoff).steps, HeadlineOf);
    TurnForLabels(feeds, now, fetch, backoff);
    GatherWalk(names, t, statuses, HeadlineOf, Category);
    AscendingDistinct(cs, Category);
  }

  /** Reordering the candidates keeps them the headlines of the cycle. */
  lemma ReorderedHeadlines(cs: seq<Article>, hs: seq<Article>, feeds: Registry.Feeds, statuses: Statuses, now: int,
                           fetch: string -> FetchResult, backoff: nat -> int)
    requires ShowsHeadlines(cs, feeds, statuses, now, fetch, backoff)
    requires multiset(cs) == multiset(hs)
    ensures ShowsHeadlines(hs, feeds, statuses, now, fetch, backoff)
  {
    DistinctPermutation(cs, hs);
    forall k | 0 <= k < |hs|
      ensures hs[k] in cs
    {
      assert hs[k] in multiset(hs);
    }
    forall n | n in feeds && Turned(feeds, statuses, now, fetch, backoff, n).headline.Some?
      ensures Turned(feeds, statuses, now, fetch, backoff, n).headline.value in hs
    {
      assert Turned(feeds, statuses, now, fetch, backoff, n).headline.value in multiset(cs);
    }
  }

  /** The head links: one anchor per section, in section order. */
  function Anchors(secs: seq<Section>): (r: seq<string>)
    ensures |r| == |secs| && forall k :: 0 <= k < |r| ==> r[k] == secs[k].name
  {
    seq(|secs|, k requires 0 <= k < |secs| => secs[k].name)
  }

  /** The page body: the headline block first, then the sections in order. */
  function Compose(block: HeadlineBlock, secs: seq<Section>): (r: seq<Block>)
    ensures |r| == |secs| + 1 && r[0] == Headlines(block)
    ensures forall k :: 0 <= k < |secs| ==> r[k + 1] == SectionBlock(secs[k])
  {
    [Headlines(block)] + seq(|secs|, k requires 0 <= k < |secs| => SectionBlock(secs[k]))
  }

  /**
   * One fetch cycle over registry `feeds` and prior statuses `statuses` at
   * time `now`. `fetch` stands for the feed parser, `backoff` for the backoff
   * policy, `hadith` and `prices` for the two enrichment providers' answers.
   */
  function ParseFeed(feeds: Registry.Feeds, statuses: Statuses, now: int, fetch: string -> FetchResult,
                     backoff: nat -> int, hadith: string, prices: Option<map<string, string>>): (r: CycleResult)
    ensures StatusesAfter(r.statuses, feeds, statuses, now, fetch, backoff)
    ensures ShowsSections(r.sections, feeds, statuses, now, fetch, backoff)
    ensures ShowsHeadlines(r.headlines, feeds, statuses, now, fetch, backoff) && NewestFirst(r.headlines)
    // one head link per section; the headline block comes before the sections
    ensures |r.head| == |r.sections| && forall k :: 0 <= k < |r.head| ==> r.head[k] == r.sections[k].name
    ensures |r.data| == |r.sections| + 1
    ensures r.data[0] == Headlines(HeadlineBlock(HadithOf(hadith), MarketsOf(prices), r.headlines))
    ensures forall k :: 0 <= k < |r.sections| ==> r.data[k + 1] == SectionBlock(r.sections[k])
  {
    var w := Loop(feeds, statuses, now, fetch, backoff);
    LoopStatuses(feeds, statuses, now, fetch, backoff);
    LoopSections(feeds, statuses, now, fetch, backoff);
    LoopCandidates(feeds, statuses, now, fetch, backoff);
    var sections := Gather(w.steps, SectionOf);
    var candidates := Gather(w.steps, HeadlineOf);
    var headlines := SortHeadlines(candidates);
    ReorderedHeadlines(candidates, headlines, feeds, statuses, now, fetch, backoff);
    var block := HeadlineBlock(HadithOf(hadith), MarketsOf(prices), headlines);
    CycleResult(w.statuses, sections, headlines, Anchors(sections), Compose(block, sections))
  }

  /** The record invariant holds of every status a cycle leaves, if it held before. */
  lemma CycleKeepsWellFormed(feeds: Registry.Feeds, statuses: Statuses, now: int, fetch: string -> FetchResult,
                             backoff: nat -> int, hadith: string, prices: Option<map<string, string>>)
    requires forall n :: n in statuses ==> WellFormed(statuses[n])
    ensures var after := ParseFeed(feeds, statuses, now, fetch, backoff, hadith, prices).statuses;
      forall n :: n in after ==> WellFormed(after[n])
  {
    var after := ParseFeed(feeds, statuses, now, fetch, backoff, hadith, prices).statuses;
    forall n | n in after
      ensures WellFormed(after[n])
    {
      if n in feeds {
        TurnedVisits(feeds, statuses, now, fetch, backoff, n);
        assert after[n] == Turned(feeds, statuses, now, fetch, backoff, n).status;
      }
    }
  }

  /** A feed whose turn shows nothing has no section and no headline on the page. */
  lemma NotShownAbsent(feeds: Registry.Feeds, statuses: Statuses, now: int, fetch: string -> FetchResult,
                       backoff: nat -> int, hadith: string, prices: Option<map<string, string>>, n: string)
    requires n in feeds
    requires Turned(feeds, statuses, now, fetch, backoff, n).section.None?
    requires Turned(feeds, statuses, now, fetch, backoff, n).headline.None?
    ensures var r := ParseFeed(feeds, statuses, now, fetch, backoff, hadith, prices);
      && (forall k :: 0 <= k < |r.sections| ==> r.sections[k].name != n)
      && (forall k :: 0 <= k < |r.headlines| ==> r.headlines[k].category != n)
  {
    var r := ParseFeed(feeds, statuses, now, fetch, backoff, hadith, prices);
    assert ShowsSections(r.sections, feeds, statuses, now, fetch, backoff);
    assert ShowsHeadlines(r.headlines, feeds, statuses, now, fetch, backoff);
    forall k | 0 <= k < |r.sections|
      ensures r.sections[k].name != n
    {
      assert Turned(feeds, statuses, now, fetch, backoff, r.sections[k].name).section.Some?;
    }
    forall k | 0 <= k < |r.headlines|
      ensures r.headlines[k].category != n
    {
      assert Turned(feeds, statuses, now, fetch, backoff, r.headlines[k].category).headline.Some?;
    }
  }

  /** A feed still backing off keeps its status and shows neither a section nor a headline. */
  lemma SkippedFeedUnchanged(feeds: Registry.Feeds, statuses: Statuses, now: int, fetch: string -> FetchResult,
                             backoff: nat -> int, hadith: string, prices: Option<map<string, string>>, n: string)
    requires n in feeds && n in statuses && BackingOff(statuses[n], now)
    ensures var r := ParseFeed(feeds, statuses, now, fetch, backoff, hadith, prices);
      && r.statuses[n] == statuses[n]
      && (forall k :: 0 <= k < |r.sections| ==> r.sections[k].name != n)
      && (forall k :: 0 <= k < |r.headlines| ==> r.headlines[k].category != n)
  {
    TurnedVisits(feeds, statuses, now, fetch, backoff, n);
    NotShownAbsent(feeds, statuses, now, fetch, backoff, hadith, prices, n);
  }

  /**
   * A feed that is due and whose fetch fails counts one more attempt, keeps
   * the error, is not retried before `now + backoff(attempts)`, and shows
   * neither a section nor a headline.
   */
  lemma FailedFeedBacksOff(feeds: Registry.Feeds, statuses: Statuses, now: int, fetch: string -> FetchResult,
                           backoff: nat -> int, hadith: string, prices: Option<map<string, string>>, n: string)
    requires n in feeds && fetch(feeds[n]).FetchFailed?
    requires n !in statuses || !BackingOff(statuses[n], now)
    ensures var r := ParseFeed(feeds, statuses, now, fetch, backoff, hadith, prices);
      var st := r.statuses[n];
      && st.attempts == (if n in statuses then statuses[n].attempts else 0) + 1
      && st.error == Some(fetch(feeds[n]).reason)
      && st.backoff == now + backoff(st.attempts)
      && (forall k :: 0 <= k < |r.sections| ==> r.sections[k].name != n)
      && (forall k :: 0 <= k < |r.headlines| ==> r.headlines[k].category != n)
  {
    TurnedVisits(feeds, statuses, now, fetch, backoff, n);
    NotShownAbsent(feeds, statuses, now, fetch, backoff, hadith, prices, n);
  }

  /**
   * A feed that is due and whose fetch succeeds is reset and shows its section
   * (its first ten items, cleaned); with at least one item, its first item is
   * among the headlines.
   */
  lemma FetchedFeedShown(feeds: Registry.Feeds, statuses: Statuses, now: int, fetch: string -> FetchResult,
                         backoff: nat -> int, hadith: string, prices: Option<map<string, string>>, n: string)
    requires n in feeds && fetch(feeds[n]).Fetched?
    requires n !in statuses || !BackingOff(statuses[n], now)
    ensures var r := ParseFeed(feeds, statuses, now, fetch, backoff, hadith, prices);
      var items := fetch(feeds[n]).items;
      && r.statuses[n].attempts == 0 && r.statuses[n].error.None? && r.statuses[n].backoff == 0
      && BuildSection(n, items) in r.sections
      && (|items| > 0 ==> Promote(n, items).value in r.headlines)
  {
    var r := ParseFeed(feeds, statuses, now, fetch, backoff, hadith, prices);
    TurnedVisits(feeds, statuses, now, fetch, backoff, n);
    assert ShowsSections(r.sections, feeds, statuses, now, fetch, backoff);
    assert ShowsHeadlines(r.headlines, feeds, statuses, now, fetch, backoff);
  }

  /** Some section in `secs` is named `n`. */
  predicate SectionNamed(secs: seq<Section>, n: string)
  {
    exists j :: 0 <= j < |secs| && secs[j].name == n
  }

  lemma SectionForEachHeadline(hs: seq<Article>, secs: seq<Section>, feeds: Registry.Feeds, statuses: Statuses,
                                now: int, fetch: string -> FetchResult, backoff: nat -> int)
    requires ShowsHeadlines(hs, feeds, statuses, now, fetch, backoff)
    requires ShowsSections(secs, feeds, statuses, now, fetch, backoff)
    ensures forall k :: 0 <= k < |hs| ==> SectionNamed(secs, hs[k].category)
  {
    forall k | 0 <= k < |hs|
      ensures SectionNamed(secs, hs[k].category)
    {
      var n := hs[k].category;
      assert n in feeds;
      var t := Turned(feeds, statuses, now, fetch, backoff, n);
      TurnedVisits(feeds, statuses, now, fetch, backoff, n);
      assert t.headline == Some(hs[k]);
      HeadlineImpliesSection(n, feeds[n], Lookup(statuses, n), now, fetch(feeds[n]), backoff);
      assert t.section.value in secs;
      var j :| 0 <= j < |secs| && secs[j] == t.section.value;
    }
  }

  /** Every headline comes from a feed that also shows a section. */
  lemma HeadlinesHaveSections(feeds: Registry.Feeds, statuses: Statuses, now: int, fetch: string -> FetchResult,
                              backoff: nat -> int, hadith: string, prices: Option<map<string, string>>)
    ensures var r := ParseFeed(feeds, statuses, now, fetch, backoff, hadith, prices);
      forall k :: 0 <= k < |r.headlines| ==> SectionNamed(r.sections, r.headlines[k].category)
  {
    var r := ParseFeed(feeds, statuses, now, fetch, backoff, hadith, prices);
    SectionForEachHeadline(r.headlines, r.sections, feeds, statuses, now, fetch, backoff);
  }

  /**
   * A failing feed does not hold the others back: whatever the fetch of
   * feed `m` answers, every other feed with a different URL ends the cycle
   * with the same status and the same section.
   */
  lemma FailureIsolated(feeds: Registry.Feeds, statuses: Statuses, now: int, fetch: string -> FetchResult,
                        backoff: nat -> int, hadith: string, prices: Option<map<string, string>>,
                        m: string, n: string, reason: string)
    requires m in feeds && n in feeds && feeds[m] != feeds[n]
    ensures var failing := (u: string) => if u == feeds[m] then FetchFailed(reason) else fetch(u);
      var r := ParseFeed(feeds, statuses, now, fetch, backoff, hadith, prices);
      var r' := ParseFeed(feeds, statuses, now, failing, backoff, hadith, prices);
      && r'.statuses[n] == r.statuses[n]
      && (forall k :: 0 <= k < |r.sections| && r.sections[k].name == n ==> r.sections[k] in r'.sections)
      && (forall k :: 0 <= k < |r'.sections| && r'.sections[k].name == n ==> r'.sections[k] in r.sections)
      && (forall k :: 0 <= k < |r'.sections| ==> r'.sections[k].name != m)
  {
    var failing := (u: string) => if u == feeds[m] then FetchFailed(reason) else fetch(u);
    var r := ParseFeed(feeds, statuses, now, fetch, backoff, hadith, prices);
    var r' := ParseFeed(feeds, statuses, now, failing, backoff, hadith, prices);
    assert failing(feeds[n]) == fetch(feeds[n]);
    TurnedVisits(feeds, statuses, now, fetch, backoff, n);
    TurnedVisits(feeds, statuses, now, failing, backoff, n);
    TurnedVisits(feeds, statuses, now, failing, backoff, m);
    assert Turned(feeds, statuses, now, failing, backoff, n) == Turned(feeds, statuses, now, fetch, backoff, n);
    assert failing(feeds[m]) == FetchFailed(reason);
    assert Turned(feeds, statuses, now, failing, backoff, m).section.None?;
  }

  /** `saveHtml`: replaces the served page with `head` and `data`, unless `data` is empty. */
  function SaveHtml(current: Page, head: seq<string>, data: seq<Block>): (r: Page)
    ensures |data| == 0 ==> r == current
    ensures |data| > 0 ==> r.Rendered? && r.head == head && r.body == data
  {
    if |data| == 0 then current else Rendered(head, data)
  }

  /** The end of `parseFeed` as written: the composed page goes straight to `saveHtml`. */
  function PublishAsWritten(current: Page, r: CycleResult): Page
  {
    SaveHtml(current, r.head, r.data)
  }

  /**
   * As written, the empty-data guard never fires after a cycle: the headline
   * block is always composed in front of the sections, so the served page is
   * always replaced, even by one without a single section.
   */
  lemma GuardNeverFires(current: Page, feeds: Registry.Feeds, statuses: Statuses, now: int,
                        fetch: string -> FetchResult, backoff: nat -> int, hadith: string,
                        prices: Option<map<string, string>>)
    ensures var r := ParseFeed(feeds, statuses, now, fetch, backoff, hadith, prices);
      PublishAsWritten(current, r) == Rendered(r.head, r.data)
  {
  }

  /** The page shows at least one feed section. */
  predicate HasSection(p: Page)
  {
    p.Rendered? && exists k :: 0 <= k < |p.body| && p.body[k].SectionBlock?
  }

  /** A cycle in which every registered feed's fetch fails shows no section. */
  lemma AllFailingNoSections(feeds: Registry.Feeds, statuses: Statuses, now: int,
                             fetch: string -> FetchResult, backoff: nat -> int, hadith: string,
                             prices: Option<map<string, string>>)
    requires forall n :: n in feeds ==> fetch(feeds[n]).FetchFailed?
    ensures ParseFeed(feeds, statuses, now, fetch, backoff, hadith, prices).sections == []
  {
    var secs := ParseFeed(feeds, statuses, now, fetch, backoff, hadith, prices).sections;
    if |secs| > 0 {
      TurnedVisits(feeds, statuses, now, fetch, backoff, secs[0].name);
    }
  }

  /**
   * The case that shows it: when every registered feed's fetch fails, the
   * cycle has no section, yet the served page is still replaced, by one that
   * shows no section.
   */
  lemma AllFailingReplacesPage(current: Page, feeds: Registry.Feeds, statuses: Statuses, now: int,
                               fetch: string -> FetchResult, backoff: nat -> int, hadith: string,
                               prices: Option<map<string, string>>)
    requires forall n :: n in feeds ==> fetch(feeds[n]).FetchFailed?
    ensures var r := ParseFeed(feeds, statuses, now, fetch, backoff, hadith, prices);
      && r.sections == []
      && !HasSection(PublishAsWritten(current, r))
      && (HasSection(current) ==> PublishAsWritten(current, r) != current)
  {
    var r := ParseFeed(feeds, statuses, now, fetch, backoff, hadith, prices);
    AllFailingNoSections(feeds, statuses, now, fetch, backoff, hadith, prices);
    assert |PublishAsWritten(current, r).body| == 1;
  }

  /**
   * The guard as evidently intended: a cycle that produced no section keeps the
   * page readers are already served; otherwise the new page replaces it.
   */
  function Publish(current: Page, r: CycleResult): (p: Page)
    requires |r.data| == |r.sections| + 1
    requires forall k :: 0 <= k < |r.sections| ==> r.data[k + 1] == SectionBlock(r.sections[k])
    ensures |r.sections| == 0 ==> p == current
    ensures |r.sections| > 0 ==> p == Rendered(r.head, r.data) && HasSection(p)
  {
    if |r.sections| == 0 then current
    else
      assert r.data[0 + 1] == SectionBlock(r.sections[0]);
      SaveHtml(current, r.head, r.data)
  }

  /** With the guard, once a page shows a section, every later page does. */
  lemma PublishKeepsSections(current: Page, feeds: Registry.Feeds, statuses: Statuses, now: int,
                             fetch: string -> FetchResult, backoff: nat -> int, hadith: string,
                             prices: Option<map<string, string>>)
    requires HasSection(current)
    ensures HasSection(Publish(current, ParseFeed(feeds, statuses, now, fetch, backoff, hadith, prices)))
  {
  }
}
