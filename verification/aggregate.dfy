/**
 * The per-feed half of the aggregator in news/news.go: the items a section
 * keeps, the headline a feed contributes, and the recency order of the
 * headline list.
 */
module Aggregate {
  import opened Base
  import Sanitize

  /** One entry of a fetched feed; `publishedAt` is the parsed publish time. */
  datatype Item = Item(title: string, description: string, link: string, published: string, publishedAt: int)

  /** A headline promoted from the first item of a feed; `category` is the feed name. */
  datatype Article = Article(
    title: string,
    description: string,
    url: string,
    published: string,
    category: string,
    postedAt: int)

  /** A feed's fragment of the page: its name and the items it shows. */
  datatype Section = Section(name: string, items: seq<Item>)

  /** At most this many items of a feed are shown. */
  const MaxItems: nat := 10

  /** The item with its description passed through the sanitizers. */
  function Cleaned(item: Item): (r: Item)
    ensures r.title == item.title && r.link == item.link
    ensures r.published == item.published && r.publishedAt == item.publishedAt
    ensures r.description == Sanitize.SanitizeText(item.description)
    ensures |r.description| <= |item.description|
  {
    item.(description := Sanitize.SanitizeText(item.description))
  }

  /**
   * The item loop of `parseFeed` from position `i` on: stops at the cap,
   * otherwise renders the cleaned item and moves to the next.
   */
  function RenderFrom(items: seq<Item>, i: nat): (r: seq<Item>)
    requires i <= |items|
    ensures i <= MaxItems ==> |r| == (if |items| < MaxItems then |items| else MaxItems) - i
    ensures i >= MaxItems ==> r == []
    ensures forall k :: 0 <= k < |r| ==> r[k] == Cleaned(items[i + k])
    decreases |items| - i
  {
    if i == |items| || i >= MaxItems then []
    else [Cleaned(items[i])] + RenderFrom(items, i + 1)
  }

  /** A successfully fetched feed's section: the first min(10, n) items, cleaned, in feed order. */
  function BuildSection(name: string, items: seq<Item>): (s: Section)
    ensures s.name == name
    ensures |s.items| == if |items| < MaxItems then |items| else MaxItems
    ensures forall k :: 0 <= k < |s.items| ==> s.items[k] == Cleaned(items[k])
  {
    Section(name, RenderFrom(items, 0))
  }

  /** A feed with more than the cap shows exactly the cap, the earliest items first. */
  lemma SectionCapped(name: string, items: seq<Item>)
    requires |items| >= MaxItems
    ensures BuildSection(name, items).items == seq(MaxItems, k requires 0 <= k < MaxItems => Cleaned(items[k]))
  {
  }

  /** The headline a feed contributes: its first item, cleaned, if it has one. */
  function Promote(name: string, items: seq<Item>): (r: Option<Article>)
    ensures r.Some? <==> |items| > 0
    ensures r.Some? ==> r.value.category == name && r.value.postedAt == items[0].publishedAt
    ensures r.Some? ==> r.value.title == items[0].title && r.value.url == items[0].link
    ensures r.Some? ==> r.value.published == items[0].published
    ensures r.Some? ==> r.value.description == Cleaned(items[0]).description
  {
    if |items| == 0 then None
    else
      var first := Cleaned(items[0]);
      Some(Article(first.title, first.description, first.link, first.published, name, first.publishedAt))
  }

  /** Newest first: no article is followed by a strictly newer one. */
  predicate NewestFirst(xs: seq<Article>)
  {
    forall i, j :: 0 <= i < j < |xs| ==> xs[i].postedAt >= xs[j].postedAt
  }

  /** No article of `xs` is newer than `t`. */
  predicate NotNewerThan(xs: seq<Article>, t: int)
  {
    forall k :: 0 <= k < |xs| ==> xs[k].postedAt <= t
  }

  lemma BoundCarriesOver(ys: seq<Article>, xs: seq<Article>, a: Article, t: int)
    requires multiset(ys) == multiset(xs) + multiset{a}
    requires NotNewerThan(xs, t) && a.postedAt <= t
    ensures NotNewerThan(ys, t)
  {
    forall k | 0 <= k < |ys|
      ensures ys[k].postedAt <= t
    {
      assert ys[k] in multiset(ys);
      if ys[k] != a {
        assert ys[k] in multiset(xs);
        var j :| 0 <= j < |xs| && xs[j] == ys[k];
      }
    }
  }

  /** Places `a` in a newest-first list. */
  function Insert(a: Article, xs: seq<Article>): (r: seq<Article>)
    requires NewestFirst(xs)
    ensures NewestFirst(r)
    ensures multiset(r) == multiset(xs) + multiset{a}
    decreases |xs|
  {
    if |xs| == 0 then [a]
    else if a.postedAt >= xs[0].postedAt then [a] + xs
    else
      var rest := Insert(a, xs[1..]);
      assert xs == [xs[0]] + xs[1..];
      BoundCarriesOver(rest, xs[1..], a, xs[0].postedAt);
      [xs[0]] + rest
  }

  /**
   * The headline order. Go's `sort.Slice` is not stable, so only the
   * newest-first order and the contents are promised; ties may come out in
   * any order.
   */
  function SortHeadlines(xs: seq<Article>): (r: seq<Article>)
    ensures NewestFirst(r)
    ensures multiset(r) == multiset(xs)
    decreases |xs|
  {
    if |xs| == 0 then []
    else
      assert xs == [xs[0]] + xs[1..];
      Insert(xs[0], SortHeadlines(xs[1..]))
  }
}
