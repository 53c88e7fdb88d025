/**
 * The feed registry of news/news.go: a map from feed name to feed URL.
 * `addHandler` inserts one entry at run time; `loadFeed` builds the map at
 * start-up from the bundled defaults and the copy persisted in the cache.
 */
module Registry {
  import opened Base

  type Feeds = map<string, string>

  /** Why an insertion was refused. */
  datatype AddError = MissingNameOrFeed | FeedExists(name: string)

  /** Inserts `name ↦ url`, refusing an empty name or URL and an existing name. */
  function AddFeed(feeds: Feeds, name: string, url: string): (r: Result<Feeds, AddError>)
    ensures (|name| == 0 || |url| == 0) <==> r == Err(MissingNameOrFeed)
    ensures (|name| > 0 && |url| > 0 && name in feeds) <==> r == Err(FeedExists(name))
    ensures r.Ok? <==> |name| > 0 && |url| > 0 && name !in feeds
    ensures r.Ok? ==> r.value.Keys == feeds.Keys + {name} && r.value[name] == url
    ensures r.Ok? ==> forall k :: k in feeds ==> r.value[k] == feeds[k]
  {
    if |name| == 0 || |url| == 0 then Err(MissingNameOrFeed)
    else if name in feeds then Err(FeedExists(name))
    else Ok(feeds[name := url])
  }

  /** Registering a name a second time is refused, whatever the URL. */
  lemma AddTwiceRefused(feeds: Feeds, name: string, url: string, url2: string)
    requires AddFeed(feeds, name, url).Ok?
    ensures AddFeed(AddFeed(feeds, name, url).value, name, url2).Err?
  {
  }

  /**
   * The merge loop of `loadFeed`: walks the persisted entries in `order`
   * (Go ranges over a map in an unspecified order) and adds each one whose
   * name is not yet present.
   */
  function Merge(feeds: Feeds, persisted: Feeds, order: seq<string>): (r: Feeds)
    requires forall i :: 0 <= i < |order| ==> order[i] in persisted
    ensures r.Keys == feeds.Keys + (set i | 0 <= i < |order| :: order[i])
    ensures forall k :: k in feeds ==> r[k] == feeds[k]
    ensures forall k :: k in r && k !in feeds ==> r[k] == persisted[k]
    decreases |order|
  {
    if |order| == 0 then feeds
    else
      var k := order[0];
      var next := if k in feeds then feeds else feeds[k := persisted[k]];
      Merge(next, persisted, order[1..])
  }

  /**
   * The registry after start-up: the bundled defaults, plus each persisted
   * entry whose name the defaults do not already use. `order` enumerates the
   * persisted names.
   */
  function LoadFeeds(bundled: Feeds, persisted: Feeds, order: seq<string>): (r: Feeds)
    requires forall i :: 0 <= i < |order| ==> order[i] in persisted
    requires forall k :: k in persisted ==> k in order
    ensures r.Keys == bundled.Keys + persisted.Keys
    ensures forall k :: k in bundled ==> r[k] == bundled[k]
    ensures forall k :: k in persisted && k !in bundled ==> r[k] == persisted[k]
  {
    Merge(bundled, persisted, order)
  }

  /**
   * Persisting the registry and loading it again gives it back, as long as
   * the persisted copy still agrees with the defaults it was started from.
   */
  lemma ReloadRestores(bundled: Feeds, saved: Feeds, order: seq<string>)
    requires forall i :: 0 <= i < |order| ==> order[i] in saved
    requires forall k :: k in saved ==> k in order
    requires forall k :: k in bundled ==> k in saved && saved[k] == bundled[k]
    ensures LoadFeeds(bundled, saved, order) == saved
  {
  }

  /** The result does not depend on the order the persisted entries are visited in. */
  lemma LoadOrderIrrelevant(bundled: Feeds, persisted: Feeds, o1: seq<string>, o2: seq<string>)
    requires forall i :: 0 <= i < |o1| ==> o1[i] in persisted
    requires forall k :: k in persisted ==> k in o1
    requires forall i :: 0 <= i < |o2| ==> o2[i] in persisted
    requires forall k :: k in persisted ==> k in o2
    ensures LoadFeeds(bundled, persisted, o1) == LoadFeeds(bundled, persisted, o2)
  {
  }
}
