/**
 * The per-feed retry state machine of `parseFeed` in news/news.go. Each
 * cycle a feed is skipped (still backing off), marked failed (fetch error)
 * or reset (fetch succeeded).
 */
module Retry {
  import opened Base
  import opened Aggregate

  /**
   * The `Feed` status record. `backoff` is the time before which a failing
   * feed is not retried, as an integer timestamp; 0 stands for the zero
   * `time.Time`, i.e. unset.
   */
  datatype FeedStatus = FeedStatus(name: string, url: string, error: Option<string>, attempts: nat, backoff: int)

  /** What the fetch capability answers for a URL. */
  datatype FetchResult = FetchFailed(reason: string) | Fetched(items: seq<Item>)

  /** The record invariant: a feed with no failed attempts has no error and no backoff. */
  predicate WellFormed(st: FeedStatus)
  {
    st.attempts == 0 ==> st.backoff == 0 && st.error.None?
  }

  /** The status a feed gets when it is first seen. */
  function Initial(name: string, url: string): (st: FeedStatus)
    ensures WellFormed(st) && st.attempts == 0
    ensures st.name == name && st.url == url
  {
    FeedStatus(name, url, None, 0, 0)
  }

  /** The feed is still waiting out its backoff at time `now`. */
  predicate BackingOff(st: FeedStatus, now: int)
  {
    st.attempts > 0 && now < st.backoff
  }

  /** What one feed contributes to a cycle. */
  datatype Step = Step(status: FeedStatus, section: Option<Section>, headline: Option<Article>)

  /**
   * One feed's turn in a cycle. `known` is its status from earlier cycles,
   * `fetched` what fetching its URL gives, `backoff` the backoff policy
   * (attempt count to delay), about which nothing is assumed.
   */
  function Visit(name: string, url: string, known: Option<FeedStatus>, now: int,
                 fetched: FetchResult, backoff: nat -> int): (r: Step)
    // skipped: status unchanged, nothing shown
    ensures known.Some? && BackingOff(known.value, now) ==>
      r.status == known.value && r.section.None? && r.headline.None?
    // failed: one more attempt, error kept, retried no earlier than now + backoff(attempts)
    ensures (known.None? || !BackingOff(known.value, now)) && fetched.FetchFailed? ==>
      && r.status.attempts == (if known.Some? then known.value.attempts else 0) + 1
      && r.status.error == Some(fetched.reason)
      && r.status.backoff == now + backoff(r.status.attempts)
      && r.section.None? && r.headline.None?
    // succeeded: counters reset, section and headline built from the items
    ensures (known.None? || !BackingOff(known.value, now)) && fetched.Fetched? ==>
      && r.status.attempts == 0 && r.status.error.None? && r.status.backoff == 0
      && r.section == Some(BuildSection(name, fetched.items))
      && r.headline == Promote(name, fetched.items)
    // identity of the record
    ensures known.Some? ==> r.status.name == known.value.name && r.status.url == known.value.url
    ensures known.None? ==> r.status.name == name && r.status.url == url
    // what is shown carries the feed's name
    ensures r.section.Some? ==> r.section.value.name == name
    ensures r.headline.Some? ==> r.headline.value.category == name
    // the invariant is kept
    ensures known.None? || WellFormed(known.value) ==> WellFormed(r.status)
  {
    var st := if known.Some? then known.value else Initial(name, url);
    if st.attempts > 0 && now < st.backoff then
      Step(st, None, None)
    else match fetched
      case FetchFailed(reason) =>
        var attempts := st.attempts + 1;
        Step(st.(attempts := attempts, error := Some(reason), backoff := now + backoff(attempts)), None, None)
      case Fetched(items) =>
        Step(st.(attempts := 0, backoff := 0, error := None), Some(BuildSection(name, items)), Promote(name, items))
  }

  /** A feed is shown in a cycle exactly when it was not backing off and its fetch succeeded. */
  lemma ShownIff(name: string, url: string, known: Option<FeedStatus>, now: int,
                 fetched: FetchResult, backoff: nat -> int)
    ensures Visit(name, url, known, now, fetched, backoff).section.Some?
      <==> (known.None? || !BackingOff(known.value, now)) && fetched.Fetched?
  {
  }

  /** A feed that contributes a headline also contributes a section. */
  lemma HeadlineImpliesSection(name: string, url: string, known: Option<FeedStatus>, now: int,
                               fetched: FetchResult, backoff: nat -> int)
    ensures var r := Visit(name, url, known, now, fetched, backoff);
      r.headline.Some? ==> r.section.Some? && r.section.value.name == r.headline.value.category
  {
  }

  /**
   * With a positive backoff policy, a failure pushes the retry strictly into
   * the future, so the feed is skipped in a cycle at the same time, and it is
   * attempted again in any cycle at or after that retry time.
   */
  lemma FailureBacksOff(name: string, url: string, known: Option<FeedStatus>, now: int,
                        reason: string, backoff: nat -> int, later: int)
    requires known.None? || !BackingOff(known.value, now)
    requires forall n: nat :: backoff(n) > 0
    ensures var st := Visit(name, url, known, now, FetchFailed(reason), backoff).status;
      && st.backoff > now
      && BackingOff(st, now)
      && (later >= st.backoff ==> !BackingOff(st, later))
  {
    var st := Visit(name, url, known, now, FetchFailed(reason), backoff).status;
    assert backoff(st.attempts) > 0;
  }
}
