/**
 * The activity-feed widget: the most recent public events of one user, from a
 * stored cache or one request, rendered as a list of items, plus a
 * "Last updated" label. The request is not modelled: its outcome is handed in.
 */
module ActivityFeed {
  import opened Wrappers
  import opened CachePolicy
  import opened Activity
  import RelativeTime

  /** A piece of an item's summary line: plain text or a link. */
  datatype Piece = TextNode(text: string) | Link(href: string, text: string)

  /** One child of the activity list: the empty-state message, or one item with
      its icon class, summary line, relative time and optional meta line. */
  datatype Node =
    | EmptyState(message: string)
    | Item(icon: string, summary: seq<Piece>, time: RelativeTime.RelTime, meta: Option<string>)

  const EmptyMessage: string := "No recent public activity."

  /** At most this many events are kept from a response. */
  const MaxEvents: nat := 8

  /** `buildActivitySummary`: the leading text, then the repository name (a
      link when there is also a URL), then the trailing text if any. */
  function Summary(d: Descriptor): (ps: seq<Piece>)
    ensures |ps| >= 1 && ps[0] == TextNode(d.leading)
    ensures Link(d.repoUrl, d.repoName) in ps <==> d.repoUrl != "" && d.repoName != ""
  {
    [TextNode(d.leading)]
    + (if d.repoUrl != "" && d.repoName != "" then [Link(d.repoUrl, d.repoName)]
       else if d.repoName != "" then [TextNode(d.repoName)]
       else [])
    + (if d.trailing != "" then [TextNode(d.trailing)] else [])
  }

  /** The item for a descriptor and a relative time: a meta line only when the meta is non-empty. */
  function ItemFrom(d: Descriptor, time: RelativeTime.RelTime): Node
  {
    Item(d.icon, Summary(d), time, if d.meta != "" then Some(d.meta) else None)
  }

  /** The item rendered for one event when the clock reads `now`. */
  function ItemOf(e: Event, now: int): Node
  {
    ItemFrom(DescribeActivity(e), RelativeTime.RelativeSpec(e.createdAt, now))
  }

  /** The body of the `events.forEach` in `renderActivity`: classify the event,
      build its summary and meta line, and format its time. */
  method BuildItem(e: Event, now: int) returns (item: Node)
    ensures item == ItemOf(e, now)
  {
    var d := DescribeActivity(e);
    var time := RelativeTime.FormatRelativeTime(e.createdAt, now);
    item := ItemFrom(d, time);
  }

  /** `f` applied to each element, in order. */
  function MapSeq<A, B>(f: A -> B, xs: seq<A>): (ys: seq<B>)
    ensures |ys| == |xs|
    decreases |xs|
  {
    if xs == [] then [] else MapSeq(f, xs[..|xs| - 1]) + [f(xs[|xs| - 1])]
  }

  lemma {:induction false} MapSeqAt<A, B>(f: A -> B, xs: seq<A>, k: nat)
    requires k < |xs|
    ensures MapSeq(f, xs)[k] == f(xs[k])
    decreases |xs|
  {
    var n := |xs| - 1;
    if k < n {
      MapSeqAt(f, xs[..n], k);
    }
  }

  lemma MapSeqSnoc<A, B>(f: A -> B, xs: seq<A>, i: nat)
    requires i < |xs|
    ensures MapSeq(f, xs[..i + 1]) == MapSeq(f, xs[..i]) + [f(xs[i])]
  {
    assert xs[..i + 1][..i] == xs[..i];
  }

  /** One item per event, in order. */
  function Items(events: seq<Event>, now: int): seq<Node>
  {
    MapSeq(e => ItemOf(e, now), events)
  }

  /** What `renderActivity(events)` leaves in the list: the empty-state message
      alone for no events, otherwise one item per event, in order. */
  function Rendered(events: seq<Event>, now: int): (nodes: seq<Node>)
    ensures events == [] ==> nodes == [EmptyState(EmptyMessage)]
    ensures events != [] ==> |nodes| == |events| && forall i :: 0 <= i < |events| ==> nodes[i] == ItemOf(events[i], now)
  {
    if events == [] then [EmptyState(EmptyMessage)]
    else
      assert forall i :: 0 <= i < |events| ==> Items(events, now)[i] == ItemOf(events[i], now) by {
        forall i | 0 <= i < |events| ensures Items(events, now)[i] == ItemOf(events[i], now) {
          MapSeqAt(e => ItemOf(e, now), events, i);
        }
      }
      Items(events, now)
  }

  /** Every rendered event shows its repository as a link exactly when it has a
      name, and has a meta line exactly when its descriptor's meta is non-empty. */
  lemma RenderedShape(events: seq<Event>, now: int, i: nat)
    requires i < |events|
    ensures var n := Rendered(events, now)[i];
            var d := DescribeActivity(events[i]);
            && n.Item?
            && n.summary == (if events[i].repoName != "" then [TextNode(d.leading), Link(RepoUrl(events[i].repoName), events[i].repoName)]
                             else [TextNode(d.leading)])
            && (n.meta.Some? <==> d.meta != "")
            && n.time == RelativeTime.RelativeSpec(events[i].createdAt, now)
  {
    var d := DescribeActivity(events[i]);
    if events[i].repoName != "" {
      assert d.repoUrl == "https://github.com/" + events[i].repoName;
      assert d.repoUrl != "" by { assert d.repoUrl[0] == 'h'; }
    }
  }

  /** What `response.json()` gave: something other than an array, or an array of events. */
  datatype Feed = NotArray | Events(events: seq<Event>)

  /** The settled request: it failed (network error, non-2xx status, unreadable
      body), or it delivered a body. */
  datatype FetchOutcome = Failed | Fetched(feed: Feed)

  /** `Array.isArray(events) ? events.slice(0, 8) : []`. */
  function SafeEvents(feed: Feed): (r: seq<Event>)
    ensures |r| <= MaxEvents
    ensures feed.NotArray? ==> r == []
    ensures feed.Events? ==> r == feed.events[..if |feed.events| < MaxEvents then |feed.events| else MaxEvents]
  {
    match feed
    case NotArray => []
    case Events(es) => if |es| <= MaxEvents then es else es[..MaxEvents]
  }

  type Store = Option<Entry<seq<Event>>>

  /** The widget. `user` is the container's `data-user` ("" when missing);
      `hasList` and `hasLabel` say whether the list and the label exist. */
  class ActivityWidget {
    const user: string
    const hasList: bool
    const hasLabel: bool
    var list: seq<Node>
    var updated: UpdatedLabel
    var store: Store
    var cached: Store
    var pending: bool

    /** A request is only ever in flight for a configured user and an existing list. */
    ghost predicate Valid()
      reads this
    {
      pending ==> user != "" && hasList
    }

    constructor (user: string, hasList: bool, hasLabel: bool, list: seq<Node>, store: Store)
      ensures this.user == user && this.hasList == hasList && this.hasLabel == hasLabel
      ensures this.list == list && this.store == store
      ensures Valid() && updated == Untouched && cached == None && !pending
    {
      this.user := user;
      this.hasList := hasList;
      this.hasLabel := hasLabel;
      this.list := list;
      this.store := store;
      this.updated := Untouched;
      this.cached := None;
      this.pending := false;
    }

    /** `setActivityUpdated(timestamp, isStale)`. */
    method SetActivityUpdated(t: RelativeTime.Stamp, now: int, isStale: bool)
      modifies this`updated
      ensures updated == if hasLabel then LastUpdated(RelativeTime.RelativeSpec(t, now), isStale) else old(updated)
    {
      if !hasLabel {
        return;
      }
      var time := RelativeTime.FormatRelativeTime(t, now);
      updated := LastUpdated(time, isStale);
    }

    /** `renderActivity(events)`: clears the list, then appends the empty-state
      message or one item per event, in order. */
    method RenderActivity(events: seq<Event>, now: int)
      modifies this`list
      ensures list == if hasList then Rendered(events, now) else old(list)
    {
      if !hasList {
        return;
      }
      list := [];
      if |events| == 0 {
        list := list + [EmptyState(EmptyMessage)];
        return;
      }
      var i := 0;
      while i < |events|
        invariant 0 <= i <= |events|
        invariant list == Items(events[..i], now)
      {
        var item := BuildItem(events[i], now);
        MapSeqSnoc(e => ItemOf(e, now), events, i);
        list := list + [item];
        i := i + 1;
      }
      assert events[..i] == events;
    }

    /** The load step: read the cache, render it (stale or not) with its label,
      and decide whether to request the feed. */
    method Load(now: int)
      requires Valid()
      modifies this
      ensures Valid()
      ensures user == "" || !hasList ==> list == old(list) && updated == old(updated) && cached == old(cached) && pending == old(pending)
      ensures user != "" && hasList ==> cached == old(store)
      ensures user != "" && hasList ==>
                list == (if Usable(old(store)) then Rendered(old(store).value.data.value, now) else old(list))
      ensures user != "" && hasList ==>
                updated == (if hasLabel && Usable(old(store))
                            then LastUpdated(RelativeTime.RelativeSpec(RelativeTime.Number(old(store).value.timestamp), now),
                                             now - old(store).value.timestamp >= ActivityTtlMs)
                            else old(updated))
      ensures user != "" && hasList ==> pending == ShouldFetch(old(store), now, ActivityTtlMs)
      ensures store == old(store)
    {
      if user == "" || !hasList {
        return;
      }
      cached := store;
      if Usable(cached) {
        var ts := cached.value.timestamp;
        SetActivityUpdated(RelativeTime.Number(ts), now, now - ts >= ActivityTtlMs);
        RenderActivity(cached.value.data.value, now);
      }
      pending := ShouldFetch(cached, now, ActivityTtlMs);
    }

    /** The step after the request settles. A delivered body is cut to at most
      eight events, rendered, stored with the current time, and the label set to
      now. A failure without a timestamped cache renders the empty state and
      "Unavailable"; a failure with one leaves everything as it was. */
    method OnFetched(outcome: FetchOutcome, now: int)
      requires Valid() && pending
      modifies this
      ensures Valid()
      ensures outcome.Fetched? ==>
                && list == Rendered(SafeEvents(outcome.feed), now)
                && store == Some(Entry(now, Some(SafeEvents(outcome.feed))))
                && updated == (if hasLabel then LastUpdated(RelativeTime.RelativeSpec(RelativeTime.Number(now), now), false)
                               else old(updated))
      ensures outcome.Failed? && !Timestamped(cached) ==>
                && list == Rendered([], now)
                && updated == (if hasLabel then LastUpdated(RelativeTime.Unavailable, false) else old(updated))
                && store == old(store)
      ensures outcome.Failed? && Timestamped(cached) ==>
                list == old(list) && updated == old(updated) && store == old(store)
      ensures cached == old(cached) && !pending
    {
      pending := false;
      match outcome
      case Fetched(feed) =>
        var safeEvents := SafeEvents(feed);
        RenderActivity(safeEvents, now);
        store := Some(Entry(now, Some(safeEvents)));
        SetActivityUpdated(RelativeTime.Number(now), now, false);
      case Failed =>
        if !Timestamped(cached) {
          RenderActivity([], now);
          SetActivityUpdated(RelativeTime.Absent, now, false);
        }
    }
  }
}
