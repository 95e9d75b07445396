/**
 * The repository-statistics widget: project cards tagged with a repository,
 * filled with star and fork counts from a stored cache or from one request per
 * distinct repository, and a "Last updated" label.
 *
 * The requests themselves are not modelled: their settled outcomes arrive as
 * one `Option<Stats>` per distinct repository, in `uniqueRepos` order.
 */
module RepoStats {
  import opened Wrappers
  import opened Text
  import opened CachePolicy
  import RelativeTime

  /** The two fields read from a repository record; `None` for a missing field. */
  datatype Stats = Stats(stars: Option<nat>, forks: Option<nat>)

  /** What is shown for a missing count or a failed repository. */
  const Placeholder: string := "--"

  /** `String(value ?? '--')`: a count in decimal, or the placeholder. */
  function StatText(v: Option<nat>): (s: string)
    ensures v.None? ==> s == Placeholder
    ensures v.Some? ==> (forall i :: 0 <= i < |s| ==> '0' <= s[i] <= '9') && DigitsValue(s) == v.value
    ensures v.Some? ==> (|s| > 1 ==> s[0] != '0')
  {
    match v
    case None => Placeholder
    case Some(n) => NatToStringRoundTrip(n); NatToString(n)
  }

  /** A card's stat values after `updateCard(card, data)`: the "stars" and
      "forks" values, where the card has them, show the record's counts;
      every other value is left as it was. */
  function Shown(slots: map<string, string>, data: Stats): (r: map<string, string>)
    ensures r.Keys == slots.Keys
    ensures "stars" in slots ==> r["stars"] == StatText(data.stars)
    ensures "forks" in slots ==> r["forks"] == StatText(data.forks)
    ensures forall k :: k in slots && k != "stars" && k != "forks" ==> r[k] == slots[k]
  {
    var withStars := if "stars" in slots then slots["stars" := StatText(data.stars)] else slots;
    if "forks" in withStars then withStars["forks" := StatText(data.forks)] else withStars
  }

  /** A card's stat values after `updateCardError(card)`: every one is the placeholder. */
  function Errored(slots: map<string, string>): (r: map<string, string>)
    ensures r.Keys == slots.Keys
    ensures forall k :: k in r ==> r[k] == Placeholder
  {
    map k | k in slots :: Placeholder
  }

  /** A project card. `repo` is its `data-repo` attribute ("" when empty);
      `slots` maps each stat name (`data-stat`) to the text of its value. */
  class Card {
    const repo: string
    var slots: map<string, string>

    constructor (repo: string, slots: map<string, string>)
      ensures this.repo == repo && this.slots == slots
    {
      this.repo := repo;
      this.slots := slots;
    }

    /** `updateCard(card, data)`. */
    method Update(data: Stats)
      modifies this
      ensures slots == Shown(old(slots), data)
    {
      slots := Shown(slots, data);
    }

    /** `updateCardError(card)`. */
    method ShowError()
      modifies this
      ensures slots == Errored(old(slots))
    {
      slots := Errored(slots);
    }
  }

  /** The `data-repo` attributes of the cards, in document order. */
  function RepoNames(cards: seq<Card>): (names: seq<string>)
    ensures |names| == |cards|
    ensures forall i :: 0 <= i < |cards| ==> names[i] == cards[i].repo
  {
    seq(|cards|, i requires 0 <= i < |cards| => cards[i].repo)
  }

  /** `.filter(Boolean)` on the attributes: the non-empty ones, in order. */
  function NonEmptyNames(names: seq<string>): (r: seq<string>)
    ensures forall x :: x in r <==> x in names && x != ""
    ensures |r| <= |names|
    decreases |names|
  {
    if names == [] then []
    else
      var rest := NonEmptyNames(names[..|names| - 1]);
      var last := names[|names| - 1];
      assert names == names[..|names| - 1] + [last];
      if last != "" then rest + [last] else rest
  }

  predicate Distinct<T(==)>(xs: seq<T>)
  {
    forall i, j :: 0 <= i < j < |xs| ==> xs[i] != xs[j]
  }

  /** `Array.from(new Set(xs))`: each element once. */
  function Dedup(xs: seq<string>): (r: seq<string>)
    ensures Distinct(r)
    ensures forall x :: x in r <==> x in xs
    ensures |r| <= |xs|
    decreases |xs|
  {
    if xs == [] then []
    else
      var d := Dedup(xs[..|xs| - 1]);
      var x := xs[|xs| - 1];
      assert xs == xs[..|xs| - 1] + [x];
      if x in d then d else d + [x]
  }

  /** The repositories requested: each non-empty `data-repo` value once. */
  function UniqueRepos(cards: seq<Card>): (r: seq<string>)
    ensures Distinct(r)
    ensures forall x :: x in r <==> x != "" && exists i :: 0 <= i < |cards| && cards[i].repo == x
  {
    var names := RepoNames(cards);
    var r := Dedup(NonEmptyNames(names));
    assert forall x :: x in names <==> exists i :: 0 <= i < |cards| && cards[i].repo == x by {
      forall x ensures x in names <==> exists i :: 0 <= i < |cards| && cards[i].repo == x {
        if x in names {
          var i :| 0 <= i < |names| && names[i] == x;
          assert cards[i].repo == x;
        }
      }
    }
    r
  }

  /** The `results.forEach` fold: the map from each repository whose request
      succeeded to its record (a later result for the same key wins, as with
      assignment to an object key). */
  function Fold(repos: seq<string>, outcomes: seq<Option<Stats>>): (m: map<string, Stats>)
    requires |repos| == |outcomes|
    ensures |m| <= |repos|
    decreases |repos|
  {
    if repos == [] then map[]
    else
      var n := |repos| - 1;
      var m := Fold(repos[..n], outcomes[..n]);
      if outcomes[n].Some? then m[repos[n] := outcomes[n].value] else m
  }

  /** The fresh map holds exactly the repositories whose request succeeded. */
  lemma {:induction false} FoldKeys(repos: seq<string>, outcomes: seq<Option<Stats>>)
    requires |repos| == |outcomes|
    ensures forall r :: r in Fold(repos, outcomes) <==>
              exists i :: 0 <= i < |repos| && repos[i] == r && outcomes[i].Some?
    decreases |repos|
  {
    if repos != [] {
      var n := |repos| - 1;
      FoldKeys(repos[..n], outcomes[..n]);
      forall r ensures r in Fold(repos, outcomes) <==>
                       exists i :: 0 <= i < |repos| && repos[i] == r && outcomes[i].Some? {
        if r in Fold(repos[..n], outcomes[..n]) {
          var i :| 0 <= i < n && repos[..n][i] == r && outcomes[..n][i].Some?;
          assert repos[i] == r && outcomes[i].Some?;
        }
        if exists i :: 0 <= i < |repos| && repos[i] == r && outcomes[i].Some? {
          var i :| 0 <= i < |repos| && repos[i] == r && outcomes[i].Some?;
          if i < n {
            assert repos[..n][i] == r && outcomes[..n][i].Some?;
          }
        }
      }
    }
  }

  /** With each repository requested once, the fresh map holds each successful
      repository's own record. */
  lemma {:induction false} FoldValues(repos: seq<string>, outcomes: seq<Option<Stats>>, i: nat)
    requires |repos| == |outcomes| && Distinct(repos)
    requires i < |repos| && outcomes[i].Some?
    ensures repos[i] in Fold(repos, outcomes) && Fold(repos, outcomes)[repos[i]] == outcomes[i].value
    decreases |repos|
  {
    var n := |repos| - 1;
    if i < n {
      FoldValues(repos[..n], outcomes[..n], i);
    }
  }

  /** Some request succeeded (`hasData`). */
  predicate AnySucceeded(outcomes: seq<Option<Stats>>)
  {
    exists i :: 0 <= i < |outcomes| && outcomes[i].Some?
  }

  /** A card's values after the cached map is applied: a card without a
      repository, or whose repository is not in the map, shows placeholders. */
  function CachedView(slots: map<string, string>, repo: string, data: map<string, Stats>): (r: map<string, string>)
    ensures r.Keys == slots.Keys
    ensures repo == "" || repo !in data ==> forall k :: k in r ==> r[k] == Placeholder
    ensures repo != "" && repo in data && "stars" in slots ==> r["stars"] == StatText(data[repo].stars)
    ensures repo != "" && repo in data && "forks" in slots ==> r["forks"] == StatText(data[repo].forks)
    ensures repo != "" && repo in data ==> forall k :: k in slots && k != "stars" && k != "forks" ==> r[k] == slots[k]
  {
    if repo == "" || repo !in data then Errored(slots) else Shown(slots, data[repo])
  }

  /** A card's values after one result: the record or placeholders for a card
      of that repository, unchanged for any other card. */
  function ResultView(slots: map<string, string>, cardRepo: string, repo: string, outcome: Option<Stats>): (r: map<string, string>)
    ensures r.Keys == slots.Keys
    ensures cardRepo != repo ==> r == slots
    ensures cardRepo == repo && outcome.None? ==> forall k :: k in r ==> r[k] == Placeholder
    ensures cardRepo == repo && outcome.Some? ==> r == Shown(slots, outcome.value)
  {
    if cardRepo != repo then slots
    else if outcome.Some? then Shown(slots, outcome.value)
    else Errored(slots)
  }

  /** The outcome of the last request for `repo`, if it was requested. */
  function OutcomeOf(repo: string, repos: seq<string>, outcomes: seq<Option<Stats>>): (o: Option<Option<Stats>>)
    requires |repos| == |outcomes|
    ensures o.None? <==> repo !in repos
    decreases |repos|
  {
    if repos == [] then None
    else
      var n := |repos| - 1;
      assert repos == repos[..n] + [repos[n]];
      if repos[n] == repo then Some(outcomes[n]) else OutcomeOf(repo, repos[..n], outcomes[..n])
  }

  /** With each repository requested once, a requested repository's outcome is its own. */
  lemma {:induction false} OutcomeOfDistinct(repos: seq<string>, outcomes: seq<Option<Stats>>, i: nat)
    requires |repos| == |outcomes| && Distinct(repos) && i < |repos|
    ensures OutcomeOf(repos[i], repos, outcomes) == Some(outcomes[i])
    decreases |repos|
  {
    var n := |repos| - 1;
    if i < n {
      OutcomeOfDistinct(repos[..n], outcomes[..n], i);
    }
  }

  /** A card's values once every request has settled: untouched when its
      repository was not requested, the record when the request succeeded,
      placeholders when it failed. */
  function SettledView(slots: map<string, string>, repo: string,
                       repos: seq<string>, outcomes: seq<Option<Stats>>): (r: map<string, string>)
    requires |repos| == |outcomes|
    ensures r.Keys == slots.Keys
    ensures repo !in repos ==> r == slots
  {
    match OutcomeOf(repo, repos, outcomes)
    case None => slots
    case Some(None) => Errored(slots)
    case Some(Some(d)) => Shown(slots, d)
  }

  /** One more settled result changes only the cards of its own repository,
      which until then were untouched (each repository is requested once). */
  lemma SettledViewStep(slots: map<string, string>, repo: string,
                        repos: seq<string>, outcomes: seq<Option<Stats>>, i: nat)
    requires |repos| == |outcomes| && Distinct(repos) && i < |repos|
    ensures SettledView(slots, repo, repos[..i + 1], outcomes[..i + 1]) ==
            ResultView(SettledView(slots, repo, repos[..i], outcomes[..i]), repo, repos[i], outcomes[i])
  {
    assert repos[..i + 1][..i] == repos[..i];
    assert outcomes[..i + 1][..i] == outcomes[..i];
    if repo == repos[i] {
      assert repo !in repos[..i];
    }
  }

  /** The fold and `hasData` after one more result. */
  lemma FoldStep(repos: seq<string>, outcomes: seq<Option<Stats>>, i: nat)
    requires |repos| == |outcomes| && i < |repos|
    ensures Fold(repos[..i + 1], outcomes[..i + 1]) ==
            (if outcomes[i].Some? then Fold(repos[..i], outcomes[..i])[repos[i] := outcomes[i].value]
             else Fold(repos[..i], outcomes[..i]))
    ensures AnySucceeded(outcomes[..i + 1]) == (AnySucceeded(outcomes[..i]) || outcomes[i].Some?)
  {
    assert repos[..i + 1][..i] == repos[..i];
    assert outcomes[..i + 1][..i] == outcomes[..i];
    assert outcomes[..i + 1][i] == outcomes[i];
    if AnySucceeded(outcomes[..i]) {
      var j :| 0 <= j < i && outcomes[..i][j].Some?;
      assert outcomes[..i + 1][j].Some?;
    }
  }

  /** The label once every request has settled: the current time when some
      request succeeded (`hasData`), "Unavailable" when none did and there was
      no timestamped cache, and otherwise as before. */
  function SettledLabel(before: UpdatedLabel, outcomes: seq<Option<Stats>>,
                        cached: Option<Entry<map<string, Stats>>>, now: int): (r: UpdatedLabel)
    ensures r == before || (r.LastUpdated? && !r.refreshing)
    ensures r != before ==> AnySucceeded(outcomes) || !Timestamped(cached)
    ensures !AnySucceeded(outcomes) && !Timestamped(cached) ==> r == LastUpdated(RelativeTime.Unavailable, false)
  {
    if AnySucceeded(outcomes) then LastUpdated(RelativeTime.RelativeSpec(RelativeTime.Number(now), now), false)
    else if !Timestamped(cached) then LastUpdated(RelativeTime.Unavailable, false)
    else before
  }

  /** Once every request has settled, a card whose repository was requested
      shows that repository's record, or placeholders everywhere if its request
      failed; a card whose repository was not requested (one with an empty
      `data-repo`) is left as it was. */
  lemma SettledCard(slots: map<string, string>, cardRepo: string,
                    repos: seq<string>, outcomes: seq<Option<Stats>>, i: nat)
    requires |repos| == |outcomes| && Distinct(repos) && i < |repos|
    ensures cardRepo !in repos ==> SettledView(slots, cardRepo, repos, outcomes) == slots
    ensures repos[i] == cardRepo && outcomes[i].Some? ==>
              SettledView(slots, cardRepo, repos, outcomes) == Shown(slots, outcomes[i].value)
    ensures repos[i] == cardRepo && outcomes[i].None? ==>
              SettledView(slots, cardRepo, repos, outcomes) == Errored(slots)
  {
    OutcomeOfDistinct(repos, outcomes, i);
  }

  /** The label rules after settling (for a clock reading that is a valid date):
      it shows the current time, "now" in seconds, exactly when some request
      succeeded, and it shows "Unavailable" only when none did and there was no
      timestamped cache. */
  lemma SettledLabelRules(before: UpdatedLabel, outcomes: seq<Option<Stats>>,
                          cached: Option<Entry<map<string, Stats>>>, now: int)
    requires RelativeTime.TimeValue(RelativeTime.Number(now)).Some?
    ensures SettledLabel(before, outcomes, cached, now) == LastUpdated(RelativeTime.Relative(0, RelativeTime.Second), false)
            <==> AnySucceeded(outcomes) || (before == LastUpdated(RelativeTime.Relative(0, RelativeTime.Second), false) && Timestamped(cached))
    ensures SettledLabel(before, outcomes, cached, now) == LastUpdated(RelativeTime.Unavailable, false) ==>
              !AnySucceeded(outcomes) && (!Timestamped(cached) || before == LastUpdated(RelativeTime.Unavailable, false))
  {
    assert RelativeTime.DiffSeconds(now, now) == 0;
    assert RelativeTime.FirstFrom(0, 0) == |RelativeTime.Ranges|;
  }

  /** When every request fails, every requested card shows placeholders only,
      the fresh map is empty, and without a prior timestamped cache the label
      reads "Unavailable". */
  lemma AllFailed(slots: map<string, string>, repos: seq<string>, outcomes: seq<Option<Stats>>,
                  i: nat, before: UpdatedLabel, cached: Option<Entry<map<string, Stats>>>, now: int)
    requires |repos| == |outcomes| && Distinct(repos) && i < |repos|
    requires forall j :: 0 <= j < |outcomes| ==> outcomes[j].None?
    requires !Timestamped(cached)
    ensures forall k :: k in SettledView(slots, repos[i], repos, outcomes) ==>
              SettledView(slots, repos[i], repos, outcomes)[k] == Placeholder
    ensures Fold(repos, outcomes) == map[]
    ensures SettledLabel(before, outcomes, cached, now) == LastUpdated(RelativeTime.Unavailable, false)
  {
    OutcomeOfDistinct(repos, outcomes, i);
    FoldKeys(repos, outcomes);
  }

  type Store = Option<Entry<map<string, Stats>>>

  /** The widget: the cards (each a distinct element), the label, and the stored
      cache entry. `cached` is what the load read; `pending` says whether the
      requests are in flight. */
  class StatsWidget {
    const cards: seq<Card>
    const uniqueRepos: seq<string>
    const hasLabel: bool
    var updated: UpdatedLabel
    var store: Store
    var cached: Store
    var pending: bool

    ghost predicate Valid()
    {
      Distinct(cards) && uniqueRepos == UniqueRepos(cards)
    }

    constructor (cards: seq<Card>, hasLabel: bool, store: Store)
      requires Distinct(cards)
      ensures Valid()
      ensures this.cards == cards && this.hasLabel == hasLabel && this.store == store
      ensures updated == Untouched && cached == None && !pending
    {
      this.cards := cards;
      this.uniqueRepos := UniqueRepos(cards);
      this.hasLabel := hasLabel;
      this.store := store;
      this.updated := Untouched;
      this.cached := None;
      this.pending := false;
    }

    /** `setLastUpdated(timestamp, isStale)`. */
    method SetLastUpdated(t: RelativeTime.Stamp, now: int, isStale: bool)
      modifies this`updated
      ensures updated == if hasLabel then LastUpdated(RelativeTime.RelativeSpec(t, now), isStale) else old(updated)
    {
      if !hasLabel {
        return;
      }
      var time := RelativeTime.FormatRelativeTime(t, now);
      updated := LastUpdated(time, isStale);
    }

    /** `applyCachedData(data)`. */
    method ApplyCachedData(data: map<string, Stats>)
      requires Valid()
      modifies set c | c in cards
      ensures forall k :: 0 <= k < |cards| ==> cards[k].slots == CachedView(old(cards[k].slots), cards[k].repo, data)
    {
      var i := 0;
      while i < |cards|
        invariant 0 <= i <= |cards|
        invariant forall k :: 0 <= k < i ==> cards[k].slots == CachedView(old(cards[k].slots), cards[k].repo, data)
        invariant forall k :: i <= k < |cards| ==> cards[k].slots == old(cards[k].slots)
      {
        var card := cards[i];
        if card.repo == "" || card.repo !in data {
          card.ShowError();
        } else {
          card.Update(data[card.repo]);
        }
        i := i + 1;
      }
    }

    /** The load step: read the cache, show it (stale entries only in the
      label), and decide whether to request every distinct repository. */
    method Load(now: int)
      requires Valid()
      modifies this, set c | c in cards
      ensures cards == [] ==> updated == old(updated) && cached == old(cached) && pending == old(pending)
      ensures cards != [] ==> cached == old(store)
      ensures cards != [] ==>
                updated == (if hasLabel && Usable(old(store))
                            then LastUpdated(RelativeTime.RelativeSpec(RelativeTime.Number(old(store).value.timestamp), now),
                                             now - old(store).value.timestamp >= RepoStatsTtlMs)
                            else old(updated))
      ensures forall k :: 0 <= k < |cards| ==>
                cards[k].slots == (if ApplyCached(old(store), now, RepoStatsTtlMs)
                                   then CachedView(old(cards[k].slots), cards[k].repo, old(store).value.data.value)
                                   else old(cards[k].slots))
      ensures cards != [] ==> pending == (ShouldFetch(old(store), now, RepoStatsTtlMs) && uniqueRepos != [])
      ensures store == old(store)
    {
      if |cards| == 0 {
        return;
      }
      cached := store;
      if Usable(cached) {
        var ts := cached.value.timestamp;
        SetLastUpdated(RelativeTime.Number(ts), now, now - ts >= RepoStatsTtlMs);
        if now - ts < RepoStatsTtlMs {
          ApplyCachedData(cached.value.data.value);
        }
      }
      var shouldFetch := ShouldFetch(cached, now, RepoStatsTtlMs);
      pending := shouldFetch && |uniqueRepos| > 0;
    }

    /** The inner `projectCards.forEach` for one result: every card of that
      repository shows the record, or placeholders when the request failed. */
    method ApplyResult(repo: string, outcome: Option<Stats>)
      requires Valid()
      modifies set c | c in cards
      ensures forall k :: 0 <= k < |cards| ==>
                cards[k].slots == ResultView(old(cards[k].slots), cards[k].repo, repo, outcome)
    {
      var i := 0;
      while i < |cards|
        invariant 0 <= i <= |cards|
        invariant forall k :: 0 <= k < i ==>
                    cards[k].slots == ResultView(old(cards[k].slots), cards[k].repo, repo, outcome)
        invariant forall k :: i <= k < |cards| ==> cards[k].slots == old(cards[k].slots)
      {
        var card := cards[i];
        if card.repo == repo {
          if outcome.Some? {
            card.Update(outcome.value);
          } else {
            card.ShowError();
          }
        }
        i := i + 1;
      }
    }

    /** The step after all requests settle: fold the results into a fresh map,
      update the cards, replace the stored entry by `{now, dataMap}`, and set the label. */
    method Settle(outcomes: seq<Option<Stats>>, now: int)
      requires Valid() && pending && |outcomes| == |uniqueRepos|
      modifies this, set c | c in cards
      ensures forall k :: 0 <= k < |cards| ==>
                cards[k].slots == SettledView(old(cards[k].slots), cards[k].repo, uniqueRepos, outcomes)
      ensures store == Some(Entry(now, Some(Fold(uniqueRepos, outcomes))))
      ensures updated == if hasLabel then SettledLabel(old(updated), outcomes, cached, now) else old(updated)
      ensures cached == old(cached) && !pending
    {
      var dataMap: map<string, Stats> := map[];
      var hasData := false;
      var i := 0;
      while i < |outcomes|
        invariant 0 <= i <= |outcomes|
        invariant dataMap == Fold(uniqueRepos[..i], outcomes[..i])
        invariant hasData == AnySucceeded(outcomes[..i])
        invariant forall k :: 0 <= k < |cards| ==>
                    cards[k].slots == SettledView(old(cards[k].slots), cards[k].repo, uniqueRepos[..i], outcomes[..i])
        invariant updated == old(updated) && cached == old(cached)
      {
        var repo, data := uniqueRepos[i], outcomes[i];
        if data.Some? {
          hasData := true;
          dataMap := dataMap[repo := data.value];
        }
        FoldStep(uniqueRepos, outcomes, i);
        label BeforeResult:
        ApplyResult(repo, data);
        forall k | 0 <= k < |cards|
          ensures cards[k].slots == SettledView(old(cards[k].slots), cards[k].repo, uniqueRepos[..i + 1], outcomes[..i + 1])
        {
          SettledViewStep(old(cards[k].slots), cards[k].repo, uniqueRepos, outcomes, i);
          assert cards[k].slots == ResultView(old@BeforeResult(cards[k].slots), cards[k].repo, repo, data);
        }
        i := i + 1;
      }
      assert uniqueRepos[..i] == uniqueRepos && outcomes[..i] == outcomes;
      store := Some(Entry(now, Some(dataMap)));
      pending := false;
      if hasData {
        SetLastUpdated(RelativeTime.Number(now), now, false);
      } else if !Timestamped(cached) {
        SetLastUpdated(RelativeTime.Absent, now, false);
      }
    }
  }
}
