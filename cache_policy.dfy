/**
 * The cache-or-fetch decision shared by the repository-stats and activity
 * widgets. Both keep a stored entry `{timestamp, data}` and a time-to-live;
 * reading the store (and any parse failure, mapped to "no entry") is not
 * modelled, so a read is given as an `Option<Entry<D>>`.
 */
module CachePolicy {
  import opened Wrappers
  import RelativeTime

  /** Time-to-live of the repository statistics: seven days, in milliseconds. */
  const RepoStatsTtlMs: int := 7 * 24 * 60 * 60 * 1000
  /** Time-to-live of the activity feed: one hour, in milliseconds. */
  const ActivityTtlMs: int := 60 * 60 * 1000

  /** A stored entry as read back. `timestamp == 0` stands for a falsy or missing
      timestamp; `data == None` for a falsy or missing data field. */
  datatype Entry<D> = Entry(timestamp: int, data: Option<D>)

  /** The text of a "Last updated" label: as the page was served, or
      "Last updated: <time>" followed by " (refreshing)" when `refreshing`. */
  datatype UpdatedLabel = Untouched | LastUpdated(time: RelativeTime.RelTime, refreshing: bool)

  /** A cache of this age is still fresh. */
  predicate IsFresh(ageMs: int, ttlMs: int)
  {
    ageMs < ttlMs
  }

  /** `cached && cached.timestamp`. */
  predicate Timestamped<D>(cached: Option<Entry<D>>)
  {
    cached.Some? && cached.value.timestamp != 0
  }

  /** `cached && cached.timestamp && cached.data`: the entry is shown on load. */
  predicate Usable<D>(cached: Option<Entry<D>>)
  {
    Timestamped(cached) && cached.value.data.Some?
  }

  /** `!cached || !cached.timestamp || now - cached.timestamp >= ttl`. */
  predicate ShouldFetch<D>(cached: Option<Entry<D>>, now: int, ttlMs: int)
    ensures !Timestamped(cached) ==> ShouldFetch(cached, now, ttlMs)
    ensures cached.Some? && now - cached.value.timestamp < ttlMs && cached.value.timestamp != 0 ==> !ShouldFetch(cached, now, ttlMs)
  {
    cached.None? || cached.value.timestamp == 0 || now - cached.value.timestamp >= ttlMs
  }

  /** Cached repository statistics are put on the cards only while fresh. */
  predicate ApplyCached<D>(cached: Option<Entry<D>>, now: int, ttlMs: int)
    ensures ApplyCached(cached, now, ttlMs) ==> Usable(cached) && !ShouldFetch(cached, now, ttlMs)
    ensures Usable(cached) && !ShouldFetch(cached, now, ttlMs) ==> ApplyCached(cached, now, ttlMs)
  {
    Usable(cached) && IsFresh(now - cached.value.timestamp, ttlMs)
  }

  /** A refetch happens exactly when there is no timestamped entry or it is no longer fresh. */
  lemma ShouldFetchIffNotFresh<D>(cached: Option<Entry<D>>, now: int, ttlMs: int)
    ensures ShouldFetch(cached, now, ttlMs) <==>
            !(Timestamped(cached) && IsFresh(now - cached.value.timestamp, ttlMs))
  {
  }

  /** For an entry that is shown on load, exactly one of "apply the cached data"
      and "fetch" happens. */
  lemma ApplyOrFetch<D>(cached: Option<Entry<D>>, now: int, ttlMs: int)
    requires Usable(cached)
    ensures ApplyCached(cached, now, ttlMs) != ShouldFetch(cached, now, ttlMs)
  {
  }

  /** The label on load says " (refreshing)" exactly when a refetch follows. */
  lemma RefreshingIffFetch<D>(cached: Option<Entry<D>>, now: int, ttlMs: int)
    requires Usable(cached)
    ensures (now - cached.value.timestamp >= ttlMs) <==> ShouldFetch(cached, now, ttlMs)
  {
  }
}
