# Personal-site scripts: a Dafny model

The site's scripts are DOM and fetch glue. Under that glue sit small decision
rules, and this project models those rules over plain values, with the clock
passed in as an integer:

- **Activity classifier** (`Activity`): an event's type tag and payload map to
  an item descriptor with icon, leading text, repository name and URL,
  trailing text and meta line. A push shows a commit count and the branch;
  issue and pull-request events show a capitalised action; unknown tags get
  a generic row.
- **Relative time** (`RelativeTime`): `formatRelativeTime` picks the first
  unit of the year/month/week/day/hour/minute table that the difference
  reaches, falls back to seconds, and rounds as `Math.round` does.
  A missing or invalid stamp gives "Unavailable".
- **Cache policy** (`CachePolicy`): the freshness test, the refetch decision
  and the "(refreshing)" label. The two caches have time-to-live values of
  seven days (repository stats) and one hour (activity feed).
- **Repository stats widget** (`RepoStats`): project cards are elements whose
  stat values the methods rewrite. The requested repositories are each card's
  non-empty `data-repo`, deduplicated. The settled results fold into a fresh
  map that replaces the stored cache, and the label follows the source's rules.
- **Activity feed widget** (`ActivityFeed`): a feed is cut to eight events.
  No events renders one empty-state message; otherwise there is one item per
  event, in order. A fetch failure without a timestamped cache shows the
  empty state and "Unavailable".
- **Publication filter** (`Research`): items and section headings are shown
  or hidden by forcing the `is-hidden` class. After a click, only the clicked
  button is `active`.
- **Sidebar loader** (`Sidebar`): the current page is the last `/`-segment of
  the path, or `index.html`; matching local links gain `active`.
- **Resume toggler** (`Resume`): `collapsed` flips on the content element and
  the two caret classes flip on the icon. Doing it twice restores the page.

Modelling choices:

- A payload field that the code tests for truthiness is a `string`, with ""
  for missing. A stored timestamp of `0` stands for a missing or falsy one.
- A read from local storage is an `Option<Entry<D>>`. A write replaces the
  stored value.
- Network requests become their settled outcomes, handed to `Settle` and
  `OnFetched`. The repository outcomes come in `uniqueRepos` order, as
  `Promise.all` delivers them.
- Four behaviours of the code that a reader might not expect, all modelled
  as written:
  - Cached repository stats are put on the cards only while fresh
    (js/projects.js:373-375). A stale entry changes only the label.
  - A card with an empty `data-repo` shows placeholders only when cached data
    is applied (js/projects.js:109-111). It is not marked on load otherwise.
  - A repository whose request fails drops out of the stored map, because the
    fresh map replaces the old one (js/projects.js:416-419).
  - Loading the publication filter applies 'all' but leaves the buttons'
    classes as the page served them (js/research.js:51). Only a click moves
    `active` (js/research.js:44-47).
- The filter's elements and the sidebar's links are values in sequence
  fields. The project cards are objects (`RepoStats.Card`) whose `slots` map
  (stat name to text) the widget's methods update in place.
- `RepoStats.StatsWidget.Valid` requires the cards to be distinct objects.
  `querySelectorAll` always returns distinct elements, so this holds.

## Model

| member | source | states |
|---|---|---|
| `Text.Split` | js/projects.js:167 | `split('/')` yields at least one part, and no part contains the separator |
| `Text.JoinSplit` | js/projects.js:167 | joining the parts with the separator gives back the original string |
| `Text.LastPartIsLongestSuffix` | js/projects.js:167-168 | the last part of a split has no separator, is a suffix of the string, and is either the whole string or preceded by a separator |
| `Text.NatToString` | js/projects.js:184 | `String(n)` is a non-empty run of decimal digits, with no leading zero unless it is the single digit "0" |
| `Text.NatToStringRoundTrip` | js/projects.js:184 | reading the digits back gives the number |
| `Text.NatToStringInjective` | js/projects.js:25-29 | distinct counts are displayed differently |
| `Text.Capitalize` | js/projects.js:176 | the action label has the same length as the action, its first character upper-cased and the rest unchanged |
| `ClassList.Force` | js/research.js:37 | `classList.toggle(c, force)` leaves `c` present exactly when `force` is true and changes no other class |
| `ClassList.Toggle` | js/resume.js:9-11 | `classList.toggle(c)` flips the membership of `c` and changes no other class |
| `ClassList.ToggleInvolution` | js/resume.js:9 | toggling a class twice restores the class list |
| `ClassList.ForceForgetsHistory` | js/research.js:37 | a forced class depends only on the last force flag |
| `RelativeTime.TimeValue` | js/projects.js:41-48 | a falsy stamp (absent, `0`), an unparseable date string or an out-of-range instant is refused; a non-zero in-range number, or a date string parsing to an in-range instant, is accepted as that instant |
| `RelativeTime.RoundDiv` | js/projects.js:51 | `Math.round(n / d)` is the integer nearest to n/d, with halves rounded up |
| `RelativeTime.FirstFrom` | js/projects.js:63-68 | the index found is the first table row from `i` whose threshold the difference reaches, or the end of the table |
| `RelativeTime.RelativeSpec` | js/projects.js:40-70 | "Unavailable" exactly when the stamp is refused, and the current instant reads as 0 seconds. The difference is `DiffSeconds`, `Math.round(diffMs / 1000)` at line 51 |
| `RelativeTime.FormatRelativeTime` | js/projects.js:40-71 | the table walk with early return gives exactly the specified unit and value |
| `RelativeTime.RangesDescending` | js/projects.js:53-60 | the thresholds fall strictly from year to minute |
| `RelativeTime.ChosenUnitIsLargest` | js/projects.js:53-70 | the chosen unit is the largest the difference reaches, and seconds are chosen exactly when the rounded difference is under 60 seconds |
| `RelativeTime.ValueIsRounded` | js/projects.js:50-65 | the value is the difference in the chosen unit, rounded to the nearest integer |
| `RelativeTime.UnavailableIffNoTime` | js/projects.js:41-48 | "Unavailable" is returned exactly for a missing or invalid stamp |
| `RelativeTime.TwentyFiveHoursAgo` | js/projects.js:50-67 | 90 000 000 ms in the past reads as -1 day |
| `RelativeTime.UnderAMinute` | js/projects.js:63-70 | a difference under 59 seconds is expressed in seconds |
| `CachePolicy.ShouldFetch` | js/projects.js:378 | a missing or untimestamped entry is always refetched, and a timestamped entry younger than the TTL never is (the same test appears at js/projects.js:438-441). It is built from `Timestamped` (`cached && cached.timestamp`) and `IsFresh` (age below the TTL); `Usable` adds `cached.data`, line 370 |
| `CachePolicy.ApplyCached` | js/projects.js:370-375 | cached stats are applied exactly when the entry is shown on load and no refetch follows |
| `CachePolicy.ShouldFetchIffNotFresh` | js/projects.js:378 | a refetch happens exactly when there is no timestamped entry or its age reaches the TTL |
| `CachePolicy.ApplyOrFetch` | js/projects.js:370-378 | for an entry shown on load, exactly one of "apply cached data" and "fetch" happens |
| `CachePolicy.RefreshingIffFetch` | js/projects.js:372-378 | the load label says "(refreshing)" exactly when a refetch follows |
| `Activity.Classify` | js/projects.js:178 | classifying a tag keeps the tag, and it falls to the default row exactly when the tag is not in the table |
| `Activity.ClassifyTagName` | js/projects.js:178-290 | classifying a type's own tag gives that type back |
| `Activity.GetBranchName` | js/projects.js:163-169 | the branch is the longest '/'-free suffix of the ref, and "" for no ref or a ref ending in '/' |
| `Activity.ActionLabel` | js/projects.js:176 | no action gives the fallback; otherwise the action with its first character upper-cased and the rest unchanged |
| `Activity.PushLeading` | js/projects.js:184 | the phrase starts with "Pushed " and ends with " to "; one commit reads "Pushed 1 commit to ", and every other count has the plural ending |
| `Activity.DescribeActivity` | js/projects.js:171-291 | every descriptor carries the event's repository name, links it as `https://github.com/<name>` when non-empty (else ""), and has an empty trailing text |
| `Activity.PushPhrase` | js/projects.js:184 | the commit phrase is singular only for one commit, and zero commits read "Pushed 1 commits to " |
| `Activity.PushDescriptor` | js/projects.js:179-189 | a push shows the commit phrase and "branch <name>", and its meta is empty exactly when the ref is absent or ends in '/' |
| `Activity.ActionRows` | js/projects.js:175-212 | issue, comment and pull-request rows lead with the capitalised action, defaulting to "Updated", "Commented on" and "Updated" |
| `Activity.DefaultRow` | js/projects.js:281-289 | an unrecognised or missing tag gives icon "fa-regular fa-circle", leading "Updated " and no meta |
| `Activity.LeadingEndsInSpace` | js/projects.js:178-290 | every leading text ends in a space before the repository name |
| `Activity.MetaPresence` | js/projects.js:178-290 | each row has a meta line exactly when its payload field is present; star, made-public and default rows never have one |
| `Activity.PushExample` | js/projects.js:179-189 | three commits on "refs/heads/main" give "Pushed 3 commits to " and "branch main" |
| `ActivityFeed.Summary` | js/projects.js:293-311 | the summary starts with the leading text and links the repository exactly when both URL and name are non-empty |
| `ActivityFeed.Rendered` | js/projects.js:313-366 | no events gives the single empty-state message; otherwise there is one item per event, in order |
| `ActivityFeed.RenderedShape` | js/projects.js:328-365 | each item links its repository exactly when the event has a name, has a meta line exactly when the meta is non-empty, and carries the event's relative time |
| `ActivityFeed.BuildItem` | js/projects.js:328-365 | the loop body builds the item of the event |
| `ActivityFeed.SafeEvents` | js/projects.js:452 | a response is cut to its first eight events, and a non-array becomes [] |
| `ActivityFeed.ActivityWidget.constructor` | js/projects.js:4-7 | the widget starts with the page's list, label and stored entry, and no request pending |
| `ActivityFeed.ActivityWidget.SetActivityUpdated` | js/projects.js:123-130 | the label shows the formatted time and the stale flag, and nothing changes without a label |
| `ActivityFeed.ActivityWidget.RenderActivity` | js/projects.js:313-366 | the list is replaced by the rendering of the events, and nothing changes without a list |
| `ActivityFeed.ActivityWidget.Load` | js/projects.js:430-442 | with a user and a list: a usable cache is rendered even when stale and labelled with "(refreshing)" when stale; the request is issued exactly when `ShouldFetch` holds |
| `ActivityFeed.ActivityWidget.OnFetched` | js/projects.js:443-466 | a delivered body is cut to eight, rendered, stored with `now` and labelled now; a failure without a timestamped cache renders the empty state and "Unavailable"; a failure with one changes nothing |
| `RepoStats.StatText` | js/projects.js:25-29 | a missing count shows "--", and a present count shows decimal digits with no leading zero (except "0" itself) that read back as the count |
| `RepoStats.Shown` | js/projects.js:20-31 | `updateCard` sets the stars and forks values where the card has them and changes no other value |
| `RepoStats.Errored` | js/projects.js:33-38 | `updateCardError` sets every stat value of the card to "--" |
| `RepoStats.Card.constructor` | js/projects.js:2 | a card holds its `data-repo` and its stat values |
| `RepoStats.Card.Update` | js/projects.js:20-31 | the card's values become `Shown` of the old values |
| `RepoStats.Card.ShowError` | js/projects.js:33-38 | the card's values become placeholders |
| `RepoStats.RepoNames` | js/projects.js:14-15 | the attribute list has one entry per card, in order |
| `RepoStats.NonEmptyNames` | js/projects.js:16 | `filter(Boolean)` keeps exactly the non-empty names |
| `RepoStats.Dedup` | js/projects.js:18 | `Array.from(new Set(xs))` has no duplicates and the same elements as `xs` |
| `RepoStats.UniqueRepos` | js/projects.js:14-18 | `uniqueRepos` has no duplicates and holds exactly the non-empty `data-repo` values |
| `RepoStats.Fold` | js/projects.js:394-401 | the fresh map has at most one entry per request (its keys and values are given by `FoldKeys` and `FoldValues`) |
| `RepoStats.FoldKeys` | js/projects.js:394-401 | the fresh map's keys are exactly the repositories whose request succeeded |
| `RepoStats.FoldValues` | js/projects.js:397-401 | with each repository requested once, the fresh map holds each successful repository's own record |
| `RepoStats.OutcomeOf` | js/projects.js:403-406 | a card's repository has an outcome exactly when it was requested |
| `RepoStats.OutcomeOfDistinct` | js/projects.js:397-413 | with each repository requested once, the outcome found for a requested repository is its own request's outcome |
| `RepoStats.FoldStep` | js/projects.js:397-401 | one more result adds its record to the fresh map when it succeeded, and `hasData` becomes true exactly then or stays as it was |
| `RepoStats.SettledViewStep` | js/projects.js:397-414 | one more result changes only the cards of its repository, which were untouched until then |
| `RepoStats.SettledCard` | js/projects.js:403-413 | after settling, a requested card shows its record or "--" everywhere, and an unrequested card is unchanged |
| `RepoStats.SettledLabelRules` | js/projects.js:421-425 | the label shows the current time exactly when some repository succeeded, unless that was already the label and there was a timestamped cache; it shows "Unavailable" only when none succeeded and there was no timestamped cache, or it already did |
| `RepoStats.AllFailed` | js/projects.js:393-425 | when every request fails, every requested card shows only "--", the fresh map is empty, and without a prior timestamped cache the label is "Unavailable" |
| `RepoStats.CachedView` | js/projects.js:107-120 | a card keeps its stat names; one without a repository or without a cached record shows only "--", and one with a record shows its star and fork counts where it has those values and keeps every other value |
| `RepoStats.ResultView` | js/projects.js:403-413 | a result leaves cards of other repositories unchanged and keeps every card's stat names; a successful result shows its record as `updateCard` does (`Shown`), and a failed one shows only "--" |
| `RepoStats.SettledView` | js/projects.js:397-414 | settling keeps a card's stat names and leaves a card whose repository was not requested unchanged |
| `RepoStats.SettledLabel` | js/projects.js:421-425 | the label is either unchanged or a non-refreshing "Last updated"; it changes only when some request succeeded or there was no timestamped cache; with neither it reads "Unavailable" |
| `RepoStats.StatsWidget.constructor` | js/projects.js:1-18 | the widget holds the cards, `uniqueRepos` computed from them, and the stored entry |
| `RepoStats.StatsWidget.SetLastUpdated` | js/projects.js:73-80 | the label shows the formatted time and the stale flag, and nothing changes without a label |
| `RepoStats.StatsWidget.ApplyCachedData` | js/projects.js:106-121 | every card shows its cached record, or placeholders when it has no repository or no cached record |
| `RepoStats.StatsWidget.Load` | js/projects.js:368-380 | with cards: a usable cache sets the label with the stale flag, the cards get the cached data only while fresh, and requests are pending exactly when `ShouldFetch` holds and there is a repository |
| `RepoStats.StatsWidget.ApplyResult` | js/projects.js:403-413 | each card of the result's repository shows the record or placeholders, and other cards are unchanged |
| `RepoStats.StatsWidget.Settle` | js/projects.js:393-425 | the cards show the settled view, the store becomes `{now, Fold(...)}`, and the label follows `SettledLabel` |
| `Research.FilteredItem` | js/research.js:34-38 | after filtering, an item is hidden exactly when the filter is not 'all' and its category differs; other classes are unchanged |
| `Research.FilteredItems` | js/research.js:34-38 | each item is filtered in place, in order |
| `Research.Matches` | js/research.js:17-22 | an item matches only a heading of its own category, and under a filter other than 'all' nothing matches a heading of another category |
| `Research.MatchingItems` | js/research.js:17-22 | the matching list is no longer than the items |
| `Research.MatchingEmptyIff` | js/research.js:17-29 | no item matches exactly when the filtered list is empty |
| `Research.HeadingAfter` | js/research.js:15-30 | only the heading's `is-hidden` class may change |
| `Research.HeadingsAfter` | js/research.js:15-30 | each heading is updated in place, in order |
| `Research.HeadingVisibility` | js/research.js:15-30 | under 'all' every heading is visible; otherwise a heading is visible exactly when its category is the filter and some item has it |
| `Research.MatchingSameAttrs` | js/research.js:17-22 | the number of matches depends only on the items' categories |
| `Research.FilterKeepsCategories` | js/research.js:17-22 | headings computed from filtered items equal headings computed from the original items |
| `Research.FilterForgetsHistory` | js/research.js:25-37 | applying a filter after any other gives the same items and headings as applying it alone, so `applyFilter` is idempotent |
| `Research.Activated` | js/research.js:44-47 | after a click, only the clicked button carries 'active' and no other class changes |
| `Research.PublicationFilter.constructor` | js/research.js:2-4 | the filter holds the page's buttons, items and headings, with no handler installed |
| `Research.PublicationFilter.UpdateSectionVisibility` | js/research.js:10-31 | the headings become `HeadingsAfter` of the old headings |
| `Research.PublicationFilter.ApplyFilter` | js/research.js:33-41 | the items become `FilteredItems` of the old items, then the headings are updated |
| `Research.PublicationFilter.Click` | js/research.js:43-49 | the buttons become `Activated`, then the clicked button's filter is applied |
| `Research.PublicationFilter.Init` | js/research.js:6-8 | with no buttons or no items nothing changes and no handler is installed; otherwise the handlers are installed and 'all' is applied |
| `Research.InitShowsEverything` | js/research.js:51 | after applying 'all', no item or heading is hidden |
| `Research.ItemVisibility` | js/research.js:33-38 | an item is hidden exactly when the filter is not 'all' and its category differs |
| `Sidebar.CurrentPage` | js/sidebar-loader.js:12 | the current page is the longest '/'-free suffix of the path, or "index.html" when that is empty; it is never empty and has no '/' |
| `Sidebar.Excluded` | js/sidebar-loader.js:17 | every `https://` link is excluded, and a non-empty href starting with neither '#' nor 'h' never is |
| `Sidebar.Marked` | js/sidebar-loader.js:15-24 | a link gains 'active' exactly when its href is not excluded and equals the current page; no other class changes |
| `Sidebar.MarkedLinks` | js/sidebar-loader.js:15-24 | each link is marked in place, in order |
| `Sidebar.MarkingOnlyAdds` | js/sidebar-loader.js:15-24 | marking never removes a class, and excluded or non-matching links are unchanged |
| `Sidebar.ActiveRule` | js/sidebar-loader.js:16-23 | a link becomes active exactly when it is not excluded and equals the current page, and an excluded link never does |
| `Sidebar.HttpNamedPageNeverActive` | js/sidebar-loader.js:17 | a local page named "http-notes.html" is never marked, even on that page |
| `Sidebar.IndexScenario` | js/sidebar-loader.js:12-23 | on the start page an "index.html" link is marked and "https://external" is not |
| `Sidebar.SidebarLoader.constructor` | js/sidebar-loader.js:2 | the loader starts with empty content and no links |
| `Sidebar.SidebarLoader.Load` | js/sidebar-loader.js:1-29 | without a placeholder, or when the fetch fails, nothing changes; otherwise the fragment is injected and its links are marked |
| `Resume.IdsDiffer` | js/resume.js:2-3 | a section's content id and icon id differ |
| `Resume.Toggled` | js/resume.js:1-12 | if either element is missing the page is unchanged, and elements other than the two are always unchanged |
| `Resume.ToggleEffect` | js/resume.js:9-11 | 'collapsed' flips; an icon with exactly one caret ends with exactly the other; no other class of either element changes |
| `Resume.ToggleTwice` | js/resume.js:9-11 | toggling a section twice restores the page |
| `Resume.Document.constructor` | js/resume.js:2-3 | the document holds each id's classes |
| `Resume.Document.ToggleSection` | js/resume.js:1-12 | the page becomes `Toggled` of the old page |

## Left out

- Network requests, `Promise.all` and the `.then/.catch` chains are not modelled. Their settled outcomes are parameters, in request order.
- `localStorage` and `JSON.parse`/`JSON.stringify` are not modelled. A read is an abstract `Option<Entry<D>>`, with parse failures as `None`. A failed write (quota, serialisation) is not modelled: the store is always replaced. The storage key names are not modelled for the same reason.
- The wording produced by `Intl.RelativeTimeFormat` is left out because it is locale-dependent. The model stops at the chosen unit and integer value.
- Parsing a `created_at` date string is left out: the parsed result is an input. `NaN` from a non-numeric stamp is not modelled either.
- RelativeTime.RoundDiv: computed in exact integers, while the source uses double-precision division. Results may differ for differences beyond 2^53 ms.
- `Date.now()` is read several times within one step in the source. The model passes one `now` per step: load, settle, fetch completion.
- DOM node creation, `innerHTML`, `console.error` and listener registration are not modelled. `PublicationFilter.Click` requires installed handlers in place of the listener.
- The filter's items, headings and buttons are distinct values, so an element that is both an item and a heading is not modelled.
- Each `.project-stat` of a card is assumed to carry a distinct `data-stat` and exactly one `.stat-value`, since a card's values are a map from stat name to text. So the model cannot show that `updateCard` writes only the first value under the first matching stat (js/projects.js:21-22). Nor can it show that `updateCardError` also writes values under a `.project-stat` without `data-stat`, and second values under one stat (js/projects.js:34).
- Text.Capitalize: upper-cases ASCII letters only. Other characters, whose `toUpperCase` can change length, are unchanged.
- Payload values that are not strings, such as a numeric `action` passed through `String`, are not modelled.
- A `null` element in the event array is not modelled. Line 351 of js/projects.js would throw there, and the `.catch` path would take over.
- Object-prototype keys such as `constructor` are not modelled as `data-repo` values. In the source, `cacheData[repo]` would find an inherited property for them.
- The sidebar fetch treats an HTTP error page as a fragment, because `response.text()` is used without checking `ok`. The model passes such a body through as `Some(fragment)`. Only a network failure is `None`.
