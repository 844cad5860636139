# Stash performer plugins: a verified model

This project models the logic of two browser plugins for Stash, a self-hosted media organiser.
Both plugins talk to GraphQL servers: the local Stash server and external "stash-boxes"
(StashDB, FansDB, PMVStash; ThePornDB is treated specially).

- **New Performer Scenes** (`stashNewPerformerScenes.js`) watches the performer list. For each
  performer card not processed yet, it:
  - asks the local server for the performer's stash ids;
  - asks every configured stash-box that has an API key for the scenes of those ids;
  - keeps the scenes released within the configured number of days;
  - puts a bell icon on the performer's first card when any scene is left.

  The plugin keeps three pieces of state, each updated in place:
  - the registry of stash-boxes (ThePornDB excluded);
  - the date range, stored in `localStorage`;
  - the set of performers already processed.

  The date-range modal and page navigation clear the processed set.
- **Right-Click Performers** (`stashRightClickPerformers.js`) adds a context menu to performer
  cards and to the performer header image. The modelled parts are:
  - reading the configuration: the first stash-box of each provider;
  - the performer's StashDB and ThePornDB ids;
  - the "Missing Scenes" action: a slideshow of the performer's StashDB images starts (only
    whether there is an image is modelled), then StashDB's scenes are fetched page by page and
    compared by title with the local scenes;
  - paging in the scene and image modals;
  - the union of tag ids when tags are added to a performer;
  - the choice of the ten most recently updated tags;
  - the HTTP headers of its requests.

Modules:

| module | what it models |
|---|---|
| `Wrappers` | `Option` |
| `Text` | `startsWith`, `includes`, digit runs |
| `JsObject` | JavaScript objects with string keys, kept in insertion order |
| `JsNumbers` | `parseInt(s, 10)` and `String(n)` |
| `Stash` | records and endpoint constants |
| `RequestHeaders` | request headers |
| `PerformerUrls` | the `/performers/(\d+)` patterns and the last URL segment |
| `ProviderConfig` | right-click configuration and performer ids |
| `Pagination` | modal paging |
| `Tags` | tag union and recent tags |
| `MissingScenes` | the Missing Scenes action |
| `IdentityMap` | `getPerformerStashIDs` |
| `RemoteIndex` | `getNewReleasesForStashIDs` |
| `ReleaseFilter` | per-performer aggregation, date filter, popout normalisation, scene links |
| `ReleaseTracker` | the plugin state as a class, plus `processPerformerCards` as a whole |

**How operations are modelled.**
- Loops that build objects are methods. Each is proved equal to a specification function. The
  properties are then proved about those functions:
  - `GetPerformerStashIds` and the methods it calls;
  - `GetNewReleasesForStashIds`;
  - `AggregateScenes` and `FilterByDate`;
  - `UniqueTags`;
  - `FetchAllScenes`.
- State the plugins update in place is a class with `modifies` clauses:
  - `ReleaseTracker.NewReleaseTracker`;
  - `ProviderConfig.RightClickConfig`.
- Network replies, the clock and the page's cards are parameters.

**Where the code and the plugins' stated intent differ, the model follows the code.**
- The registry drops only the exact string `https://theporndb.net/graphql`. Every other endpoint
  stays registered, including another spelling or a `?type=Movie` variant
  (`ReleaseTracker.WithoutTpdbMembers`, `ReleaseTracker.WithoutTpdbKeepsOthers`).
- A queried performer that has no usable stash id is not marked as processed. It is queried again
  on the next run (`ReleaseTracker.RunMarks`, `ReleaseTracker.SecondRun`).

## Model

All source paths are under `plugins/`. NPS is `stashNewPerformerScenes/stashNewPerformerScenes.js`
and RCP is `stashRightClickPerformers/stashRightClickPerformers.js`; the table cells spell the
paths out in full.

| member | source | states |
|---|---|---|
| RequestHeaders.Headers | plugins/stashNewPerformerScenes/stashNewPerformerScenes.js:72-78 | JSON content type always; an `Apikey` header carrying the key exactly when the key is truthy; no other header |
| RequestHeaders.EffectiveApiKey | plugins/stashRightClickPerformers/stashRightClickPerformers.js:1401-1404 | the argument when it is a non-empty string, otherwise the local key |
| RequestHeaders.ApikeySentIff | plugins/stashRightClickPerformers/stashRightClickPerformers.js:1401-1420 | the right-click plugin sends `Apikey` exactly when the argument or the local key is non-empty, and sends the argument when it is non-empty |
| RequestHeaders.LocalKeyFallback | plugins/stashRightClickPerformers/stashRightClickPerformers.js:1397-1404 | a missing or empty key falls back to the local key |
| JsNumbers.DecimalString | plugins/stashNewPerformerScenes/stashNewPerformerScenes.js:732 | the stored text of a count of days is a non-empty run of digits with no leading zero |
| JsNumbers.ParseDecimalString | plugins/stashNewPerformerScenes/stashNewPerformerScenes.js:22 | `parseInt` reads back the number whose decimal text was stored, whatever non-digit text follows |
| JsNumbers.ParseIntSkipsSpace | plugins/stashNewPerformerScenes/stashNewPerformerScenes.js:22 | leading white space does not change what `parseInt` reads |
| Pagination.TotalPages | plugins/stashRightClickPerformers/stashRightClickPerformers.js:464 | `Math.ceil(n / per)`: the pages hold all items, the last page is not empty, and there are no pages for no items |
| Pagination.Slice | plugins/stashRightClickPerformers/stashRightClickPerformers.js:470 | `slice(start, end)`: length clamped to the array and element `i` is `items[start + i]` |
| Pagination.PageItems | plugins/stashRightClickPerformers/stashRightClickPerformers.js:466-470 | a page holds at most `per` items: the ones starting at `(page - 1) * per`, in order |
| Pagination.PageSizes | plugins/stashRightClickPerformers/stashRightClickPerformers.js:461-470 | a page is non-empty exactly when it is within `totalPages`, and every page before the last is full |
| Pagination.PagesPrefix | plugins/stashRightClickPerformers/stashRightClickPerformers.js:466-470 | pages `1..k` shown in turn are the first `k * per` items |
| Pagination.PagesCoverItems | plugins/stashRightClickPerformers/stashRightClickPerformers.js:564-573 | all pages together show every item exactly once, in order |
| Pagination.PageControls | plugins/stashRightClickPerformers/stashRightClickPerformers.js:500-514 | "Previous" exists exactly when `page > 1`; "Next" exists exactly when `page < totalPages` |
| Pagination.NavigationStaysInRange | plugins/stashRightClickPerformers/stashRightClickPerformers.js:500-523 | clicking a link re-renders the neighbouring page, and the page stays in `1..totalPages` |
| ProviderConfig.FindBox | plugins/stashRightClickPerformers/stashRightClickPerformers.js:59-70 | `find`: the first box of the provider, or none when no box matches |
| ProviderConfig.FetchConfiguration | plugins/stashRightClickPerformers/stashRightClickPerformers.js:17-55 | a failed query gives no boxes and an empty local key; otherwise the reply |
| ProviderConfig.RightClickConfig.constructor | plugins/stashRightClickPerformers/stashRightClickPerformers.js:5-14 | the initial configuration values |
| ProviderConfig.RightClickConfig.ApplyConfiguration | plugins/stashRightClickPerformers/stashRightClickPerformers.js:58-78 | each provider's key and endpoint come from its first box, `''` when there is none; the StashDB endpoint is unchanged |
| ProviderConfig.MissingProviderIsEmpty | plugins/stashRightClickPerformers/stashRightClickPerformers.js:73-78 | a provider without a box gets empty key and endpoint |
| ProviderConfig.SelectedEndpointBelongs | plugins/stashRightClickPerformers/stashRightClickPerformers.js:59-78 | when some box of the provider exists, one no later than it is chosen and its endpoint belongs to the provider |
| ProviderConfig.ProvidersDisjoint | plugins/stashRightClickPerformers/stashRightClickPerformers.js:59-70 | no endpoint is recognised for two providers: StashDB and FansDB by exact comparison, ThePornDB by prefix |
| ProviderConfig.ProviderEndpointShape | plugins/stashRightClickPerformers/stashRightClickPerformers.js:59-78 | a provider's endpoint is `''` exactly when no box of it is configured, and otherwise one the provider is recognised by |
| ProviderConfig.TpdbSelectedWhateverFollows | plugins/stashRightClickPerformers/stashRightClickPerformers.js:62-64 | a first box at the ThePornDB endpoint followed by anything (such as `?type=Movie`) gives ThePornDB's endpoint and key, whatever boxes follow |
| ProviderConfig.ExtendedStashDBIgnored | plugins/stashRightClickPerformers/stashRightClickPerformers.js:59-61 | a box whose endpoint extends StashDB's (a trailing slash, a query) is passed over: key and endpoint come from the boxes after it |
| ProviderConfig.FirstStashId | plugins/stashRightClickPerformers/stashRightClickPerformers.js:159-164 | the stash id of the first entry at exactly that endpoint; none when no entry is at that endpoint |
| ProviderConfig.SuffixedTpdbIdsIgnored | plugins/stashRightClickPerformers/stashRightClickPerformers.js:162-164 | the performer's ThePornDB id is matched exactly: an id recorded under the ThePornDB endpoint followed by anything is skipped, whatever else is recorded |
| PerformerUrls.MatchAt | plugins/stashNewPerformerScenes/stashNewPerformerScenes.js:537 | a match at `i` captures a non-empty digit run that follows `/performers/` there (plus `/` when required), and is not followed by another digit |
| PerformerUrls.FirstMatch | plugins/stashRightClickPerformers/stashRightClickPerformers.js:1372-1373 | the capture is a non-empty run of digits |
| PerformerUrls.FirstMatchLeftmost | plugins/stashRightClickPerformers/stashRightClickPerformers.js:1372-1373 | the capture comes from the leftmost matching position; with no match, there is no capture |
| PerformerUrls.LastSegment | plugins/stashRightClickPerformers/stashRightClickPerformers.js:134-137 | the last element of `split('/')`: the longest suffix without a slash |
| PerformerUrls.LastSegmentEmpty | plugins/stashRightClickPerformers/stashRightClickPerformers.js:134-137 | the id is empty exactly when the URL is empty or ends with `/` |
| PerformerUrls.MenuPerformerId | plugins/stashRightClickPerformers/stashRightClickPerformers.js:1377-1394 | no menu outside a card or the header image, or for an empty id; a card id has no slash; a header-image id is digits |
| Tags.Dedup | plugins/stashRightClickPerformers/stashRightClickPerformers.js:1023-1025 | `Array.from(new Set(s))`: the same elements, none twice, and no longer |
| Tags.DedupPrefix | plugins/stashRightClickPerformers/stashRightClickPerformers.js:1084 | adding more input only appends to the result |
| Tags.DedupDistinct | plugins/stashRightClickPerformers/stashRightClickPerformers.js:1084 | a list without duplicates is unchanged |
| Tags.DedupFirstOccurrence | plugins/stashRightClickPerformers/stashRightClickPerformers.js:1023-1025 | elements keep the order of their first occurrences |
| Tags.TagUnionContents | plugins/stashRightClickPerformers/stashRightClickPerformers.js:1084 | the union holds every existing and every new id, none twice; a duplicate-free existing list comes first, unchanged |
| Tags.ApplyTags | plugins/stashRightClickPerformers/stashRightClickPerformers.js:1023-1051 | the union is submitted exactly when some tag is selected; otherwise the user is asked to select one |
| Tags.AddTagsKeepsExisting | plugins/stashRightClickPerformers/stashRightClickPerformers.js:1077-1084 | adding tags never removes an existing tag and never repeats one |
| Tags.FirstTagsIds | plugins/stashRightClickPerformers/stashRightClickPerformers.js:933-940 | the ids of the first tags of each id are the de-duplicated ids |
| Tags.FirstTagsDistinct | plugins/stashRightClickPerformers/stashRightClickPerformers.js:933-940 | the first tags have distinct ids |
| Tags.FirstTagsMembers | plugins/stashRightClickPerformers/stashRightClickPerformers.js:933-940 | a tag is kept exactly when it is the first tag with its id |
| Tags.ByFirstIdIsFirstTags | plugins/stashRightClickPerformers/stashRightClickPerformers.js:933-944 | the `uniqueTags` object's keys are the distinct ids in first-seen order, and its values are the first tags |
| Tags.UniqueTags | plugins/stashRightClickPerformers/stashRightClickPerformers.js:933-940 | the `forEach` stores a tag under its id unless a tag is already stored there |
| Tags.Insert | plugins/stashRightClickPerformers/stashRightClickPerformers.js:943-944 | insertion adds exactly the one tag |
| Tags.InsertSorted | plugins/stashRightClickPerformers/stashRightClickPerformers.js:943-944 | insertion keeps the list ordered most recent first |
| Tags.SortByDate | plugins/stashRightClickPerformers/stashRightClickPerformers.js:943-944 | the sort is a permutation, ordered by non-increasing `updated_at` |
| Tags.SortDistinct | plugins/stashRightClickPerformers/stashRightClickPerformers.js:943-944 | sorting keeps ids distinct |
| Tags.ByFirstIdStored | plugins/stashRightClickPerformers/stashRightClickPerformers.js:933-938 | a tag stored in `uniqueTags` is stored under its own id and is the first tag of that id |
| Tags.ByFirstIdFinds | plugins/stashRightClickPerformers/stashRightClickPerformers.js:933-938 | every first tag is stored in `uniqueTags` under its id |
| Tags.ValuesIn | plugins/stashRightClickPerformers/stashRightClickPerformers.js:942 | `Object.values` visiting the keys in a given order: one value per key, each the one stored under it |
| Tags.ValuesInFirstTags | plugins/stashRightClickPerformers/stashRightClickPerformers.js:933-942 | in every key enumeration order, `Object.values(uniqueTags)` lists exactly the first tags, each once, with distinct ids |
| Tags.FirstSeenOrder | plugins/stashRightClickPerformers/stashRightClickPerformers.js:933-942 | visiting the ids in order of first occurrence is one enumeration order, and it lists the first tags in list order |
| Tags.RecentTags | plugins/stashRightClickPerformers/stashRightClickPerformers.js:930-945 | flatten, de-duplicate by id, list the values in the engine's key order, sort, then take the first ten |
| Tags.TakeRecentSize | plugins/stashRightClickPerformers/stashRightClickPerformers.js:943-945 | exactly ten tags, or all of them when there are fewer |
| Tags.TakeRecentSorted | plugins/stashRightClickPerformers/stashRightClickPerformers.js:943-945 | the chosen tags are ordered most recent first, and distinct when the input is |
| Tags.TakeRecentFrom | plugins/stashRightClickPerformers/stashRightClickPerformers.js:943-945 | every chosen tag comes from the input |
| Tags.TakeRecentIsMostRecent | plugins/stashRightClickPerformers/stashRightClickPerformers.js:943-945 | no tag left out was updated later than a chosen one |
| Tags.RecentTagsProperties | plugins/stashRightClickPerformers/stashRightClickPerformers.js:930-945 | for every key enumeration order, the recent tags: at most ten, distinct ids, most recent first, each the first tag of its id, and none left out is more recent |
| MissingScenes.CompareScenes | plugins/stashRightClickPerformers/stashRightClickPerformers.js:448-457 | the result is no longer than the remote list |
| MissingScenes.CompareScenesMembers | plugins/stashRightClickPerformers/stashRightClickPerformers.js:448-457 | a scene is reported exactly when it is remote and no local scene has its title |
| MissingScenes.CompareScenesConcat | plugins/stashRightClickPerformers/stashRightClickPerformers.js:454-456 | the filter works scene by scene and keeps remote order |
| MissingScenes.CompareScenesKeepsDuplicates | plugins/stashRightClickPerformers/stashRightClickPerformers.js:454-456 | remote duplicates are not merged: each is reported as often as it occurs |
| MissingScenes.CompareScenesDisjoint | plugins/stashRightClickPerformers/stashRightClickPerformers.js:448-457 | no reported scene shares a title with a local scene |
| MissingScenes.FetchAllScenes | plugins/stashRightClickPerformers/stashRightClickPerformers.js:1126-1137 | the `while (true)` loop as written, equal to the paging outcome `PagingFrom` |
| MissingScenes.PagingOutcome | plugins/stashRightClickPerformers/stashRightClickPerformers.js:1126-1137 | on success, after page `k` the loop holds the scenes of pages `1..k` in order; page `k` met the exit test and no earlier page did. On a crash at page `k`, page `k` failed |
| MissingScenes.PagingBounded | plugins/stashRightClickPerformers/stashRightClickPerformers.js:401 | when every page answers with the same total, the loop ends by page `count / 25 + 1` |
| MissingScenes.FirstSlide | plugins/stashRightClickPerformers/stashRightClickPerformers.js:87-95 | the slideshow's first image exists exactly when the list is non-empty, and is within it |
| MissingScenes.MissingScenesAsWritten | plugins/stashRightClickPerformers/stashRightClickPerformers.js:1118-1153 | the handler as written: it throws exactly when the performer has a StashDB id and either there is no image (the slideshow fails before anything is shown) or, with an image, some page fails |
| MissingScenes.NullPageCrashes | plugins/stashRightClickPerformers/stashRightClickPerformers.js:1128-1133 | with an image, a failing first page raises a `TypeError`, and the loading spinner stays on screen |
| MissingScenes.NoImagesCrashes | plugins/stashRightClickPerformers/stashRightClickPerformers.js:1121-1124 | with a StashDB id and no image (or a failed image query), the slideshow throws and no modal appears, whatever the details and pages; with an image and answering pages the modal does appear |
| MissingScenes.MissingScenes | plugins/stashRightClickPerformers/stashRightClickPerformers.js:1118-1153 | the handler with the slideshow started only when there is an image and with the null check: nothing throws and the spinner is always hidden; the modal appears exactly when the id, the local details and every page arrive, and it shows the title comparison |
| MissingScenes.MissingScenesAgrees | plugins/stashRightClickPerformers/stashRightClickPerformers.js:1118-1153 | when the performer has an image and every page needed answers, the corrected handler equals the original |
| IdentityMap.GetPerformerStashIds | plugins/stashNewPerformerScenes/stashNewPerformerScenes.js:160-201 | no request for no ids, otherwise exactly one; `{}` for no ids or a failed query; otherwise the map produced by the assignments |
| IdentityMap.AddAllAliases | plugins/stashNewPerformerScenes/stashNewPerformerScenes.js:184-197 | the outer loop performs every alias's assignments, in alias order |
| IdentityMap.AddAliasStashIds | plugins/stashNewPerformerScenes/stashNewPerformerScenes.js:185-196 | the inner loop performs one alias's assignments, creating the inner object when it is missing |
| IdentityMap.ApplyDomain | plugins/stashNewPerformerScenes/stashNewPerformerScenes.js:192-195 | a performer is a key exactly when some assignment was for it |
| IdentityMap.ApplyEndpoints | plugins/stashNewPerformerScenes/stashNewPerformerScenes.js:192-195 | an endpoint is under a performer exactly when some assignment was for that pair |
| IdentityMap.ApplyLastWriteWins | plugins/stashNewPerformerScenes/stashNewPerformerScenes.js:195 | the last assignment to a performer and endpoint determines the stored stash id |
| IdentityMap.AliasWritesShape | plugins/stashNewPerformerScenes/stashNewPerformerScenes.js:186-196 | one alias's assignments are exactly its non-ThePornDB stash ids |
| IdentityMap.WritesShape | plugins/stashNewPerformerScenes/stashNewPerformerScenes.js:184-197 | every assignment is a non-ThePornDB stash id of one requested performer, and every such id is assigned |
| IdentityMap.StashMapShape | plugins/stashNewPerformerScenes/stashNewPerformerScenes.js:160-201 | each key of the map: was requested; has at least one endpoint; never has ThePornDB's endpoint; maps each endpoint to a stash id the performer really has there |
| IdentityMap.StashMapMembership | plugins/stashNewPerformerScenes/stashNewPerformerScenes.js:184-197 | after a successful query, a performer is a key exactly when its row holds a non-ThePornDB stash id |
| IdentityMap.KeyHasRow | plugins/stashNewPerformerScenes/stashNewPerformerScenes.js:184-197 | every key was requested at a position whose row has a non-ThePornDB id |
| IdentityMap.RowGivesKey | plugins/stashNewPerformerScenes/stashNewPerformerScenes.js:184-197 | a requested performer whose row has a non-ThePornDB id becomes a key |
| RemoteIndex.RequestsOf | plugins/stashNewPerformerScenes/stashNewPerformerScenes.js:210-248 | at most one query per box, and none when no box has a key |
| RemoteIndex.GetNewReleasesForStashIds | plugins/stashNewPerformerScenes/stashNewPerformerScenes.js:206-267 | the box loop builds the specified index with the specified number of queries |
| RemoteIndex.CollectStashIds | plugins/stashNewPerformerScenes/stashNewPerformerScenes.js:218-223 | collects the stash ids for one endpoint, in the order performers are visited |
| RemoteIndex.StoreScenes | plugins/stashNewPerformerScenes/stashNewPerformerScenes.js:254-262 | each alias's stash id gets that alias's scenes, or `[]`, in the endpoint's group, which is created when missing |
| RemoteIndex.CollectIdsMembership | plugins/stashNewPerformerScenes/stashNewPerformerScenes.js:219-223 | an id is collected exactly when a visited performer has that non-empty id at the endpoint |
| RemoteIndex.StashIdsForMembership | plugins/stashNewPerformerScenes/stashNewPerformerScenes.js:217-223 | for any enumeration order, the ids collected for an endpoint are exactly the non-empty ids at it |
| RemoteIndex.FillGroupKeys | plugins/stashNewPerformerScenes/stashNewPerformerScenes.js:254-262 | filling a group keeps its keys and adds the stored ids |
| RemoteIndex.FillGroupValues | plugins/stashNewPerformerScenes/stashNewPerformerScenes.js:254-262 | each value in a filled group was already there or is an alias's row |
| RemoteIndex.FillGroupDistinct | plugins/stashNewPerformerScenes/stashNewPerformerScenes.js:254-262 | a filled group has distinct keys |
| RemoteIndex.IndexWellFormed | plugins/stashNewPerformerScenes/stashNewPerformerScenes.js:206-265 | the index has distinct endpoints, and each group has distinct stash ids |
| RemoteIndex.IndexEndpoints | plugins/stashNewPerformerScenes/stashNewPerformerScenes.js:210-262 | an endpoint is in the index exactly when some box of it had a key, some ids and an answer; a failing box does not stop the loop |
| RemoteIndex.GroupOfIndex | plugins/stashNewPerformerScenes/stashNewPerformerScenes.js:210-262 | the group of an endpoint depends only on the boxes of that endpoint |
| RemoteIndex.GroupAfterKeys | plugins/stashNewPerformerScenes/stashNewPerformerScenes.js:217-262 | a stash id is in an endpoint's group exactly when it was collected and a box of that endpoint contributed |
| RemoteIndex.IndexStashIds | plugins/stashNewPerformerScenes/stashNewPerformerScenes.js:217-262 | a stash id is in an endpoint's group exactly when it was collected and a box of that endpoint contributed |
| RemoteIndex.GroupAfterScenes | plugins/stashNewPerformerScenes/stashNewPerformerScenes.js:254-262 | the stored scenes are the row, or `[]`, that a contributing box returned for one of the id's aliases |
| RemoteIndex.IndexScenes | plugins/stashNewPerformerScenes/stashNewPerformerScenes.js:254-262 | the stored scenes are the row, or `[]`, that a contributing box returned for one of the id's aliases |
| ReleaseFilter.AggregateScenes | plugins/stashNewPerformerScenes/stashNewPerformerScenes.js:584-596 | the nested `forEach` builds the specified aggregation |
| ReleaseFilter.PushMatches | plugins/stashNewPerformerScenes/stashNewPerformerScenes.js:588-595 | one endpoint: the scenes of every matching stash id are appended, and the array is created on the first match |
| ReleaseFilter.PushStep | plugins/stashNewPerformerScenes/stashNewPerformerScenes.js:589-593 | one matching stash id: create the array if missing, then push its scenes |
| ReleaseFilter.SkipStep | plugins/stashNewPerformerScenes/stashNewPerformerScenes.js:589 | a stash id that is not the performer's changes nothing |
| ReleaseFilter.AggregatedKeys | plugins/stashNewPerformerScenes/stashNewPerformerScenes.js:587-596 | every aggregated endpoint is an endpoint of the index |
| ReleaseFilter.AggregatedDistinct | plugins/stashNewPerformerScenes/stashNewPerformerScenes.js:584-596 | aggregated endpoints are distinct |
| ReleaseFilter.MatchedMembership | plugins/stashNewPerformerScenes/stashNewPerformerScenes.js:588-594 | a scene is gathered from a group exactly when a matching stash id holds it |
| ReleaseFilter.AggregatedScenes | plugins/stashNewPerformerScenes/stashNewPerformerScenes.js:584-596 | a scene is aggregated exactly when a matching stash id at some endpoint holds it |
| ReleaseFilter.Cutoff | plugins/stashNewPerformerScenes/stashNewPerformerScenes.js:599-600 | the cutoff is valid exactly when the range is a number, and lies before now for a range of at least one day |
| ReleaseFilter.FilterRecent | plugins/stashNewPerformerScenes/stashNewPerformerScenes.js:604 | the filter never lengthens the list |
| ReleaseFilter.FilterRecentMembers | plugins/stashNewPerformerScenes/stashNewPerformerScenes.js:604 | a scene is kept exactly when its date is valid and after the cutoff |
| ReleaseFilter.NullDatedScene | plugins/stashNewPerformerScenes/stashNewPerformerScenes.js:603-604 | a scene whose `release_date` is `null` is dated at the epoch (`new Date(null)`), so the filter keeps it exactly when the range reaches back before 1970 |
| ReleaseFilter.MissingDateNeverRecent | plugins/stashNewPerformerScenes/stashNewPerformerScenes.js:603-604 | a scene without a `release_date` is an Invalid Date and is never kept, whatever the cutoff |
| ReleaseFilter.FilterConcat | plugins/stashNewPerformerScenes/stashNewPerformerScenes.js:604 | the filter works scene by scene and keeps order |
| ReleaseFilter.FilterNarrow | plugins/stashNewPerformerScenes/stashNewPerformerScenes.js:604 | filtering with a later cutoff after an earlier one equals filtering with the later one |
| ReleaseFilter.FilterIdempotent | plugins/stashNewPerformerScenes/stashNewPerformerScenes.js:604 | filtering twice equals filtering once |
| ReleaseFilter.FilterInvalid | plugins/stashNewPerformerScenes/stashNewPerformerScenes.js:599-604 | with an invalid cutoff date no scene is kept |
| ReleaseFilter.WiderRangeKeepsMore | plugins/stashNewPerformerScenes/stashNewPerformerScenes.js:599-604 | a scene new for a shorter range is new for a longer one |
| ReleaseFilter.FilterByDate | plugins/stashNewPerformerScenes/stashNewPerformerScenes.js:601-608 | the loop builds the surviving groups |
| ReleaseFilter.SurvivingKeys | plugins/stashNewPerformerScenes/stashNewPerformerScenes.js:603-608 | every surviving endpoint was aggregated |
| ReleaseFilter.SurvivingGroups | plugins/stashNewPerformerScenes/stashNewPerformerScenes.js:604-607 | every surviving group is non-empty and holds only recent scenes |
| ReleaseFilter.SurvivingScenes | plugins/stashNewPerformerScenes/stashNewPerformerScenes.js:603-608 | a scene survives exactly when it is recent and was aggregated |
| ReleaseFilter.NewReleaseScenes | plugins/stashNewPerformerScenes/stashNewPerformerScenes.js:584-608 | the badge lists exactly the recent scenes held by one of the performer's stash ids |
| ReleaseFilter.IconShown | plugins/stashNewPerformerScenes/stashNewPerformerScenes.js:612 | something is listed exactly when a matching stash id holds a recent scene |
| ReleaseFilter.KeepObjects | plugins/stashNewPerformerScenes/stashNewPerformerScenes.js:326-330 | skipping non-objects never lengthens the list |
| ReleaseFilter.KeepObjectsMembers | plugins/stashNewPerformerScenes/stashNewPerformerScenes.js:326-330 | exactly the objects are rendered |
| ReleaseFilter.RenderedScenes | plugins/stashNewPerformerScenes/stashNewPerformerScenes.js:314-330 | only objects are rendered: a non-object is skipped, a single scene is wrapped, and an array keeps exactly its objects |
| ReleaseFilter.KeepObjectsAll | plugins/stashNewPerformerScenes/stashNewPerformerScenes.js:326-330 | a list of objects is rendered unchanged |
| ReleaseFilter.RenderedIdempotent | plugins/stashNewPerformerScenes/stashNewPerformerScenes.js:314-330 | normalising again changes nothing |
| ReleaseFilter.PopoutShowsEachScene | plugins/stashNewPerformerScenes/stashNewPerformerScenes.js:314-330 | the popout shows every scene of the filtered map once, in order |
| ReleaseFilter.SceneSite | plugins/stashNewPerformerScenes/stashNewPerformerScenes.js:418-426 | PMVStash when the endpoint mentions `pmvstash`; otherwise FansDB when it mentions `fansdb`; otherwise StashDB |
| ReleaseFilter.SceneUrl | plugins/stashNewPerformerScenes/stashNewPerformerScenes.js:418-426 | the link is the site followed by `/scenes/` and the id |
| ReleaseFilter.SceneUrlInjective | plugins/stashNewPerformerScenes/stashNewPerformerScenes.js:418-426 | different scenes of one endpoint get different links |
| ReleaseFilter.ProviderSites | plugins/stashNewPerformerScenes/stashNewPerformerScenes.js:418-425 | scenes of any endpoint the right-click configuration recognises as StashDB or FansDB (either domain) link to that provider's own site |
| ReleaseTracker.WithoutTpdb | plugins/stashNewPerformerScenes/stashNewPerformerScenes.js:133-135 | the registry filter never lengthens the list |
| ReleaseTracker.WithoutTpdbMembers | plugins/stashNewPerformerScenes/stashNewPerformerScenes.js:133-135 | the registry holds exactly the boxes whose endpoint is not ThePornDB's |
| ReleaseTracker.WithoutTpdbConcat | plugins/stashNewPerformerScenes/stashNewPerformerScenes.js:133-135 | the filter keeps the configured order |
| ReleaseTracker.WithoutTpdbKeepsOthers | plugins/stashNewPerformerScenes/stashNewPerformerScenes.js:133-135 | without a ThePornDB box, nothing is removed |
| ReleaseTracker.PendingIdsMembership | plugins/stashNewPerformerScenes/stashNewPerformerScenes.js:534-542 | a performer is pending exactly when some card shows it and it is not processed |
| ReleaseTracker.FirstCard | plugins/stashNewPerformerScenes/stashNewPerformerScenes.js:614-618 | the first card that shows the performer, or none when no card does |
| ReleaseTracker.KeyOrder | plugins/stashNewPerformerScenes/stashNewPerformerScenes.js:557 | the keys of the identity map, each once |
| ReleaseTracker.KeyOrderEnumerates | plugins/stashNewPerformerScenes/stashNewPerformerScenes.js:557 | every key of the identity map is enumerated exactly once |
| ReleaseTracker.Marked | plugins/stashNewPerformerScenes/stashNewPerformerScenes.js:575-626 | marked are exactly the visited performers that got past both `continue`s |
| ReleaseTracker.NewReleaseTracker.constructor | plugins/stashNewPerformerScenes/stashNewPerformerScenes.js:16-23 | an empty registry, no processed performers, and the date range read from storage |
| ReleaseTracker.NewReleaseTracker.LoadStashBoxes | plugins/stashNewPerformerScenes/stashNewPerformerScenes.js:112-138 | when the query fails or the configuration has no `stashBoxes` field, the registry is unchanged; an empty list is assigned; otherwise it becomes the boxes without ThePornDB. Nothing else changes |
| ReleaseTracker.NewReleaseTracker.SaveDateRange | plugins/stashNewPerformerScenes/stashNewPerformerScenes.js:726-738 | accepted exactly when the input parses to at least one day. Then the range is stored and set, and the processed set is cleared; the button then starts a new run (`ProcessPerformerCards`), signalled by `accepted`. Otherwise nothing changes |
| ReleaseTracker.NewReleaseTracker.OnLocationChange | plugins/stashNewPerformerScenes/stashNewPerformerScenes.js:821-834 | the processed set is cleared and a rescan started exactly when the path starts with `/performers` |
| ReleaseTracker.NewReleaseTracker.CollectPendingIds | plugins/stashNewPerformerScenes/stashNewPerformerScenes.js:534-542 | the ids of unprocessed cards, in card order |
| ReleaseTracker.NewReleaseTracker.VisitPerformer | plugins/stashNewPerformerScenes/stashNewPerformerScenes.js:576-626 | one iteration adds the specified icon and reports whether the performer gets past both `continue`s |
| ReleaseTracker.NewReleaseTracker.ScanPerformers | plugins/stashNewPerformerScenes/stashNewPerformerScenes.js:575-627 | the loop adds the specified icons and marks exactly the specified performers |
| ReleaseTracker.NewReleaseTracker.ProcessPerformerCards | plugins/stashNewPerformerScenes/stashNewPerformerScenes.js:519-628 | one run's queries, icons and marks are those of `RunOf`; the processed set grows by the marked performers |
| ReleaseTracker.SavedRangeReloads | plugins/stashNewPerformerScenes/stashNewPerformerScenes.js:727-733 | a saved range is read back as the same number at the next start |
| ReleaseTracker.DefaultRange | plugins/stashNewPerformerScenes/stashNewPerformerScenes.js:16-22 | seven days when nothing is stored or the entry is empty |
| ReleaseTracker.RunQueries | plugins/stashNewPerformerScenes/stashNewPerformerScenes.js:534-552 | a run queries exactly the unprocessed performers shown on a card |
| ReleaseTracker.RunMarks | plugins/stashNewPerformerScenes/stashNewPerformerScenes.js:575-626 | a run marks exactly the queried performers that have a non-ThePornDB stash id |
| ReleaseTracker.SecondRun | plugins/stashNewPerformerScenes/stashNewPerformerScenes.js:514-626 | a second run over the same cards queries exactly what the first one left unmarked |
| ReleaseTracker.RunQueried | plugins/stashNewPerformerScenes/stashNewPerformerScenes.js:534-552 | every run queries the pending performers, whatever the replies |
| ReleaseTracker.PendingAfterMarking | plugins/stashNewPerformerScenes/stashNewPerformerScenes.js:539 | marking performers removes exactly those from the pending list |
| ReleaseTracker.IconsSound | plugins/stashNewPerformerScenes/stashNewPerformerScenes.js:612-622 | an icon goes only on a card that had none, and only on the first card of a performer with new releases |
| ReleaseTracker.IconsStep | plugins/stashNewPerformerScenes/stashNewPerformerScenes.js:612-622 | one iteration only adds icons, for a performer with new releases |
| ReleaseTracker.IconsComplete | plugins/stashNewPerformerScenes/stashNewPerformerScenes.js:431-436 | the first card of every processed performer with new releases gets an icon, unless it had one |

## Left out

- Page and DOM interaction is left out: the modals, popouts, toasts, spinners, menus and styles, the `MutationObserver`, `waitForElement` and the 500 ms delay. What a handler does is modelled by its result.
- `debounce` is left out. Each call of `processPerformerCards` is modelled as one complete run; overlapping runs are not modelled.
- `fetch`, JSON and HTTP status handling are left out. Each request is a reply parameter: `Failed`/`None` for `null`, or the rows per alias.
- `localStorage` is modelled only for the date range, as a field holding the stored text. The plugin's `apiKey` entry is left out.
- Query text construction, templating and console logging are left out.
- The tag search table and its regular-expression name filter are left out, because they render DOM only.
- The batch image change and the selected-performers flows are left out. They are DOM and network workflows with no state beyond their requests.
- The image-change flow is left out apart from its paging.
- Dates are integer timestamps: one `now` per run, with no time zones and no calendar arithmetic. Date strings are converted by a parser passed as a parameter; `null` is the epoch, as `new Date(null)` is. The missing-scenes modal's in-page sort by release date is left out.
- ReleaseTracker.RunOf: visits the identity map's keys in the order performers were first queried. JavaScript enumerates integer-like keys in ascending numeric order. This changes only the order of scenes within an endpoint's list; `RemoteIndex` itself is proved for every enumeration order.
- Tags.RecentTags: takes the order in which `Object.values(uniqueTags)` enumerates the ids as a parameter instead of computing it. JavaScript lists integer-like ids in ascending numeric order, and the stable sort then breaks `updated_at` ties by that order, so when a tie straddles tenth place it decides which tags are shown. `RecentTagsProperties` is proved for every order.
- Tags.SortByDate: the order among tags with the same `updated_at` is not stated. Only the permutation and the ordering are proved.
- `parseInt` is over unbounded integers. Precision above 2^53 is not modelled.
- Titles are treated as strings. A `null` title is treated as any other title value.
- `addTagsToPerformer` reads the existing-tags reply without a null check. Only the tag-id union it then submits is modelled.

## Findings

| source | as written | input that shows it | evidently intended | confidence | as-written member | corrected member |
|---|---|---|---|---|---|---|
| plugins/stashRightClickPerformers/stashRightClickPerformers.js:1128-1150 | the paging loop reads `result.scenes` without checking `result`; `fetchStashDBScenes` returns `null` on a failed request, so a `TypeError` escapes the click handler and `hideLoadingSpinner()` is never reached | a performer with a StashDB id whose first scene page fails (`replies == [None]`): `TypeError(1)` and the spinner stays on screen | a failed page reaches the `else` branch, which logs the failure and hides the spinner | not executed | MissingScenes.MissingScenesAsWritten | MissingScenes.MissingScenes |
| plugins/stashRightClickPerformers/stashRightClickPerformers.js:87-124 | `showLoadingSpinner(images)` starts the slideshow, whose first `showNextImage` reads `images[0].url`; `fetchPerformerImagesFromStashDB` returns `[]` when the performer has no StashDB data or the request fails, so a `TypeError` escapes the click handler before the spinner is displayed and before any scene is fetched | a performer with a StashDB id whose image query fails or returns no images (`imageCount == 0`): `SlideshowError`, no modal | the `[]` fallback is meant to be tolerated: the spinner is shown without an image and the search goes on | not executed | MissingScenes.MissingScenesAsWritten | MissingScenes.MissingScenes |
