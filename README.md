# Movie list: new-season tracking, alerts and series data, in Dafny

This project models the part of the movie-list web application that decides
when to tell the user about a new season of a series they watch, together with
the data transformations around it:

- the device-local **season tracker** (`lib/season-tracker.ts`): the map of
  tracked series with their last known season count, and the set of dismissed
  alert ids, both kept in `localStorage`;
- the **new-season checker** (`lib/season-checker.ts`): one check of one
  series, and the pass over every tracked series that collects alerts;
- the **TMDB gateway** (`lib/tmdb.ts`): the five-minute response cache, the
  guards and the media-type filter of `searchTMDB`, and the season mapping,
  filtering and ordering of `getFullSeriesData`;
- the **seen-state store** (`lib/episodes-api.ts`): the per-series Firestore
  document holding season and episode seen flags, and its read-modify-write
  updates;
- the **series card** (`components/series-card.tsx`): aggregation over the
  entries of a series, season progress, the order of displayed entries, the
  seen-map behind the season checkboxes and its optimistic toggle;
- the **autocomplete search** (`lib/searchTMDB.ts`): filtering, normalising
  and capping search hits;
- the **alert container** (`components/alert-container.tsx`): which alerts
  are shown.

Values the code computes without side effects are datatypes and functions.
Code that updates state is imperative:

- `localStorage` is the class `SeasonTracker.DeviceStorage`.
- The Firestore `series` collection is `EpisodesApi.SeriesStore`.
- The module-level TMDB cache is `Tmdb.ResponseCache`.
- The card's React state is `SeriesCard.SeriesCardState`.

Each method is proved against a specification function. The properties the
code promises are lemmas about those functions.

The outside world enters as parameters:

- **Clock.** The instant `now` (`Date.now()`, `new Date()`, `Timestamp.now()`). The TMDB search reads the clock twice: it checks the cache at `now`, and stores a fetched answer at a later instant, `storedAt`.
- **Season-count lookup.** `lookup: int -> Option<int>`, where None means the request threw.
- **Search response.** `response: HttpResponse`.
- **Per-season fetch.** `fetchSeason: int -> Result<RawSeason, TmdbError>`.
- **Firestore failures.** `fault: Option<StoreError>` for writes, `readFails: bool` for reads.
- **Entry dates.** `timeOf: string -> int` stands for `new Date(entryDate).getTime()`.

JavaScript's `Map` and plain objects used as dictionaries are insertion-ordered
association lists (`Assoc`). A `Set` filled by `add` is `Seqs.Dedup`.
`Array.filter` is `Seqs.Filter`. `Array.sort` is a stable insertion sort
(`Sorting.Sort`) that applies the source's comparator as written.

Module layout:

| file | module | content |
|---|---|---|
| base.dfy | Base | `Option`, `Result`, truthiness of optional strings, `\|\|` |
| text.dfy | Text | `String(n)`, `Number.parseInt`, `split("-")[0]` |
| seqs.dfy | Seqs | filter, Set insertion order, subsequences |
| assoc.dfy | Assoc | insertion-ordered dictionary (`Map`, object) |
| sorting.dfy | Sorting | `Array.sort` with a comparator; sortedness by key |
| season_tracker.dfy | SeasonTracker | `lib/season-tracker.ts` |
| season_checker.dfy | SeasonChecker | `lib/season-checker.ts` |
| tmdb.dfy | Tmdb | `lib/tmdb.ts` |
| episodes_api.dfy | EpisodesApi | `lib/episodes-api.ts` |
| series_card.dfy | SeriesCard | `components/series-card.tsx` |
| search_tmdb.dfy | TmdbSearch | `lib/searchTMDB.ts` |
| alert_container.dfy | AlertContainer | `components/alert-container.tsx` |

## Model

| member | source | states |
|---|---|---|
| Text.ParseIntOfIntToString | lib/season-tracker.ts:27-30 | Parsing the decimal key that `key.toString()` wrote gives back the number, for every integer id. |
| Text.IntToStringInjective | lib/season-tracker.ts:73-76 | Distinct ids are written under distinct property names. |
| Text.BeforeFirstDash | lib/tmdb.ts:264-268 | `split("-")[0]` is the dash-free prefix, ending at the first '-' or at the end of the text. |
| Assoc.Get | lib/season-tracker.ts:44-47 | A lookup misses exactly when the key is absent. |
| Assoc.Put | lib/season-tracker.ts:64-70 | `Map.set` stores the value under the key, leaves every other key's value alone, keeps the iteration order of an existing key, and keeps keys distinct. |
| Assoc.PutNew | lib/season-tracker.ts:74-76 | Setting a key that is absent appends it at the end of the iteration order. |
| Assoc.Remove | lib/season-tracker.ts:91-92 | `Map.delete` removes the key, leaves every other key alone, and changes nothing when the key is absent. |
| SeasonTracker.LoadFields | lib/season-tracker.ts:25-32 | The map built from the stored object's entries has distinct keys. |
| SeasonTracker.LoadFieldsEntries | lib/season-tracker.ts:27-32 | A series is loaded under id n exactly when some property's key parses to n and its value is truthy. What is loaded is the value of the last such property, since a later `map.set` replaces an earlier one. |
| SeasonTracker.SerializeTracker | lib/season-tracker.ts:73-76 | The written object has one property per tracked series, in map order, keyed by the decimal id. |
| SeasonTracker.LoadSerialize | lib/season-tracker.ts:17-38 | Reading back the object that was written gives exactly the map that was written. |
| SeasonTracker.ToStoredObject | lib/season-tracker.ts:72-76 | The `forEach` loop builds the serialised object. |
| SeasonTracker.Upsert | lib/season-tracker.ts:61-70 | The entry for the id gets the given id, name and count and the current instant. A non-empty cover image replaces the stored one; otherwise the existing entry's image is kept, or none for a new entry. Every other entry is unchanged. |
| SeasonTracker.DismissedIds | lib/season-tracker.ts:112-121 | The dismissed ids are duplicate-free and are exactly the stored ids when the item is an array; otherwise there are none. |
| SeasonTracker.DismissItem | lib/season-tracker.ts:131-134 | The written array holds exactly the old ids plus the new one. |
| SeasonTracker.DismissAddsToSet | lib/season-tracker.ts:127-134 | Dismissing adds exactly that one id to the dismissed set and keeps the earlier ones. |
| SeasonTracker.DismissItemIdempotent | lib/season-tracker.ts:127-138 | Dismissing the same alert twice stores what dismissing it once stores. |
| SeasonTracker.DeviceStorage.Tracked | lib/season-tracker.ts:17-38 | With no window, or an absent, empty or unparseable item, the tracked map is empty; it always has distinct keys. |
| SeasonTracker.DeviceStorage.GetTrackedSeries | lib/season-tracker.ts:17-38 | The loop over the stored entries returns the tracked map. |
| SeasonTracker.DeviceStorage.GetSeriesSeasonCount | lib/season-tracker.ts:44-47 | Returns the tracked entry of the id, or nothing. |
| SeasonTracker.DeviceStorage.SaveTracked | lib/season-tracker.ts:72-78 | After the write, the tracked map read back is exactly the map written, and the dismissed item is untouched. |
| SeasonTracker.DeviceStorage.UpdateSeriesSeasonCount | lib/season-tracker.ts:52-82 | The stored map becomes `Upsert` of the old one; without a window nothing changes. |
| SeasonTracker.DeviceStorage.RemoveTrackedSeries | lib/season-tracker.ts:87-104 | The stored map becomes the old one without that id; without a window nothing changes. |
| SeasonTracker.DeviceStorage.GetDismissedAlerts | lib/season-tracker.ts:109-122 | An id is dismissed exactly when a window exists and the stored array holds it. |
| SeasonTracker.DeviceStorage.DismissAlert | lib/season-tracker.ts:127-138 | The dismissed set gains exactly the alert id, and the tracker item is untouched. |
| SeasonTracker.DeviceStorage.ClearDismissedAlerts | lib/season-tracker.ts:143-151 | Afterwards no alert is dismissed. |
| SeasonTracker.UpdateThenGet | lib/season-tracker.ts:44-78 | After `updateSeriesSeasonCount`, `getSeriesSeasonCount` of that id returns the entry just written. |
| SeasonChecker.AlertIdsUnique | lib/season-checker.ts:45 | Two alert ids are equal only when series, season count and instant all agree (for non-negative ids and counts). |
| SeasonChecker.Poll | lib/season-checker.ts:19-70 | A check never adds or drops a tracked series. |
| SeasonChecker.PollSpec | lib/season-checker.ts:22-65 | An untracked series or a failed request changes nothing and raises no alert. Otherwise the entry is re-checked at `now`, keeps its name and cover image, and its baseline becomes the fetched count only when that is larger. An alert is raised exactly then, with `newSeasonNumber = totalSeasons =` the count and the tracker's name and cover image. No other series changes. |
| SeasonChecker.CheckForNewSeasons | lib/season-checker.ts:19-70 | The store update and the returned alert are those of `Poll`. An untracked series or a failed request writes nothing: the stored tracker item is exactly as before. The dismissed alerts are untouched. |
| SeasonChecker.PollAll | lib/season-checker.ts:75-95 | A pass keeps the set of tracked series. |
| SeasonChecker.CheckAllTrackedSeries | lib/season-checker.ts:75-95 | The loop checks every tracked series in tracker order, each against the store the previous checks left, and collects the alerts. |
| SeasonChecker.PollAllExtend | lib/season-checker.ts:80-86 | Checking one more series continues the pass from where it stood. |
| SeasonChecker.PollAllIsolatesSeries | lib/season-checker.ts:80-93 | Each series' new entry and alert depend only on its own entry and its own request, so one failing series does not affect the others. |
| SeasonChecker.ExpectedAlertsAreFiltered | lib/season-checker.ts:80-93 | The alerted series are exactly the checked series whose count rose, in order. |
| SeasonChecker.CheckAllAlerts | lib/season-checker.ts:75-95 | The pass raises at most one alert per tracked series, in tracker order, exactly for the series whose count rose, and no baseline goes down. |
| SeasonChecker.BaselineIsRunningMax | lib/season-checker.ts:35-63 | Over any sequence of checks, the stored baseline is the maximum of the starting baseline and every count fetched so far, so it never decreases. |
| SeasonChecker.RunningMaxCons | lib/season-checker.ts:35-63 | The running maximum after the first count continues into the running maximum of the remaining counts. |
| SeasonChecker.BaselineScenario | lib/season-checker.ts:35-63 | Fetched counts 3, 3, 5, 4 against a baseline of 3 leave baselines 3, 3, 5, 5. |
| Tmdb.ImageUrl | lib/tmdb.ts:37-40 | There is no URL exactly when the poster path is absent or empty; otherwise the URL is the image base followed by the path. |
| Tmdb.Lookup | lib/tmdb.ts:10-21 | A read hits exactly when the key is stored and at most five minutes old, and then answers the stored data. An expired key is deleted; every other entry is untouched. |
| Tmdb.LookupAfterStore | lib/tmdb.ts:10-25 | After `setCached(k, d)`, reading k within five minutes answers d. |
| Tmdb.LookupAfterExpiry | lib/tmdb.ts:14-18 | Once five minutes have passed, reading k deletes it and misses. |
| Tmdb.ResponseCache.GetCached | lib/tmdb.ts:10-21 | The cache read answers and evicts as `Lookup` says. |
| Tmdb.ResponseCache.SetCached | lib/tmdb.ts:23-25 | The key now holds the data, stamped with the current instant; other keys are unchanged. |
| Tmdb.SearchMulti | lib/tmdb.ts:115-139 | A missing API key fails first, leaving the cache alone. A fresh cached answer is returned as is. A short uncached query answers no results and caches nothing. On a failed request the cache only loses an expired entry. No other cache key is added, removed or changed on any path. Cached and returned answers hold only movies and series. |
| Tmdb.SearchMultiFetched | lib/tmdb.ts:126-138 | A fetched answer keeps the response's order and holds every copy of each movie and series and nothing else (counted with multiplicity). It is cached with the instant `storedAt` at which the response arrived, which is no earlier than the cache lookup. |
| Tmdb.SearchMultiRepeat | lib/tmdb.ts:115-138 | Repeating a successful search within five minutes of storing its answer answers the same list, whatever the network would say. |
| Tmdb.SearchTmdb | lib/tmdb.ts:115-139 | The search with its cache reads and writes returns and leaves what `SearchMulti` says. |
| Tmdb.EpisodeTitle | lib/tmdb.ts:258 | An episode's title is its name when the name is non-empty. Otherwise it is "Episode " followed by the number, which parses back to the episode number. |
| Tmdb.MapEpisode | lib/tmdb.ts:256-261 | Number, id and air date are carried over. The title is never empty: it is the name when that is non-empty, otherwise "Episode " followed by text that parses back to the episode number. |
| Tmdb.SeasonYear | lib/tmdb.ts:263-268 | The year is taken before the first '-' of the season's air date. If that is absent it comes from the first episode's air date; if that is absent too, there is no year. |
| Tmdb.MapSeason | lib/tmdb.ts:255-277 | The season record keeps number, id and air date, and maps every episode in order, so every episode title is non-empty. The year is the part before the first '-' of the season's air date, else of the first episode's air date, else absent, and never contains '-'. |
| Tmdb.CompareSeasonsAgrees | lib/tmdb.ts:288-303 | For numeric years, the comparator orders seasons as the key (has a year, year, season number) does. |
| Tmdb.ArrangeSeasons | lib/tmdb.ts:285-303 | The arranged seasons are a permutation of the seasons that have episodes. |
| Tmdb.ArrangeSeasonsSorted | lib/tmdb.ts:285-303 | With numeric years, the arranged seasons have every season with a year first, by year ascending, then by season number ascending. |
| Tmdb.FetchSeasons | lib/tmdb.ts:254-282 | A successful fetch holds one season per number 1..`number_of_seasons`. |
| Tmdb.FetchSeasonsValues | lib/tmdb.ts:254-282 | Index n - 1 holds season n, mapped. |
| Tmdb.FetchSeasonsFailure | lib/tmdb.ts:282 | The fetch fails exactly when some season fails, and then with the first failure in season order. |
| Tmdb.FetchSeasonsStopsAt | lib/tmdb.ts:282 | Once a season fails after the earlier ones succeeded, the whole fetch fails with that error. |
| Tmdb.FullSeries | lib/tmdb.ts:246-320 | A failure of the details or of any season is rethrown. Otherwise the title and id come from the details, and the seasons are a permutation of the fetched seasons that have episodes. |
| Tmdb.FullSeriesSorted | lib/tmdb.ts:285-315 | When every fetched year is numeric, the returned seasons are in year-then-season order. |
| Tmdb.GetFullSeriesData | lib/tmdb.ts:246-320 | The loop over season numbers returns what `FullSeries` says. |
| EpisodesApi.WithSeason | lib/episodes-api.ts:149-167 | After the write, season n reads back as the written flag. Every other season entry and the whole episodes table are unchanged, and the document is stamped. |
| EpisodesApi.WithEpisode | lib/episodes-api.ts:36-58 | After the write, episode (s, e) reads back as the written flag. Every other episode of s, every other season's episodes and the season flags are unchanged, and the document is stamped. |
| EpisodesApi.WriteFailure | lib/episodes-api.ts:169-177 | A permission-denied error is rethrown with the dedicated message. Any other error is wrapped as "Failed to update …: " followed by its message, or by "Unknown error" when it has none. |
| EpisodesApi.SeenFlags | lib/episodes-api.ts:212-222 | The flags map has distinct keys. |
| EpisodesApi.CollectSeenFlags | lib/episodes-api.ts:218-222 | The `for…of` loop builds `SeenFlags`. |
| EpisodesApi.SeenFlagsEntries | lib/episodes-api.ts:218-222 | For any property names, n appears in the flags exactly when some name parses to n, and its flag is `seen === true` of the last such entry, as repeated `seenMap.set` leaves it. |
| EpisodesApi.SeenFlagsEmpty | lib/episodes-api.ts:117-124 | A table gives an empty flags map exactly when none of its property names parses as a number. |
| EpisodesApi.SeenFlagsOfCanonical | lib/episodes-api.ts:218-222 | With canonical names, season n appears in the flags exactly when the table stores it, with true exactly when its `seen` is exactly `true`. |
| EpisodesApi.SeenEpisodeFlags | lib/episodes-api.ts:107-127 | The map has distinct season keys, and every season in it has at least one episode flag. |
| EpisodesApi.SeenEpisodeFlagsEntries | lib/episodes-api.ts:113-127 | For any property names, season s appears exactly when some season name parses to s and that season's table has an episode name that parses as a number. It maps to the episode flags of the last such season. |
| EpisodesApi.SeenEpisodeFlagsOfCanonical | lib/episodes-api.ts:113-127 | With canonical season names, season s is absent when the table stores no season s. Otherwise it maps to that season's episode flags, unless none of its episode names parses as a number, in which case it is absent. |
| EpisodesApi.SeriesStore.SetSeasonSeen | lib/episodes-api.ts:140-178 | On success, the series' document becomes `WithSeason` of the old one and nothing is thrown. On failure, no document changes and the matching message is thrown. |
| EpisodesApi.SeriesStore.GetSeasonSeen | lib/episodes-api.ts:183-200 | The answer is true only when the document's season n holds exactly `true` and the read succeeds. |
| EpisodesApi.SeriesStore.GetAllSeenSeasons | lib/episodes-api.ts:206-230 | An absent document or a failed read gives the empty map; otherwise the result is `SeenFlags` of the season table. |
| EpisodesApi.SeriesStore.SetEpisodeSeen | lib/episodes-api.ts:26-68 | On success, the series' document becomes `WithEpisode` of the old one. On failure, no document changes and the matching message is thrown. |
| EpisodesApi.SeriesStore.GetEpisodeSeen | lib/episodes-api.ts:73-95 | The answer is true only when episode (s, e) holds exactly `true` and the read succeeds. |
| EpisodesApi.SeriesStore.GetAllSeenEpisodes | lib/episodes-api.ts:101-135 | An absent document or a failed read gives the empty map; otherwise the result is `SeenEpisodeFlags` of the episodes table. |
| EpisodesApi.SetThenGetAllSeasons | lib/episodes-api.ts:155-158 | After `setSeasonSeen(n, b)`, reading all seasons finds b for n and every other season's flag unchanged. |
| EpisodesApi.PutKeepsCanonical | lib/episodes-api.ts:155 | Writing under a number's decimal spelling keeps every numeric key in canonical form. |
| SeriesCard.PresentMembers | components/series-card.tsx:58-59 | A value is collected exactly when it is the non-empty platform (or status) of some entry. |
| SeriesCard.AllGenresMembers | components/series-card.tsx:62 | A genre is collected exactly when some entry lists it. |
| SeriesCard.AnyWatchAgainMeaning | components/series-card.tsx:54-61 | `hasWatchAgain` holds exactly when some entry is marked watch-again. |
| SeriesCard.MaxRatingIsMaximum | components/series-card.tsx:53-60 | `maxRating` is at least 0 and at least every rating, and it is 0 or one of the ratings. |
| SeriesCard.EntriesSnoc | components/series-card.tsx:57-63 | One more entry extends each collected quantity by what that entry contributes alone. |
| SeriesCard.AddGenres | components/series-card.tsx:62 | Adding the genres one by one gives the Set of the earlier genres followed by the new ones. |
| SeriesCard.Aggregate | components/series-card.tsx:50-72 | The aggregation returns the duplicate-free unions of truthy platforms, truthy statuses and all genres, each in first-seen order, together with the maximum rating and whether any entry is marked watch-again. |
| SeriesCard.UnionOfPresent | components/series-card.tsx:51-59 | The platforms (statuses) list holds each truthy value of some entry exactly once, and nothing else. |
| SeriesCard.UnionOfGenres | components/series-card.tsx:55-62 | The genres list holds each genre of some entry exactly once, and nothing else. |
| SeriesCard.Percentage | components/series-card.tsx:139 | The percentage is 100·watched/total rounded to the nearest integer, halves up, and 0 without seasons. It lies in [0, 100] when 0 ≤ watched ≤ total. |
| SeriesCard.ComputeProgress | components/series-card.tsx:124-141 | `total` is the number of listed seasons and `watched` the number of them flagged seen, so 0 ≤ watched ≤ total. The percentage is `Percentage` of them and lies in [0, 100]. |
| SeriesCard.UnlistedFlagIgnored | components/series-card.tsx:130-134 | The flag of a season that is not listed does not change which seasons count as watched. |
| SeriesCard.MarkSeenNeverLowersProgress | components/series-card.tsx:130-134 | Marking a season seen never lowers the watched count. |
| SeriesCard.CompareEntriesAgrees | components/series-card.tsx:149-154 | The comparator orders entries exactly as the key (has a season, season or entry time) does. |
| SeriesCard.EntriesForDisplay | components/series-card.tsx:144-155 | With TMDB details nothing is listed; otherwise the list is a permutation of the entries. |
| SeriesCard.EntriesForDisplaySorted | components/series-card.tsx:148-154 | Entries with a season come before entries without one, seasons ascending, and season-less entries follow by entry date. |
| SeriesCard.EntriesForDisplayStable | components/series-card.tsx:148-154 | The sort is stable: entries that tie (the same season, or no season and the same entry time) keep their order in `allSeriesEntries`. |
| Sorting.SortStable | components/series-card.tsx:149-154 | For every key, the elements with that key come out of the sort in the order they went in, whenever the comparator agrees with the key. |
| SeriesCard.SeriesCardState.IsSeasonSeen | components/series-card.tsx:183-185 | A season is seen exactly when the map stores `true` for it; an absent season is unseen. |
| SeriesCard.SeriesCardState.LoadSeenSeasons | components/series-card.tsx:107-121 | Without a TMDB id the map is kept; otherwise it is replaced by what `getAllSeenSeasons` answers. |
| SeriesCard.SeriesCardState.HandleSeasonToggle | components/series-card.tsx:157-181 | Without a TMDB id, or while an update runs, nothing changes. Otherwise season n ends as `!currentSeen` and the store records it; if the write throws, season n ends as `currentSeen` and the store is unchanged. Every other season keeps its flag, and the guard is released. |
| SeriesCard.FailedToggleRestoresView | components/series-card.tsx:173-176 | When `currentSeen` is what the card showed, a failed toggle leaves every season showing what it showed before. |
| TmdbSearch.ExtractYear | lib/searchTMDB.ts:38-41 | An absent or empty date gives "". Otherwise the year is the dash-free prefix of the date, ending at its first '-'. |
| TmdbSearch.ToMovieResult | lib/searchTMDB.ts:74-89 | The title is `title`, else `name`, else "Unknown", so it is never empty. The year comes from the release date, else the first air date. The type is Movie exactly for `media_type` "movie", and `mediaType` and `id` are carried over. `posterUrl` is null exactly when `poster_path` is falsy. |
| TmdbSearch.Search | lib/searchTMDB.ts:43-97 | A missing API key fails even for a short query. A query under two characters gives no results, whatever the network says. Of the two response shapes modelled, an HTTP error and a body with `results`, the search fails exactly on an HTTP error, with its status and body. At most ten results are returned. |
| TmdbSearch.SearchFetched | lib/searchTMDB.ts:69-92 | The results are the normalised first min(10, n) of the response's n movies and series, in the response's order. Each result is a Movie tagged "movie" or a Series tagged "tv". |
| TmdbSearch.SearchPrefix | lib/searchTMDB.ts:92 | The returned list is a prefix of the transformed list: a longer response only adds results after the ones shown. |
| AlertContainer.VisibleAlerts | components/alert-container.tsx:19-21 | An alert is visible exactly when its id is not dismissed, and the visible list keeps the alerts' order. Every copy of an undismissed alert is shown and no copy of a dismissed one (counted with multiplicity). |
| AlertContainer.NothingDismissedShowsAll | components/alert-container.tsx:19-21 | With nothing dismissed, every alert is shown in the given order. |
| AlertContainer.NothingRenderedIffAllDismissed | components/alert-container.tsx:24-26 | The container renders nothing exactly when every alert has been dismissed; otherwise it renders the visible alerts. |
| AlertContainer.DismissOneMore | components/alert-container.tsx:20 | Dismissing one more id hides exactly the alerts with that id and keeps the rest in place. |
| AlertContainer.DismissThenShow | components/alert-container.tsx:17-22 | Suppose the filtering effect runs again after `dismissAlert(id)`, because the `alerts` prop changed to an equal list or the container remounted. The container then shows the same alerts as before, except those with that id. |

## Left out

- JavaScript orders the integer-like properties of an object ascending, whatever their insertion order. The model keeps insertion order for objects as well as for `Map`s, so the order of `getTrackedSeries` entries after a reload, and the alert order that follows from it, are modelled as insertion order.
- `Number.parseInt` is modelled on an optional sign followed by decimal digits. Leading whitespace, and the `0x` prefix it also accepts, are not modelled.
- Stored JSON that parses to something other than an object (a number, an array, a string) is folded into "not an object".
- A truthy tracker property value that is not a tracker record (for example `{"7": 1}`) is still loaded by the `as SeriesSeasonTracker` cast. The model's property values are a record or a falsy value, so such a value is not represented.
- A dismissed-alerts item holding a JSON string ("ab" gives the ids "a" and "b" through `new Set`) or an array of non-strings (numbers become non-string ids) is not represented: the model's item is an array of strings, or a value that gives no ids. JSON parsing, stringifying and the ISO text of `lastChecked` are not modelled; `lastChecked` is the instant as a number.
- Failures of `localStorage.setItem` / `removeItem` (quota, private mode) are not modelled. Those writes always succeed.
- The 200 ms pause between checks in `checkAllTrackedSeries` is timing only and is left out.
- CheckAllTrackedSeries: one clock reading `now` serves every check of the pass. In the source each check reads the clock itself, 200 ms or more after the previous one, so the `lastChecked` instants and alert timestamps of one pass differ from series to series; the model does not capture those differences.
- The alert's `timestamp` and its id use the same instant `now`, although the source reads the clock twice.
- `Promise.all` over the season requests is modelled as an in-order, sequential fetch that stops at the first failure. Concurrency is not modelled.
- The in-place `filteredSeasons.sort` and the copy-then-sort of the displayed entries are modelled on values with a stable insertion sort, not in place. JavaScript's `Array.sort` is also stable, but its algorithm is not modelled.
- Tmdb.ArrangeSeasonsSorted, Tmdb.FullSeriesSorted: ordering is proved only when every season year parses as a number. With a non-numeric year the comparator is not a consistent order, so the result depends on the sort algorithm.
- SeriesCard.Percentage: `Math.round` over floating point is idealised as exact integer rounding with halves rounded up.
- `NaN` or missing ratings, and entry dates that do not parse (`getTime()` is `NaN`), are not modelled. Ratings are integers, and `timeOf` is a total function.
- `getAllSeasonsAndEpisodes`, `getTvDetails`, `getTvSeasons` and `getSeasonEpisodes` in lib/tmdb.ts are not part of this model, beyond the fetched records that `getFullSeriesData` receives.
- The TMDB cache holds values of any type in the source. Here one cache is modelled per payload type.
- A Firestore write with `merge: true` is modelled as replacing the fields it writes. Document creation, `getDoc`/`setDoc` and the collection path are left out.
- EpisodesApi.SetThenGetAllSeasons requires the season table's numeric keys to be the canonical decimal spellings the writers produce. A table edited by hand with keys such as "01" is not covered.
- SeenFlagsOfCanonical: stated for distinct, canonical keys only. Keys such as "01" or "3a", which `Number.parseInt` reads as 1 and 3, are covered by EpisodesApi.SeenFlagsEntries, where the last key read as n wins.
- A `null` season entry or episode entry makes `getAllSeenSeasons` / `getAllSeenEpisodes` throw on `.seen`, and their catch then returns the empty map. The model's table entries are always records, so this path is not modelled.
- `getAllSeenSeasons` and `getAllSeenEpisodes` swallow read errors themselves. The card effect's own catch, and the staleness of React state captured in `handleSeasonToggle`'s closure, are not modelled; the card's state is updated immediately.
- The `alert()` dialog on a failed toggle, all rendering, the loading effect that fetches TMDB details and seasons for the card, and the NewSeasonAlertCard component are left out.
- SeasonChecker.AlertIdsUnique: uniqueness is stated for non-negative series ids and season counts. A negative number printed with '-' could make ids ambiguous.
- TmdbSearch.Search: `query.length` counts UTF-16 code units, while the model counts characters. They differ only for characters outside the Basic Multilingual Plane.
- `getTMDBImageUrl` in lib/searchTMDB.ts is the same function as in lib/tmdb.ts, with the same image base. Both are modelled by Tmdb.ImageUrl.
- The network request, its URL and `encodeURIComponent`, the API key's environment variable and the error logging are left out; a response is a parameter.
- AlertContainer.DismissThenShow: the container filters `alerts` only in an effect that depends on `alerts` alone. After `dismissAlert(id)` and `onDismiss(id)`, the dismissed alert stays on screen until the parent passes a new `alerts` list or the container remounts. The model compares the two filtered lists, not what is on screen in between.
- SeriesCard.SeriesCardState.HandleSeasonToggle: the `isUpdating` guard is modelled only as an input flag. The method runs to completion at once and always leaves the guard released. Interleaving with the `await setSeasonSeen(...)` is not modelled, so the clicks the guard ignores during a write in flight do not appear.
- SeasonChecker.PollSpec: the season-count lookup is a pure parameter, so the model cannot say that an untracked series triggers no request. It states instead that an untracked series gives back the tracker unchanged and no alert, whatever count `fetched` holds.
- TmdbSearch.Search, Tmdb.SearchMulti: a rejected `fetch` (network failure) and a body without `results` also throw in the source. The modelled response is either an HTTP error or a body with a `results` list, so those two failures are not represented.
