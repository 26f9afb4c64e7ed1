/**
 * lib/tmdb.ts: the TMDB gateway. The module-level response cache is a class
 * with a TTL and lazy eviction; `searchTMDB`'s guards and media-type filter
 * work on an already-received response; `getFullSeriesData` maps, filters and
 * sorts already-fetched season records. HTTP requests are parameters: a
 * response value, or a function from season number to the season or the error.
 */
module Tmdb {
  import opened Base
  import opened Text
  import Seqs
  import Sorting

  const ImageBase := "https://image.tmdb.org/t/p/w500"

  /** Five minutes, in milliseconds. */
  const CacheDuration := 5 * 60 * 1000

  /** `getTMDBImageUrl`: no URL for an absent or empty path, else the image base followed by the path. */
  function ImageUrl(posterPath: Option<string>): (r: Option<string>)
    ensures r.None? <==> !Truthy(posterPath)
    ensures r.Some? ==> |ImageBase| < |r.value| && r.value[..|ImageBase|] == ImageBase
                        && r.value[|ImageBase|..] == posterPath.value
  {
    if !Truthy(posterPath) then None else Some(ImageBase + posterPath.value)
  }

  // ---------------------------------------------------------------- cache

  datatype CacheEntry<T> = CacheEntry(data: T, timestamp: int)

  type CacheMap<T> = map<string, CacheEntry<T>>

  /**
   * What `getCached(key)` returns at instant `now`, and the cache it leaves:
   * an entry older than the TTL is dropped and reported missing.
   */
  function Lookup<T>(entries: CacheMap<T>, key: string, now: int): (r: (Option<T>, CacheMap<T>))
    ensures r.0.Some? <==> key in entries && now - entries[key].timestamp <= CacheDuration
    ensures r.0.Some? ==> r.0.value == entries[key].data
    ensures key !in r.1 <==> key !in entries || r.0.None?
    ensures r.1.Keys <= entries.Keys
    ensures forall k :: k in r.1 ==> r.1[k] == entries[k]
    ensures forall k :: k != key ==> (k in r.1 <==> k in entries)
  {
    if key !in entries then (None, entries)
    else if now - entries[key].timestamp > CacheDuration then (None, entries - {key})
    else (Some(entries[key].data), entries)
  }

  /** Storing then reading a key answers the stored data for the next five minutes. */
  lemma LookupAfterStore<T>(entries: CacheMap<T>, key: string, data: T, now: int, later: int)
    requires now <= later <= now + CacheDuration
    ensures Lookup(entries[key := CacheEntry(data, now)], key, later) == (Some(data), entries[key := CacheEntry(data, now)])
  {
  }

  /** Once the TTL has passed, the entry is gone and a read misses. */
  lemma LookupAfterExpiry<T>(entries: CacheMap<T>, key: string, data: T, now: int, later: int)
    requires later > now + CacheDuration
    ensures Lookup(entries[key := CacheEntry(data, now)], key, later) == (None, entries - {key})
  {
    assert entries[key := CacheEntry(data, now)] - {key} == entries - {key};
  }

  /** The module-level response cache. */
  class ResponseCache<T> {
    var entries: CacheMap<T>

    constructor()
      ensures entries == map[]
    {
      entries := map[];
    }

    method GetCached(key: string, now: int) returns (data: Option<T>)
      modifies this
      ensures (data, entries) == Lookup(old(entries), key, now)
    {
      if key !in entries {
        return None;
      }
      var cached := entries[key];
      if now - cached.timestamp > CacheDuration {
        entries := entries - {key};
        return None;
      }
      return Some(cached.data);
    }

    method SetCached(key: string, data: T, now: int)
      modifies this
      ensures entries == old(entries)[key := CacheEntry(data, now)]
    {
      entries := entries[key := CacheEntry(data, now)];
    }
  }

  // --------------------------------------------------------------- search

  /** One item of a `/search/multi` response. */
  datatype RawResult = RawResult(
    id: int,
    title: Option<string>,
    name: Option<string>,
    releaseDate: Option<string>,
    firstAirDate: Option<string>,
    mediaType: string,
    posterPath: Option<string>)

  /** A received HTTP response: the parsed results, or the status and body of a failure. */
  datatype HttpResponse = Ok(results: seq<RawResult>) | HttpError(status: int, text: string)

  datatype TmdbError = MissingApiKey | ApiError(status: int, text: string)

  /** The message an ApiError is thrown with. */
  function ApiErrorMessage(status: int, text: string): string {
    "TMDB API error: " + IntToString(status) + " - " + text
  }

  predicate IsMovieOrTv(r: RawResult) {
    r.mediaType == "movie" || r.mediaType == "tv"
  }

  function SearchKey(query: string): string {
    "search:" + query
  }

  /** Every cached search answer holds only movies and series. */
  ghost predicate SearchCacheValid(entries: CacheMap<seq<RawResult>>) {
    forall k, i :: k in entries && 0 <= i < |entries[k].data| ==> IsMovieOrTv(entries[k].data[i])
  }

  /**
   * `searchTMDB(query)` in lib/tmdb.ts, with `response` standing for what the
   * request would receive: the outcome and the cache it leaves. A missing key
   * fails first; a cached answer is returned; a short query gives no results
   * and does not request anything. The cache is read at instant `now` and a
   * fetched answer is stored at the later instant `storedAt`, when the
   * response has arrived.
   */
  function SearchMulti(apiKey: Option<string>, entries: CacheMap<seq<RawResult>>, query: string,
                       response: HttpResponse, now: int, storedAt: int): (r: (Result<seq<RawResult>, TmdbError>, CacheMap<seq<RawResult>>))
    requires now <= storedAt
    ensures !Truthy(apiKey) ==> r == (Failure(MissingApiKey), entries)
    ensures Truthy(apiKey) && Lookup(entries, SearchKey(query), now).0.Some? ==>
      r == (Success(entries[SearchKey(query)].data), entries)
    ensures Truthy(apiKey) && Lookup(entries, SearchKey(query), now).0.None? && |query| < 2 ==>
      r.0 == Success([]) && SearchKey(query) !in r.1
    ensures r.0.Failure? ==> r.1 == entries || r.1 == entries - {SearchKey(query)}
    ensures forall k :: k != SearchKey(query) ==> (k in r.1 <==> k in entries) && (k in r.1 ==> r.1[k] == entries[k])
    ensures SearchCacheValid(entries) ==> SearchCacheValid(r.1)
    ensures SearchCacheValid(entries) && r.0.Success? ==> forall i :: 0 <= i < |r.0.value| ==> IsMovieOrTv(r.0.value[i])
  {
    if !Truthy(apiKey) then (Failure(MissingApiKey), entries)
    else
      var key := SearchKey(query);
      var (cached, entries') := Lookup(entries, key, now);
      if cached.Some? then (Success(cached.value), entries')
      else if |query| < 2 then (Success([]), entries')
      else match response
        case HttpError(status, text) => (Failure(ApiError(status, text)), entries')
        case Ok(results) =>
          var kept := Seqs.Filter(IsMovieOrTv, results);
          (Success(kept), entries'[key := CacheEntry(kept, storedAt)])
  }

  /**
   * A fetched answer keeps every copy of each movie and series of the
   * response, and nothing else, in their order; it is cached with the
   * instant the response arrived.
   */
  lemma SearchMultiFetched(apiKey: Option<string>, entries: CacheMap<seq<RawResult>>, query: string,
                           results: seq<RawResult>, now: int, storedAt: int)
    requires now <= storedAt
    requires Truthy(apiKey) && Lookup(entries, SearchKey(query), now).0.None? && |query| >= 2
    ensures var r := SearchMulti(apiKey, entries, query, Ok(results), now, storedAt);
      && r.0.Success?
      && Seqs.IsSubsequence(r.0.value, results)
      && (forall i :: 0 <= i < |results| && IsMovieOrTv(results[i]) ==> results[i] in r.0.value)
      && (forall x :: multiset(r.0.value)[x] == if IsMovieOrTv(x) then multiset(results)[x] else 0)
      && SearchKey(query) in r.1 && r.1[SearchKey(query)] == CacheEntry(r.0.value, storedAt)
  {
    Seqs.FilterIsSubsequence(IsMovieOrTv, results);
    Seqs.FilterCount(IsMovieOrTv, results);
  }

  /**
   * Repeating a successful fetched search within five minutes of storing its
   * answer answers the same list, whatever the network says.
   */
  lemma SearchMultiRepeat(apiKey: Option<string>, entries: CacheMap<seq<RawResult>>, query: string,
                          response: HttpResponse, response': HttpResponse, now: int, storedAt: int,
                          later: int, laterStored: int)
    requires now <= storedAt <= later <= laterStored
    requires Truthy(apiKey) && Lookup(entries, SearchKey(query), now).0.None? && |query| >= 2
    requires SearchMulti(apiKey, entries, query, response, now, storedAt).0.Success?
    requires later <= storedAt + CacheDuration
    ensures var first := SearchMulti(apiKey, entries, query, response, now, storedAt);
      SearchMulti(apiKey, first.1, query, response', later, laterStored).0 == first.0
  {
  }

  method SearchTmdb(cache: ResponseCache<seq<RawResult>>, apiKey: Option<string>, query: string,
                    response: HttpResponse, now: int, storedAt: int)
    returns (r: Result<seq<RawResult>, TmdbError>)
    requires now <= storedAt
    modifies cache
    ensures (r, cache.entries) == SearchMulti(apiKey, old(cache.entries), query, response, now, storedAt)
  {
    if !Truthy(apiKey) {
      return Failure(MissingApiKey);
    }
    var cacheKey := SearchKey(query);
    var cached := cache.GetCached(cacheKey, now);
    if cached.Some? {
      return Success(cached.value);
    }
    if |query| < 2 {
      return Success([]);
    }
    if response.HttpError? {
      return Failure(ApiError(response.status, response.text));
    }
    var results := Seqs.Filter(IsMovieOrTv, response.results);
    cache.SetCached(cacheKey, results, storedAt);
    return Success(results);
  }

  // ---------------------------------------------------- full series data

  datatype RawEpisode = RawEpisode(id: int, episodeNumber: int, name: Option<string>, airDate: Option<string>)

  datatype RawSeason = RawSeason(id: int, seasonNumber: int, airDate: Option<string>, episodes: seq<RawEpisode>)

  /** The part of `/tv/{id}` that getFullSeriesData reads. */
  datatype TvDetails = TvDetails(id: int, name: string, numberOfSeasons: int)

  datatype FullSeriesEpisode = FullSeriesEpisode(episodeNumber: int, title: string, airDate: Option<string>, tmdbEpisodeId: int)

  datatype FullSeriesSeason = FullSeriesSeason(
    seasonNumber: int,
    tmdbSeasonId: int,
    episodes: seq<FullSeriesEpisode>,
    year: Option<string>,
    airDate: Option<string>)

  datatype FullSeriesData = FullSeriesData(title: string, tmdbId: int, seasons: seq<FullSeriesSeason>)

  /** An episode's title: its name, or "Episode <n>" when the name is empty. */
  function EpisodeTitle(ep: RawEpisode): (title: string)
    ensures |title| > 0
    ensures Truthy(ep.name) ==> title == ep.name.value
    ensures !Truthy(ep.name) ==> |title| > 8 && title[..8] == "Episode " && ParseInt(title[8..]) == Some(ep.episodeNumber)
  {
    if Truthy(ep.name) then ep.name.value
    else
      var t := "Episode " + IntToString(ep.episodeNumber);
      ParseIntOfIntToString(ep.episodeNumber);
      assert t[8..] == IntToString(ep.episodeNumber);
      t
  }

  /** An episode record: number, id and air date carried over, and a non-empty title from EpisodeTitle's fallback. */
  function MapEpisode(ep: RawEpisode): (e: FullSeriesEpisode)
    ensures e.episodeNumber == ep.episodeNumber && e.tmdbEpisodeId == ep.id && e.airDate == ep.airDate
    ensures |e.title| > 0
    ensures Truthy(ep.name) ==> e.title == ep.name.value
    ensures !Truthy(ep.name) ==> |e.title| > 8 && e.title[..8] == "Episode " && ParseInt(e.title[8..]) == Some(ep.episodeNumber)
  {
    FullSeriesEpisode(ep.episodeNumber, EpisodeTitle(ep), ep.airDate, ep.id)
  }

  /** The year of a season: from its own air date, else from its first episode's, else none. */
  function SeasonYear(airDate: Option<string>, episodes: seq<FullSeriesEpisode>): (year: Option<string>)
    ensures Truthy(airDate) ==> year == Some(BeforeFirstDash(airDate.value))
    ensures !Truthy(airDate) && |episodes| > 0 && Truthy(episodes[0].airDate) ==>
      year == Some(BeforeFirstDash(episodes[0].airDate.value))
    ensures year.None? <==> !Truthy(airDate) && (|episodes| == 0 || !Truthy(episodes[0].airDate))
    ensures year.Some? ==> '-' !in year.value
  {
    if Truthy(airDate) then Some(BeforeFirstDash(airDate.value))
    else if |episodes| > 0 && Truthy(episodes[0].airDate) then Some(BeforeFirstDash(episodes[0].airDate.value))
    else None
  }

  /** The season record built from one fetched season. */
  function MapSeason(season: RawSeason): (s: FullSeriesSeason)
    ensures s.seasonNumber == season.seasonNumber && s.tmdbSeasonId == season.id && s.airDate == season.airDate
    ensures |s.episodes| == |season.episodes|
    ensures forall i :: 0 <= i < |s.episodes| ==> s.episodes[i] == MapEpisode(season.episodes[i])
    ensures s.year == SeasonYear(season.airDate, s.episodes)
    ensures forall i :: 0 <= i < |s.episodes| ==> |s.episodes[i].title| > 0
    ensures Truthy(season.airDate) ==> s.year == Some(BeforeFirstDash(season.airDate.value))
    ensures !Truthy(season.airDate) && |season.episodes| > 0 && Truthy(season.episodes[0].airDate) ==>
      s.year == Some(BeforeFirstDash(season.episodes[0].airDate.value))
    ensures s.year.None? <==> !Truthy(season.airDate) && (|season.episodes| == 0 || !Truthy(season.episodes[0].airDate))
    ensures s.year.Some? ==> '-' !in s.year.value
  {
    var episodes := seq(|season.episodes|, i requires 0 <= i < |season.episodes| => MapEpisode(season.episodes[i]));
    FullSeriesSeason(season.seasonNumber, season.id, episodes, SeasonYear(season.airDate, episodes), season.airDate)
  }

  predicate HasEpisodes(s: FullSeriesSeason) {
    |s.episodes| > 0
  }

  /** The comparator of getFullSeriesData, as written. */
  function CompareSeasons(a: FullSeriesSeason, b: FullSeriesSeason): int {
    var yearDiff :=
      if Truthy(a.year) && Truthy(b.year) then
        var yearA := ParseInt(a.year.value);
        var yearB := ParseInt(b.year.value);
        if yearA.Some? && yearB.Some? then yearA.value - yearB.value else 0
      else 0;
    if yearDiff != 0 then yearDiff
    else if Truthy(a.year) && !Truthy(b.year) then -1
    else if !Truthy(a.year) && Truthy(b.year) then 1
    else a.seasonNumber - b.seasonNumber
  }

  /** A season's year parses as a number whenever it is present. */
  predicate NumericYear(s: FullSeriesSeason) {
    Truthy(s.year) ==> ParseInt(s.year.value).Some?
  }

  /** Seasons with a year first, by year ascending, then by season number. */
  function SeasonKey(s: FullSeriesSeason): Sorting.Key {
    if Truthy(s.year) && ParseInt(s.year.value).Some?
    then (0, ParseInt(s.year.value).value, s.seasonNumber)
    else (1, 0, s.seasonNumber)
  }

  /** With numeric years the comparator orders seasons exactly as SeasonKey does. */
  lemma CompareSeasonsAgrees(a: FullSeriesSeason, b: FullSeriesSeason)
    requires NumericYear(a) && NumericYear(b)
    ensures Sorting.Sign(CompareSeasons(a, b)) == Sorting.KeyCmp(SeasonKey(a), SeasonKey(b))
  {
  }

  /** The filter-then-sort applied to the fetched seasons. */
  function ArrangeSeasons(seasons: seq<FullSeriesSeason>): (r: seq<FullSeriesSeason>)
    ensures multiset(r) == multiset(Seqs.Filter(HasEpisodes, seasons))
    ensures forall i :: 0 <= i < |r| ==> HasEpisodes(r[i])
  {
    var filtered := Seqs.Filter(HasEpisodes, seasons);
    var sorted := Sorting.Sort(filtered, CompareSeasons);
    forall i | 0 <= i < |sorted|
      ensures HasEpisodes(sorted[i])
    {
      assert sorted[i] in multiset(filtered);
    }
    sorted
  }

  /** When every year is numeric, the arranged seasons are in SeasonKey order. */
  lemma ArrangeSeasonsSorted(seasons: seq<FullSeriesSeason>)
    requires forall i :: 0 <= i < |seasons| ==> NumericYear(seasons[i])
    ensures Sorting.SortedByKey(ArrangeSeasons(seasons), SeasonKey)
  {
    var filtered := Seqs.Filter(HasEpisodes, seasons);
    forall a, b | a in multiset(filtered) && b in multiset(filtered)
      ensures Sorting.Sign(CompareSeasons(a, b)) == Sorting.KeyCmp(SeasonKey(a), SeasonKey(b))
    {
      CompareSeasonsAgrees(a, b);
    }
    Sorting.SortSorted(filtered, CompareSeasons, SeasonKey);
  }

  /**
   * The seasons 1..count fetched in order and mapped, or the first failure
   * (the in-order stand-in for `Promise.all`).
   */
  function FetchSeasons(fetchSeason: int -> Result<RawSeason, TmdbError>, count: int): (r: Result<seq<FullSeriesSeason>, TmdbError>)
    ensures r.Success? ==> |r.value| == (if count < 0 then 0 else count)
    decreases count
  {
    if count <= 0 then Success([])
    else
      var before := FetchSeasons(fetchSeason, count - 1);
      if before.Failure? then before
      else if fetchSeason(count).Failure? then Failure(fetchSeason(count).error)
      else
        Success(before.value + [MapSeason(fetchSeason(count).value)])
  }

  /** A successful fetch holds season n, mapped, at index n - 1. */
  lemma {:induction false} FetchSeasonsValues(fetchSeason: int -> Result<RawSeason, TmdbError>, count: int)
    ensures var r := FetchSeasons(fetchSeason, count);
      r.Success? ==> forall n :: 1 <= n <= |r.value| ==>
        fetchSeason(n).Success? && r.value[n - 1] == MapSeason(fetchSeason(n).value)
    decreases count
  {
    var r := FetchSeasons(fetchSeason, count);
    if count > 0 && r.Success? {
      FetchSeasonsValues(fetchSeason, count - 1);
      var before := FetchSeasons(fetchSeason, count - 1).value;
      forall n | 1 <= n <= |r.value|
        ensures fetchSeason(n).Success? && r.value[n - 1] == MapSeason(fetchSeason(n).value)
      {
        if n - 1 < |before| {
          assert r.value[n - 1] == before[n - 1];
        }
      }
    }
  }

  /** The fetch fails exactly when some season in 1..count fails, and then with the first such failure. */
  lemma {:induction false} FetchSeasonsFailure(fetchSeason: int -> Result<RawSeason, TmdbError>, count: int)
    ensures FetchSeasons(fetchSeason, count).Failure? <==> exists n :: 1 <= n <= count && fetchSeason(n).Failure?
    ensures FetchSeasons(fetchSeason, count).Failure? ==> exists n ::
      && 1 <= n <= count
      && fetchSeason(n) == Failure(FetchSeasons(fetchSeason, count).error)
      && forall m :: 1 <= m < n ==> fetchSeason(m).Success?
    decreases count
  {
    if count > 0 {
      FetchSeasonsFailure(fetchSeason, count - 1);
      var before := FetchSeasons(fetchSeason, count - 1);
      if before.Failure? {
        assert FetchSeasons(fetchSeason, count) == before;
      } else if fetchSeason(count).Failure? {
        assert FetchSeasons(fetchSeason, count) == Failure(fetchSeason(count).error);
        assert forall m :: 1 <= m < count ==> fetchSeason(m).Success?;
      } else {
        assert FetchSeasons(fetchSeason, count).Success?;
      }
    }
  }

  /** Once season `n` fails after 1..n-1 succeeded, the whole fetch fails with that error. */
  lemma {:induction false} FetchSeasonsStopsAt(fetchSeason: int -> Result<RawSeason, TmdbError>, n: int, count: int)
    requires 1 <= n <= count
    requires FetchSeasons(fetchSeason, n - 1).Success? && fetchSeason(n).Failure?
    ensures FetchSeasons(fetchSeason, count) == Failure(fetchSeason(n).error)
    decreases count
  {
    if count > n {
      FetchSeasonsStopsAt(fetchSeason, n, count - 1);
    }
  }

  /**
   * getFullSeriesData: the title and id from the details, and the non-empty
   * fetched seasons arranged; any failure is rethrown.
   */
  function FullSeries(details: Result<TvDetails, TmdbError>, fetchSeason: int -> Result<RawSeason, TmdbError>)
    : (r: Result<FullSeriesData, TmdbError>)
    ensures details.Failure? ==> r == Failure(details.error)
    ensures r.Success? ==>
      && details.Success?
      && FetchSeasons(fetchSeason, details.value.numberOfSeasons).Success?
      && r.value.title == details.value.name && r.value.tmdbId == details.value.id
      && multiset(r.value.seasons)
         == multiset(Seqs.Filter(HasEpisodes, FetchSeasons(fetchSeason, details.value.numberOfSeasons).value))
      && (forall i :: 0 <= i < |r.value.seasons| ==> HasEpisodes(r.value.seasons[i]))
  {
    match details
    case Failure(e) => Failure(e)
    case Success(tv) =>
      match FetchSeasons(fetchSeason, tv.numberOfSeasons)
      case Failure(e) => Failure(e)
      case Success(seasons) => Success(FullSeriesData(tv.name, tv.id, ArrangeSeasons(seasons)))
  }

  /** When every season fetched has a numeric year, the returned seasons are ordered by SeasonKey. */
  lemma FullSeriesSorted(details: Result<TvDetails, TmdbError>, fetchSeason: int -> Result<RawSeason, TmdbError>)
    requires FullSeries(details, fetchSeason).Success?
    requires forall n :: 1 <= n <= details.value.numberOfSeasons && fetchSeason(n).Success? ==>
      NumericYear(MapSeason(fetchSeason(n).value))
    ensures Sorting.SortedByKey(FullSeries(details, fetchSeason).value.seasons, SeasonKey)
  {
    var count := details.value.numberOfSeasons;
    var fetched := FetchSeasons(fetchSeason, count).value;
    FetchSeasonsValues(fetchSeason, count);
    forall i | 0 <= i < |fetched|
      ensures NumericYear(fetched[i])
    {
      assert fetchSeason(i + 1).Success? && fetched[i] == MapSeason(fetchSeason(i + 1).value);
    }
    assert FullSeries(details, fetchSeason).value.seasons == ArrangeSeasons(fetched);
    ArrangeSeasonsSorted(fetched);
  }

  method GetFullSeriesData(details: Result<TvDetails, TmdbError>, fetchSeason: int -> Result<RawSeason, TmdbError>)
    returns (r: Result<FullSeriesData, TmdbError>)
    ensures r == FullSeries(details, fetchSeason)
  {
    if details.Failure? {
      return Failure(details.error);
    }
    var tvDetails := details.value;
    var seasons: seq<FullSeriesSeason> := [];
    var seasonNum := 1;
    while seasonNum <= tvDetails.numberOfSeasons
      invariant 1 <= seasonNum <= (if tvDetails.numberOfSeasons < 1 then 1 else tvDetails.numberOfSeasons + 1)
      invariant FetchSeasons(fetchSeason, seasonNum - 1) == Success(seasons)
    {
      var season := fetchSeason(seasonNum);
      if season.Failure? {
        FetchSeasonsStopsAt(fetchSeason, seasonNum, tvDetails.numberOfSeasons);
        return Failure(season.error);
      }
      seasons := seasons + [MapSeason(season.value)];
      seasonNum := seasonNum + 1;
    }
    assert FetchSeasons(fetchSeason, tvDetails.numberOfSeasons) == Success(seasons);
    var filteredSeasons := Seqs.Filter(HasEpisodes, seasons);
    filteredSeasons := Sorting.Sort(filteredSeasons, CompareSeasons);
    return Success(FullSeriesData(tvDetails.name, tvDetails.id, filteredSeasons));
  }
}
