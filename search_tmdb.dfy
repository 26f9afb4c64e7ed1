/**
 * lib/searchTMDB.ts: the autocomplete search. The `/search/multi` request is
 * the parameter `response` (what the request would receive); everything
 * else is the filter / map / slice chain applied to its results.
 */
module TmdbSearch {
  import opened Base
  import opened Text
  import Seqs
  import Tmdb

  /** The `type` tag shown next to a result. */
  datatype Kind = Movie | Series

  /** `TMDBMovieResult`: one normalised search hit. */
  datatype MovieResult = MovieResult(
    id: int,
    title: string,
    year: string,
    kind: Kind,
    posterUrl: Option<string>,
    mediaType: string)

  /** The number of results an answer is cut to. */
  const MaxResults := 10

  /**
   * `extractYear`: nothing for an absent or empty date, otherwise the text
   * before its first '-' (the whole date when it has none).
   */
  function ExtractYear(dateString: Option<string>): (year: string)
    ensures !Truthy(dateString) ==> year == ""
    ensures Truthy(dateString) ==>
      && |year| <= |dateString.value| && year == dateString.value[..|year|]
      && '-' !in year
      && (|year| < |dateString.value| ==> dateString.value[|year|] == '-')
  {
    if !Truthy(dateString) then "" else BeforeFirstDash(dateString.value)
  }

  /** The `map` callback: title, year and type with their fallbacks, and the poster URL. */
  function ToMovieResult(r: Tmdb.RawResult): (m: MovieResult)
    ensures m.id == r.id && m.mediaType == r.mediaType
    ensures Truthy(r.title) ==> m.title == r.title.value
    ensures !Truthy(r.title) && Truthy(r.name) ==> m.title == r.name.value
    ensures !Truthy(r.title) && !Truthy(r.name) ==> m.title == "Unknown"
    ensures m.title != ""
    ensures ExtractYear(r.releaseDate) != "" ==> m.year == ExtractYear(r.releaseDate)
    ensures ExtractYear(r.releaseDate) == "" ==> m.year == ExtractYear(r.firstAirDate)
    ensures '-' !in m.year
    ensures m.kind == Movie <==> r.mediaType == "movie"
    ensures m.posterUrl == Tmdb.ImageUrl(r.posterPath)
    ensures m.posterUrl.None? <==> !Truthy(r.posterPath)
  {
    var title := OrElse(OrElse(r.title, r.name), Some("Unknown")).value;
    var year := OrElse(OrElse(Some(ExtractYear(r.releaseDate)), Some(ExtractYear(r.firstAirDate))), Some("")).value;
    MovieResult(r.id, title, year, if r.mediaType == "movie" then Movie else Series,
                Tmdb.ImageUrl(r.posterPath), r.mediaType)
  }

  /** `results.map(...)`. */
  function Transform(results: seq<Tmdb.RawResult>): (ms: seq<MovieResult>)
    ensures |ms| == |results|
    ensures forall i :: 0 <= i < |results| ==> ms[i] == ToMovieResult(results[i])
  {
    seq(|results|, i requires 0 <= i < |results| => ToMovieResult(results[i]))
  }

  /**
   * `searchTMDB(query)`: a missing API key fails before anything else; a
   * query of fewer than two characters answers no results whatever the
   * network would say; a failed request fails with its status and body;
   * otherwise at most ten normalised movies and series.
   */
  function Search(apiKey: Option<string>, query: string, response: Tmdb.HttpResponse)
    : (r: Result<seq<MovieResult>, Tmdb.TmdbError>)
    ensures !Truthy(apiKey) ==> r == Failure(Tmdb.MissingApiKey)
    ensures Truthy(apiKey) && |query| < 2 ==> r == Success([])
    ensures Truthy(apiKey) && |query| >= 2 ==> (r.Failure? <==> response.HttpError?)
    ensures Truthy(apiKey) && |query| >= 2 && response.HttpError? ==>
      r == Failure(Tmdb.ApiError(response.status, response.text))
    ensures r.Success? ==> |r.value| <= MaxResults
  {
    if !Truthy(apiKey) then Failure(Tmdb.MissingApiKey)
    else if |query| < 2 then Success([])
    else match response
      case HttpError(status, text) => Failure(Tmdb.ApiError(status, text))
      case Ok(results) =>
        var shown := Transform(Seqs.Filter(Tmdb.IsMovieOrTv, results));
        Success(shown[..if |shown| < MaxResults then |shown| else MaxResults])
  }

  /**
   * A received answer: the first ten movies and series of the response, in
   * the response's order, each normalised; people never appear.
   */
  lemma SearchFetched(apiKey: Option<string>, query: string, results: seq<Tmdb.RawResult>)
    requires Truthy(apiKey) && |query| >= 2
    ensures var r := Search(apiKey, query, Tmdb.Ok(results));
      var kept := Seqs.Filter(Tmdb.IsMovieOrTv, results);
      && r.Success?
      && Seqs.IsSubsequence(kept, results)
      && |r.value| == (if |kept| < MaxResults then |kept| else MaxResults)
      && (forall i :: 0 <= i < |r.value| ==> r.value[i] == ToMovieResult(kept[i]))
      && (forall i :: 0 <= i < |r.value| ==>
            (r.value[i].mediaType == "movie" && r.value[i].kind == Movie)
            || (r.value[i].mediaType == "tv" && r.value[i].kind == Series))
  {
    Seqs.FilterIsSubsequence(Tmdb.IsMovieOrTv, results);
  }

  /** Cutting to ten keeps a prefix: a longer response only adds results after the ones already shown. */
  lemma {:induction false} SearchPrefix(apiKey: Option<string>, query: string, results: seq<Tmdb.RawResult>, more: seq<Tmdb.RawResult>)
    requires Truthy(apiKey) && |query| >= 2
    ensures var r := Search(apiKey, query, Tmdb.Ok(results));
      var r' := Search(apiKey, query, Tmdb.Ok(results + more));
      && r.Success? && r'.Success?
      && |r.value| <= |r'.value|
      && r.value == r'.value[..|r.value|]
  {
    FilterAppend(results, more);
  }

  /** Filtering a concatenation extends the filtered front by more results. */
  lemma {:induction false} FilterAppend(s: seq<Tmdb.RawResult>, t: seq<Tmdb.RawResult>)
    ensures var f := Seqs.Filter(Tmdb.IsMovieOrTv, s);
      var g := Seqs.Filter(Tmdb.IsMovieOrTv, s + t);
      |f| <= |g| && f == g[..|f|]
  {
    if s != [] {
      assert (s + t)[0] == s[0] && (s + t)[1..] == s[1..] + t;
      FilterAppend(s[1..], t);
    }
  }
}
