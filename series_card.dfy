/**
 * components/series-card.tsx: what the card of one series computes from the
 * watch entries grouped under it and from the season list, and the seen-map
 * the season checkboxes edit. The React state hooks the card reads and
 * writes become the fields of SeriesCardState; the memoised computations are
 * methods that change nothing, each proved against a specification function.
 */
module SeriesCard {
  import opened Base
  import Seqs
  import Assoc
  import Sorting
  import EpisodesApi

  /**
   * One watch entry (a `Movie` of the list) with the optional fields the card
   * reads. `watchAgain` is false when the entry leaves it undefined; a season
   * or tmdbId of None is undefined.
   */
  datatype WatchEntry = WatchEntry(
    id: string,
    name: string,
    entryDate: string,
    rating: int,
    platform: Option<string>,
    status: Option<string>,
    genres: Option<seq<string>>,
    watchAgain: bool,
    tmdbId: Option<int>,
    season: Option<int>,
    episode: Option<int>,
    coverImage: Option<string>)

  /** The metadata gathered over all entries of the series. */
  datatype AggregatedData = AggregatedData(
    platforms: seq<string>,
    statuses: seq<string>,
    maxRating: int,
    hasWatchAgain: bool,
    genres: seq<string>)

  function PlatformOf(e: WatchEntry): Option<string> { e.platform }

  function StatusOf(e: WatchEntry): Option<string> { e.status }

  /** The truthy values of one optional field over the entries, in entry order, repeats kept. */
  function Present(entries: seq<WatchEntry>, field: WatchEntry -> Option<string>): seq<string>
    decreases |entries|
  {
    if entries == [] then []
    else
      var last := entries[|entries| - 1];
      Present(entries[..|entries| - 1], field) + (if Truthy(field(last)) then [field(last).value] else [])
  }

  lemma {:induction false} PresentMembers(entries: seq<WatchEntry>, field: WatchEntry -> Option<string>)
    ensures forall v :: v in Present(entries, field) <==>
      exists i :: 0 <= i < |entries| && field(entries[i]) == Some(v) && v != ""
    decreases |entries|
  {
    if entries != [] {
      var init := entries[..|entries| - 1];
      PresentMembers(init, field);
      assert forall i :: 0 <= i < |init| ==> init[i] == entries[i];
    }
  }

  /** `entry.genres` when it is defined, else nothing. */
  function GenresOf(e: WatchEntry): seq<string> {
    if e.genres.Some? then e.genres.value else []
  }

  /** Every genre of every entry, in entry order, repeats kept. */
  function AllGenres(entries: seq<WatchEntry>): seq<string>
    decreases |entries|
  {
    if entries == [] then []
    else AllGenres(entries[..|entries| - 1]) + GenresOf(entries[|entries| - 1])
  }

  lemma {:induction false} AllGenresMembers(entries: seq<WatchEntry>)
    ensures forall g :: g in AllGenres(entries) <==> exists i :: 0 <= i < |entries| && g in GenresOf(entries[i])
    decreases |entries|
  {
    if entries != [] {
      var init := entries[..|entries| - 1];
      AllGenresMembers(init);
      assert forall i :: 0 <= i < |init| ==> init[i] == entries[i];
    }
  }

  /** Some entry seen so far is marked watch-again. */
  function AnyWatchAgain(entries: seq<WatchEntry>): bool
    decreases |entries|
  {
    entries != [] && (AnyWatchAgain(entries[..|entries| - 1]) || entries[|entries| - 1].watchAgain)
  }

  lemma {:induction false} AnyWatchAgainMeaning(entries: seq<WatchEntry>)
    ensures AnyWatchAgain(entries) <==> exists i :: 0 <= i < |entries| && entries[i].watchAgain
    decreases |entries|
  {
    if entries != [] {
      var init := entries[..|entries| - 1];
      AnyWatchAgainMeaning(init);
      assert forall i :: 0 <= i < |init| ==> init[i] == entries[i];
    }
  }

  /** The rating kept by the loop: the larger of the running value and each rating in turn, from 0. */
  function MaxRating(entries: seq<WatchEntry>): int
    decreases |entries|
  {
    if entries == [] then 0
    else
      var m := MaxRating(entries[..|entries| - 1]);
      if entries[|entries| - 1].rating > m then entries[|entries| - 1].rating else m
  }

  /** MaxRating is the maximum of 0 and all ratings. */
  lemma {:induction false} MaxRatingIsMaximum(entries: seq<WatchEntry>)
    ensures 0 <= MaxRating(entries)
    ensures forall i :: 0 <= i < |entries| ==> entries[i].rating <= MaxRating(entries)
    ensures MaxRating(entries) == 0 || exists i :: 0 <= i < |entries| && entries[i].rating == MaxRating(entries)
    decreases |entries|
  {
    if entries != [] {
      var init := entries[..|entries| - 1];
      MaxRatingIsMaximum(init);
      assert forall i :: 0 <= i < |init| ==> init[i] == entries[i];
    }
  }

  /** One more entry extends Present, AllGenres and MaxRating by that entry alone. */
  lemma EntriesSnoc(entries: seq<WatchEntry>, i: int)
    requires 0 <= i < |entries|
    ensures Truthy(entries[i].platform) ==>
      Present(entries[..i + 1], PlatformOf) == Present(entries[..i], PlatformOf) + [entries[i].platform.value]
    ensures !Truthy(entries[i].platform) ==> Present(entries[..i + 1], PlatformOf) == Present(entries[..i], PlatformOf)
    ensures Truthy(entries[i].status) ==>
      Present(entries[..i + 1], StatusOf) == Present(entries[..i], StatusOf) + [entries[i].status.value]
    ensures !Truthy(entries[i].status) ==> Present(entries[..i + 1], StatusOf) == Present(entries[..i], StatusOf)
    ensures AllGenres(entries[..i + 1]) == AllGenres(entries[..i]) + GenresOf(entries[i])
    ensures entries[i].genres.None? ==> AllGenres(entries[..i + 1]) == AllGenres(entries[..i])
    ensures AnyWatchAgain(entries[..i + 1]) == (AnyWatchAgain(entries[..i]) || entries[i].watchAgain)
    ensures MaxRating(entries[..i + 1]) ==
      if entries[i].rating > MaxRating(entries[..i]) then entries[i].rating else MaxRating(entries[..i])
  {
    assert entries[..i + 1][..i] == entries[..i];
    assert Present(entries[..i], PlatformOf) + [] == Present(entries[..i], PlatformOf);
    assert Present(entries[..i], StatusOf) + [] == Present(entries[..i], StatusOf);
    assert AllGenres(entries[..i]) + [] == AllGenres(entries[..i]);
  }

  /** The genres forEach: each genre is added to the Set of genres in turn. */
  method AddGenres(genres: seq<string>, gs: seq<string>, ghost before: seq<string>) returns (r: seq<string>)
    requires genres == Seqs.Dedup(before)
    ensures r == Seqs.Dedup(before + gs)
  {
    r := genres;
    assert before + gs[..0] == before;
    for j := 0 to |gs|
      invariant r == Seqs.Dedup(before + gs[..j])
    {
      assert before + gs[..j + 1] == (before + gs[..j]) + [gs[j]];
      Seqs.DedupSnoc(before + gs[..j], gs[j]);
      r := if gs[j] in r then r else r + [gs[j]];
    }
    assert gs[..|gs|] == gs;
  }

  /**
   * aggregatedData: duplicate-free unions of the truthy platforms and
   * statuses and of all genres, each in first-seen order, the maximum of 0
   * and the ratings, and whether any entry is marked watch-again.
   */
  method Aggregate(entries: seq<WatchEntry>) returns (data: AggregatedData)
    ensures data.platforms == Seqs.Dedup(Present(entries, PlatformOf))
    ensures data.statuses == Seqs.Dedup(Present(entries, StatusOf))
    ensures data.genres == Seqs.Dedup(AllGenres(entries))
    ensures data.maxRating == MaxRating(entries)
    ensures data.hasWatchAgain == AnyWatchAgain(entries)
  {
    var platforms: seq<string> := [];
    var statuses: seq<string> := [];
    var maxRating := 0;
    var hasWatchAgain := false;
    var genres: seq<string> := [];
    for i := 0 to |entries|
      invariant platforms == Seqs.Dedup(Present(entries[..i], PlatformOf))
      invariant statuses == Seqs.Dedup(Present(entries[..i], StatusOf))
      invariant maxRating == MaxRating(entries[..i])
      invariant hasWatchAgain == AnyWatchAgain(entries[..i])
      invariant genres == Seqs.Dedup(AllGenres(entries[..i]))
    {
      var entry := entries[i];
      EntriesSnoc(entries, i);
      if Truthy(entry.platform) {
        Seqs.DedupSnoc(Present(entries[..i], PlatformOf), entry.platform.value);
        platforms := if entry.platform.value in platforms then platforms else platforms + [entry.platform.value];
      }
      if Truthy(entry.status) {
        Seqs.DedupSnoc(Present(entries[..i], StatusOf), entry.status.value);
        statuses := if entry.status.value in statuses then statuses else statuses + [entry.status.value];
      }
      if entry.rating > maxRating {
        maxRating := entry.rating;
      }
      if entry.watchAgain {
        hasWatchAgain := true;
      }
      if entry.genres.Some? {
        genres := AddGenres(genres, entry.genres.value, AllGenres(entries[..i]));
      }
    }
    assert entries[..|entries|] == entries;
    data := AggregatedData(platforms, statuses, maxRating, hasWatchAgain, genres);
  }

  /**
   * A union of one optional field (platforms, statuses) holds, once each,
   * exactly the truthy values of that field found in some entry.
   */
  lemma UnionOfPresent(entries: seq<WatchEntry>, field: WatchEntry -> Option<string>)
    ensures Seqs.Distinct(Seqs.Dedup(Present(entries, field)))
    ensures forall v :: v in Seqs.Dedup(Present(entries, field)) <==>
      exists i :: 0 <= i < |entries| && field(entries[i]) == Some(v) && v != ""
  {
    PresentMembers(entries, field);
    Seqs.DedupMembers(Present(entries, field));
  }

  /** The genre union holds, once each, exactly the genres listed by some entry. */
  lemma UnionOfGenres(entries: seq<WatchEntry>)
    ensures Seqs.Distinct(Seqs.Dedup(AllGenres(entries)))
    ensures forall g :: g in Seqs.Dedup(AllGenres(entries)) <==> exists i :: 0 <= i < |entries| && g in GenresOf(entries[i])
  {
    AllGenresMembers(entries);
    Seqs.DedupMembers(AllGenres(entries));
  }

  /** A season of the series as listed for the card; only its number is read. */
  datatype SeasonInfo = SeasonInfo(seasonNumber: int)

  datatype Progress = Progress(watched: int, total: int, percentage: int)

  /** `seenSeasons.get(n)` is truthy: the map holds true for season n. */
  predicate MarkedSeen(seen: Assoc.Assoc<int, bool>, n: int) {
    Assoc.Get(seen, n) == Some(true)
  }

  /** The test the progress count applies to each listed season. */
  function SeenTest(seen: Assoc.Assoc<int, bool>): SeasonInfo -> bool {
    (s: SeasonInfo) => MarkedSeen(seen, s.seasonNumber)
  }

  /**
   * `Math.round(watched / total * 100)` as integer round-half-up: the
   * nearest whole percentage, halves rounded up, and 0 with no seasons.
   */
  function Percentage(watched: int, total: int): (p: int)
    ensures total <= 0 ==> p == 0
    ensures total > 0 ==> 2 * total * p - total <= 200 * watched < 2 * total * p + total
    ensures 0 <= watched <= total ==> 0 <= p <= 100
  {
    if total > 0 then
      var n := 200 * watched + total;
      var d := 2 * total;
      var p := n / d;
      assert n == d * p + n % d && 0 <= n % d < d;
      if 0 <= watched <= total then
        assert d * 0 < d * (p + 1);
        LessAfterCancel(d, 0, p + 1);
        assert d * p < d * 101;
        LessAfterCancel(d, p, 101);
        p
      else p
    else 0
  }

  /** Cancelling a positive factor keeps a strict inequality. */
  lemma LessAfterCancel(a: int, x: int, y: int)
    requires a > 0 && a * x < a * y
    ensures x < y
  {
    MulMonotone(a, y, x);
  }

  lemma MulMonotone(a: int, x: int, y: int)
    requires a >= 0
    ensures x <= y ==> a * x <= a * y
  {
    if x <= y {
      assert a * y == a * x + a * (y - x);
    }
  }

  /**
   * progress: total is the number of listed seasons and watched the number
   * of them whose seen flag is set; flags of seasons not listed count for
   * nothing.
   */
  method ComputeProgress(seasons: seq<SeasonInfo>, seenSeasons: Assoc.Assoc<int, bool>) returns (progress: Progress)
    ensures progress.total == |seasons|
    ensures progress.watched == |Seqs.Filter(SeenTest(seenSeasons), seasons)|
    ensures 0 <= progress.watched <= progress.total
    ensures progress.percentage == Percentage(progress.watched, progress.total)
    ensures 0 <= progress.percentage <= 100
  {
    if |seasons| == 0 {
      return Progress(0, 0, 0);
    }
    var total := |seasons|;
    var watched := 0;
    for i := 0 to |seasons|
      invariant watched == |Seqs.Filter(SeenTest(seenSeasons), seasons[..i])|
    {
      assert seasons[..i + 1] == seasons[..i] + [seasons[i]];
      Seqs.FilterSnoc(SeenTest(seenSeasons), seasons[..i], seasons[i]);
      if Assoc.Get(seenSeasons, seasons[i].seasonNumber) == Some(true) {
        watched := watched + 1;
      }
    }
    assert seasons[..|seasons|] == seasons;
    progress := Progress(watched, total, if total > 0 then (200 * watched + total) / (2 * total) else 0);
  }

  /** Setting the flag of a season that is not listed leaves the watched seasons as they were. */
  lemma {:induction false} UnlistedFlagIgnored(seasons: seq<SeasonInfo>, seen: Assoc.Assoc<int, bool>, n: int, b: bool)
    requires forall i :: 0 <= i < |seasons| ==> seasons[i].seasonNumber != n
    ensures Seqs.Filter(SeenTest(Assoc.Put(seen, n, b)), seasons) == Seqs.Filter(SeenTest(seen), seasons)
  {
    var p := SeenTest(Assoc.Put(seen, n, b));
    var q := SeenTest(seen);
    forall i | 0 <= i < |seasons|
      ensures p(seasons[i]) == q(seasons[i])
    {
      assert Assoc.Get(Assoc.Put(seen, n, b), seasons[i].seasonNumber) == Assoc.Get(seen, seasons[i].seasonNumber);
    }
    Seqs.FilterAgree(p, q, seasons);
  }

  /** Marking a season seen never lowers the watched count. */
  lemma {:induction false} MarkSeenNeverLowersProgress(seasons: seq<SeasonInfo>, seen: Assoc.Assoc<int, bool>, n: int)
    ensures |Seqs.Filter(SeenTest(seen), seasons)| <= |Seqs.Filter(SeenTest(Assoc.Put(seen, n, true)), seasons)|
  {
    Seqs.FilterWeakerKeepsMore(SeenTest(seen), SeenTest(Assoc.Put(seen, n, true)), seasons);
  }

  /** `entry.season` is truthy: defined and not 0. */
  predicate HasSeason(e: WatchEntry) {
    e.season.Some? && e.season.value != 0
  }

  /**
   * The comparator of entriesForDisplay. `timeOf` stands for
   * `new Date(entryDate).getTime()`.
   */
  function CompareEntries(timeOf: string -> int): (WatchEntry, WatchEntry) -> int {
    (a: WatchEntry, b: WatchEntry) =>
      if HasSeason(a) && HasSeason(b) then a.season.value - b.season.value
      else if HasSeason(a) && !HasSeason(b) then -1
      else if !HasSeason(a) && HasSeason(b) then 1
      else timeOf(a.entryDate) - timeOf(b.entryDate)
  }

  /** Entries with a season first, by season; then the others, by entry date. */
  function EntryKey(timeOf: string -> int): WatchEntry -> Sorting.Key {
    (e: WatchEntry) => if HasSeason(e) then (0, e.season.value, 0) else (1, timeOf(e.entryDate), 0)
  }

  /** The comparator orders any two entries exactly as EntryKey does. */
  lemma CompareEntriesAgrees(timeOf: string -> int, a: WatchEntry, b: WatchEntry)
    ensures Sorting.Sign(CompareEntries(timeOf)(a, b)) == Sorting.KeyCmp(EntryKey(timeOf)(a), EntryKey(timeOf)(b))
  {
  }

  /** entriesForDisplay: nothing once TMDB details are loaded, else a sorted copy of the entries. */
  function EntriesForDisplay(hasTvDetails: bool, entries: seq<WatchEntry>, timeOf: string -> int): (r: seq<WatchEntry>)
    ensures hasTvDetails ==> r == []
    ensures !hasTvDetails ==> multiset(r) == multiset(entries)
  {
    if hasTvDetails then [] else Sorting.Sort(entries, CompareEntries(timeOf))
  }

  /**
   * Without TMDB details the displayed entries put every entry with a season
   * before every entry without one, seasons ascending, and the season-less
   * entries in entry-date order.
   */
  lemma EntriesForDisplaySorted(entries: seq<WatchEntry>, timeOf: string -> int)
    ensures var r := EntriesForDisplay(false, entries, timeOf);
      forall i, j :: 0 <= i < j < |r| ==>
        (HasSeason(r[j]) ==> HasSeason(r[i])) &&
        (HasSeason(r[i]) && HasSeason(r[j]) ==> r[i].season.value <= r[j].season.value) &&
        (!HasSeason(r[i]) && !HasSeason(r[j]) ==> timeOf(r[i].entryDate) <= timeOf(r[j].entryDate))
  {
    forall a, b | a in multiset(entries) && b in multiset(entries)
      ensures Sorting.Sign(CompareEntries(timeOf)(a, b)) == Sorting.KeyCmp(EntryKey(timeOf)(a), EntryKey(timeOf)(b))
    {
      CompareEntriesAgrees(timeOf, a, b);
    }
    Sorting.SortSorted(entries, CompareEntries(timeOf), EntryKey(timeOf));
    var r := EntriesForDisplay(false, entries, timeOf);
    forall i, j | 0 <= i < j < |r|
      ensures Sorting.KeyLe(EntryKey(timeOf)(r[i]), EntryKey(timeOf)(r[j]))
    {
    }
  }

  /**
   * `Array.prototype.sort` is stable: entries that tie (the same season, or
   * no season and the same entry time) are displayed in the order of
   * `allSeriesEntries`.
   */
  lemma EntriesForDisplayStable(entries: seq<WatchEntry>, timeOf: string -> int, k: Sorting.Key)
    ensures Seqs.Filter(Sorting.HasKey(EntryKey(timeOf), k), EntriesForDisplay(false, entries, timeOf))
      == Seqs.Filter(Sorting.HasKey(EntryKey(timeOf), k), entries)
  {
    forall a, b | a in multiset(entries) && b in multiset(entries)
      ensures Sorting.Sign(CompareEntries(timeOf)(a, b)) == Sorting.KeyCmp(EntryKey(timeOf)(a), EntryKey(timeOf)(b))
    {
      CompareEntriesAgrees(timeOf, a, b);
    }
    Sorting.SortStable(entries, CompareEntries(timeOf), EntryKey(timeOf), k);
  }

  /** The card's state: the series' TMDB id, the seen-map of its seasons, and the update guard. */
  class SeriesCardState {
    var tmdbId: Option<int>
    var seenSeasons: Assoc.Assoc<int, bool>
    var isUpdating: bool

    constructor(tmdbId: Option<int>)
      ensures this.tmdbId == tmdbId
      ensures seenSeasons == [] && !isUpdating
    {
      this.tmdbId := tmdbId;
      seenSeasons := [];
      isUpdating := false;
    }

    /** `series.tmdbId` is truthy. */
    predicate HasTmdbId()
      reads this
    {
      tmdbId.Some? && tmdbId.value != 0
    }

    /** isSeasonSeen: only a stored `true` counts; an absent season or `false` is unseen. */
    function IsSeasonSeen(seasonNumber: int): (seen: bool)
      reads this
      ensures seen ==> seasonNumber in Assoc.Keys(seenSeasons)
      ensures seen <==> Assoc.Get(seenSeasons, seasonNumber) == Some(true)
    {
      MarkedSeen(seenSeasons, seasonNumber)
    }

    /**
     * The effect that loads the seen seasons from the store; getAllSeenSeasons
     * absorbs read errors itself, so its result always replaces the map.
     */
    method LoadSeenSeasons(store: EpisodesApi.SeriesStore, readFails: bool)
      modifies this
      ensures tmdbId == old(tmdbId) && isUpdating == old(isUpdating)
      ensures !HasTmdbId() ==> seenSeasons == old(seenSeasons)
      ensures HasTmdbId() ==>
        (seenSeasons ==
          if readFails || store.Doc(tmdbId.value).None? then []
          else EpisodesApi.SeenFlags(EpisodesApi.SeasonsOf(store.Doc(tmdbId.value))))
    {
      if !HasTmdbId() {
        return;
      }
      var seen := store.GetAllSeenSeasons(tmdbId.value, readFails);
      seenSeasons := seen;
    }

    /**
     * handleSeasonToggle: ignored without a TMDB id or while an update is
     * running. Otherwise season n is set to the opposite of `currentSeen`
     * and written to the store; if the write throws (`fault`), season n is
     * set back to `currentSeen`. Every other season keeps its flag, and the
     * guard is released at the end.
     */
    method HandleSeasonToggle(store: EpisodesApi.SeriesStore, seasonNumber: int, currentSeen: bool, now: int,
                              fault: Option<EpisodesApi.StoreError>)
      modifies this, store
      ensures tmdbId == old(tmdbId)
      ensures !HasTmdbId() || old(isUpdating) ==>
        seenSeasons == old(seenSeasons) && isUpdating == old(isUpdating) && store.docs == old(store.docs)
      ensures HasTmdbId() && !old(isUpdating) ==>
        !isUpdating &&
        seenSeasons == Assoc.Put(old(seenSeasons), seasonNumber, if fault.None? then !currentSeen else currentSeen)
      ensures HasTmdbId() && !old(isUpdating) && fault.None? ==>
        store.docs == old(store.docs)[tmdbId.value :=
          EpisodesApi.WithSeason(old(store.Doc(tmdbId.value)), seasonNumber, !currentSeen, now)]
      ensures HasTmdbId() && !old(isUpdating) && fault.None? ==>
        IsSeasonSeen(seasonNumber) == EpisodesApi.SeasonSeen(store.Doc(tmdbId.value), seasonNumber)
      ensures fault.Some? ==> store.docs == old(store.docs)
      ensures forall k :: k != seasonNumber ==> Assoc.Get(seenSeasons, k) == Assoc.Get(old(seenSeasons), k)
    {
      if !HasTmdbId() || isUpdating {
        return;
      }
      isUpdating := true;
      var newSeen := !currentSeen;
      var before := seenSeasons;
      seenSeasons := Assoc.Put(before, seasonNumber, newSeen);
      var thrown := store.SetSeasonSeen(tmdbId.value, seasonNumber, newSeen, now, fault);
      if thrown.Some? {
        seenSeasons := Assoc.Put(before, seasonNumber, currentSeen);
      }
      isUpdating := false;
    }
  }

  /**
   * When `currentSeen` is what the card showed, a failed toggle leaves every
   * season, season n included, showing what it showed before.
   */
  lemma FailedToggleRestoresView(seen: Assoc.Assoc<int, bool>, n: int, currentSeen: bool)
    requires MarkedSeen(seen, n) == currentSeen
    ensures forall k :: MarkedSeen(Assoc.Put(seen, n, currentSeen), k) == MarkedSeen(seen, k)
  {
    forall k
      ensures MarkedSeen(Assoc.Put(seen, n, currentSeen), k) == MarkedSeen(seen, k)
    {
      if k == n && !currentSeen {
        assert Assoc.Get(seen, n) != Some(true);
      }
    }
  }
}
