/**
 * lib/episodes-api.ts: per-series seen flags kept in one document of the
 * `series` collection, `{ seasons: {n: {seen, updatedAt}}, episodes: {s: {e:
 * {seen, updatedAt}}}, updatedAt }`. The collection is a class whose field maps
 * a series id to its document; object properties are insertion-ordered
 * dictionaries keyed by the decimal spelling of the number. A failing read or
 * write is a parameter; `Timestamp.now()` is the clock reading `now`.
 */
module EpisodesApi {
  import opened Base
  import opened Text
  import Assoc

  /** The stored `seen` value: `seen === true` holds only for SeenTrue. */
  datatype SeenValue = SeenTrue | SeenFalse | SeenOther

  datatype SeenRecord = SeenRecord(seen: SeenValue, updatedAt: int)

  /** `{ [number]: {seen, updatedAt} }` */
  type RecordTable = Assoc.Assoc<string, SeenRecord>

  /** `{ [seasonNumber]: { [episodeNumber]: {seen, updatedAt} } }` */
  type EpisodeTable = Assoc.Assoc<string, RecordTable>

  /** A series document; a missing field is None. */
  datatype SeriesDoc = SeriesDoc(seasons: Option<RecordTable>, episodes: Option<EpisodeTable>, updatedAt: Option<int>)

  /** What a Firestore call throws. */
  datatype StoreError = StoreError(code: string, message: Option<string>)

  const PermissionDeniedMessage := "Firestore permission denied. "
    + "Please update your Firestore Security Rules to allow read/write access to the 'series' collection."

  /** The property name a number is stored under. */
  function Key(n: int): string {
    IntToString(n)
  }

  function SeenOf(b: bool): SeenValue {
    if b then SeenTrue else SeenFalse
  }

  /** `currentData.seasons || {}` */
  function SeasonsOf(doc: Option<SeriesDoc>): RecordTable {
    if doc.Some? && doc.value.seasons.Some? then doc.value.seasons.value else []
  }

  /** `currentData.episodes || {}` */
  function EpisodesOf(doc: Option<SeriesDoc>): EpisodeTable {
    if doc.Some? && doc.value.episodes.Some? then doc.value.episodes.value else []
  }

  /** `episodes[s] || {}` */
  function EpisodesOfSeason(doc: Option<SeriesDoc>, seasonNumber: int): RecordTable {
    match Assoc.Get(EpisodesOf(doc), Key(seasonNumber))
    case None => []
    case Some(table) => table
  }

  /** `seasons[n]?.seen === true`, false for a missing document or season. */
  predicate SeasonSeen(doc: Option<SeriesDoc>, seasonNumber: int) {
    var entry := Assoc.Get(SeasonsOf(doc), Key(seasonNumber));
    doc.Some? && entry.Some? && entry.value.seen == SeenTrue
  }

  /** `episodes[s]?.[e]?.seen === true`, false for a missing document, season or episode. */
  predicate EpisodeSeen(doc: Option<SeriesDoc>, seasonNumber: int, episodeNumber: int) {
    var entry := Assoc.Get(EpisodesOfSeason(doc, seasonNumber), Key(episodeNumber));
    doc.Some? && entry.Some? && entry.value.seen == SeenTrue
  }

  /**
   * The document after setSeasonSeen's read-modify-write: season n records
   * `seen`, every other season and the episodes are as they were.
   */
  function WithSeason(doc: Option<SeriesDoc>, seasonNumber: int, seen: bool, now: int): (r: SeriesDoc)
    ensures SeasonSeen(Some(r), seasonNumber) == seen
    ensures forall k :: k != Key(seasonNumber) ==> Assoc.Get(SeasonsOf(Some(r)), k) == Assoc.Get(SeasonsOf(doc), k)
    ensures EpisodesOf(Some(r)) == EpisodesOf(doc)
    ensures r.updatedAt == Some(now)
    ensures Assoc.DistinctKeys(SeasonsOf(doc)) ==> Assoc.DistinctKeys(SeasonsOf(Some(r)))
  {
    var seasons := Assoc.Put(SeasonsOf(doc), Key(seasonNumber), SeenRecord(SeenOf(seen), now));
    match doc
    case None => SeriesDoc(Some(seasons), None, Some(now))
    case Some(d) => d.(seasons := Some(seasons), updatedAt := Some(now))
  }

  /**
   * The document after setEpisodeSeen's read-modify-write: season s is
   * created when missing, episode e records `seen`, every other episode of s,
   * every other season and the season flags are as they were.
   */
  function WithEpisode(doc: Option<SeriesDoc>, seasonNumber: int, episodeNumber: int, seen: bool, now: int): (r: SeriesDoc)
    ensures EpisodeSeen(Some(r), seasonNumber, episodeNumber) == seen
    ensures forall k :: k != Key(episodeNumber) ==>
      Assoc.Get(EpisodesOfSeason(Some(r), seasonNumber), k) == Assoc.Get(EpisodesOfSeason(doc, seasonNumber), k)
    ensures forall k :: k != Key(seasonNumber) ==> Assoc.Get(EpisodesOf(Some(r)), k) == Assoc.Get(EpisodesOf(doc), k)
    ensures SeasonsOf(Some(r)) == SeasonsOf(doc)
    ensures r.updatedAt == Some(now)
  {
    var season := Assoc.Put(EpisodesOfSeason(doc, seasonNumber), Key(episodeNumber), SeenRecord(SeenOf(seen), now));
    var episodes := Assoc.Put(EpisodesOf(doc), Key(seasonNumber), season);
    var r := if doc.None? then SeriesDoc(None, Some(episodes), Some(now))
             else doc.value.(episodes := Some(episodes), updatedAt := Some(now));
    assert EpisodesOf(Some(r)) == episodes && SeasonsOf(Some(r)) == SeasonsOf(doc);
    assert EpisodesOfSeason(Some(r), seasonNumber) == season;
    r
  }

  /** The message a failed write is rethrown with; `what` is "season" or "episode". */
  function WriteFailure(what: string, e: StoreError): (message: string)
    ensures message == PermissionDeniedMessage <==> e.code == "permission-denied"
    ensures e.code != "permission-denied" ==>
      var lead := "Failed to update " + what + ": ";
      && lead <= message
      && message[|lead|..] == if Truthy(e.message) then e.message.value else "Unknown error"
  {
    if e.code == "permission-denied" then PermissionDeniedMessage
    else
      var m := "Failed to update " + what + ": " + (if Truthy(e.message) then e.message.value else "Unknown error");
      assert m[1] == 'a' && PermissionDeniedMessage[1] == 'i';
      m
  }

  /** Every number-like property name is the canonical spelling of its number, as the writers produce. */
  predicate CanonicalKeys<V>(table: Assoc.Assoc<string, V>) {
    forall i :: 0 <= i < |table| && ParseInt(table[i].0).Some? ==> table[i].0 == Key(ParseInt(table[i].0).value)
  }

  /** The map the loop over `Object.entries` builds: numeric keys only, each to `seen === true`. */
  function SeenFlags(table: RecordTable): (m: Assoc.Assoc<int, bool>)
    ensures Assoc.DistinctKeys(m)
  {
    if table == [] then []
    else
      var flags := SeenFlags(table[..|table| - 1]);
      var (key, record) := table[|table| - 1];
      match ParseInt(key)
      case None => flags
      case Some(n) => Assoc.Put(flags, n, record.seen == SeenTrue)
  }

  /** The `for…of` loop over a table's entries that fills a seen map. */
  method CollectSeenFlags(table: RecordTable) returns (seenMap: Assoc.Assoc<int, bool>)
    ensures seenMap == SeenFlags(table)
  {
    seenMap := [];
    var i := 0;
    while i < |table|
      invariant 0 <= i <= |table|
      invariant seenMap == SeenFlags(table[..i])
    {
      assert table[..i + 1][..i] == table[..i];
      var key, record := table[i].0, table[i].1;
      var n := ParseInt(key);
      if n.Some? {
        seenMap := Assoc.Put(seenMap, n.value, record.seen == SeenTrue);
      }
      i := i + 1;
    }
    assert table[..i] == table;
  }

  /**
   * With distinct, canonical keys the flags map holds for n exactly what the
   * table stores under n: present iff stored, true iff `seen === true`.
   */
  lemma {:induction false} SeenFlagsOfCanonical(table: RecordTable, n: int)
    requires Assoc.DistinctKeys(table) && CanonicalKeys(table)
    ensures Assoc.Get(SeenFlags(table), n) ==
      match Assoc.Get(table, Key(n))
      case None => None
      case Some(record) => Some(record.seen == SeenTrue)
  {
    if table != [] {
      var init := table[..|table| - 1];
      var (key, record) := table[|table| - 1];
      assert table == init + [(key, record)];
      assert Assoc.DistinctKeys(init) && CanonicalKeys(init);
      assert key !in Assoc.Keys(init);
      SeenFlagsOfCanonical(init, n);
      Assoc.GetSnoc(init, key, record, Key(n));
      ParseIntOfIntToString(n);
      if ParseInt(key).Some? {
        IntToStringInjective(ParseInt(key).value, n);
      }
    }
  }

  /** The entry at `i` has a property name that parseInt reads as `n`. */
  predicate NamesNumber<V>(table: Assoc.Assoc<string, V>, i: int, n: int)
    requires 0 <= i < |table|
  {
    ParseInt(table[i].0) == Some(n)
  }

  /** The entry at `i` is the last one whose name reads as `n`: no later `set` replaces it. */
  predicate LastNamesNumber<V>(table: Assoc.Assoc<string, V>, i: int, n: int)
    requires 0 <= i < |table|
  {
    NamesNumber(table, i, n) && forall j :: i < j < |table| ==> !NamesNumber(table, j, n)
  }

  /** An entry whose name does not read as `n` keeps the last one before it the last. */
  lemma LastNamesNumberSnoc<V>(table: Assoc.Assoc<string, V>, i: int, n: int)
    requires 0 <= i < |table| - 1
    requires LastNamesNumber(table[..|table| - 1], i, n) && !NamesNumber(table, |table| - 1, n)
    ensures LastNamesNumber(table, i, n)
  {
    var init := table[..|table| - 1];
    forall j | i <= j < |table| - 1
      ensures NamesNumber(table, j, n) == NamesNumber(init, j, n)
    {
      assert table[j] == init[j];
    }
  }

  /** One more entry of a table is read into the flags map, or skipped, on its own. */
  lemma SeenFlagsSnoc(table: RecordTable, key: string, record: SeenRecord)
    ensures SeenFlags(table + [(key, record)]) ==
      if ParseInt(key).Some? then Assoc.Put(SeenFlags(table), ParseInt(key).value, record.seen == SeenTrue)
      else SeenFlags(table)
  {
    assert (table + [(key, record)])[..|table|] == table;
  }

  /**
   * Whatever the property names: n is in the flags map exactly when some
   * name reads as n, and it holds `seen === true` of the last such entry,
   * as the repeated `seenMap.set` leaves it ("3", "03" and "3a" all read as 3).
   */
  lemma {:induction false} SeenFlagsEntries(table: RecordTable, n: int)
    ensures Assoc.Get(SeenFlags(table), n).Some? <==> exists i :: 0 <= i < |table| && NamesNumber(table, i, n)
    ensures Assoc.Get(SeenFlags(table), n).Some? ==>
      exists i :: 0 <= i < |table| && LastNamesNumber(table, i, n)
        && Assoc.Get(SeenFlags(table), n).value == (table[i].1.seen == SeenTrue)
  {
    if table != [] {
      var last := |table| - 1;
      var init := table[..last];
      assert table == init + [table[last]];
      SeenFlagsEntries(init, n);
      SeenFlagsSnoc(init, table[last].0, table[last].1);
      if NamesNumber(table, last, n) {
        assert LastNamesNumber(table, last, n);
      } else {
        assert Assoc.Get(SeenFlags(table), n) == Assoc.Get(SeenFlags(init), n);
        if Assoc.Get(SeenFlags(init), n).Some? {
          var i :| 0 <= i < last && LastNamesNumber(init, i, n)
            && Assoc.Get(SeenFlags(init), n).value == (init[i].1.seen == SeenTrue);
          LastNamesNumberSnoc(table, i, n);
          assert table[i] == init[i];
        }
        if exists i :: 0 <= i < |table| && NamesNumber(table, i, n) {
          var i :| 0 <= i < |table| && NamesNumber(table, i, n);
          assert i != last;
          assert init[i] == table[i];
          assert NamesNumber(init, i, n);
        }
      }
    }
  }

  /** A table gives an empty flags map exactly when none of its property names reads as a number. */
  lemma {:induction false} SeenFlagsEmpty(table: RecordTable)
    ensures SeenFlags(table) == [] <==> forall i :: 0 <= i < |table| ==> ParseInt(table[i].0).None?
  {
    if table != [] {
      var last := |table| - 1;
      var init := table[..last];
      assert table == init + [table[last]];
      SeenFlagsEmpty(init);
      SeenFlagsSnoc(init, table[last].0, table[last].1);
      if ParseInt(table[last].0).Some? {
        var n := ParseInt(table[last].0).value;
        assert Assoc.Get(SeenFlags(table), n).Some?;
      } else {
        forall i | 0 <= i < last
          ensures table[i] == init[i]
        {
        }
      }
    }
  }

  /** The per-season maps of getAllSeenEpisodes; seasons without a numeric episode key are left out. */
  function SeenEpisodeFlags(episodes: EpisodeTable): (m: Assoc.Assoc<int, Assoc.Assoc<int, bool>>)
    ensures Assoc.DistinctKeys(m)
    ensures forall i :: 0 <= i < |m| ==> |m[i].1| > 0
  {
    if episodes == [] then []
    else
      var seen := SeenEpisodeFlags(episodes[..|episodes| - 1]);
      var (key, table) := episodes[|episodes| - 1];
      var seasonMap := SeenFlags(table);
      match ParseInt(key)
      case None => seen
      case Some(n) =>
        if |seasonMap| > 0 then
          var r := Assoc.Put(seen, n, seasonMap);
          assert forall i :: 0 <= i < |r| ==> r[i] in seen || r[i] == (n, seasonMap) by {
            PutEntries(seen, n, seasonMap);
          }
          r
        else seen
  }

  /** One more season of the episodes table is read into the map, or skipped, on its own. */
  lemma SeenEpisodeFlagsSnoc(episodes: EpisodeTable, key: string, table: RecordTable)
    ensures SeenEpisodeFlags(episodes + [(key, table)]) ==
      if ParseInt(key).Some? && SeenFlags(table) != [] then Assoc.Put(SeenEpisodeFlags(episodes), ParseInt(key).value, SeenFlags(table))
      else SeenEpisodeFlags(episodes)
  {
    assert (episodes + [(key, table)])[..|episodes|] == episodes;
  }

  /** The season at `i` is one getAllSeenEpisodes sets under `s`: its name reads as `s` and it has a numeric episode key. */
  predicate ShowsSeason(episodes: EpisodeTable, i: int, s: int)
    requires 0 <= i < |episodes|
  {
    NamesNumber(episodes, i, s) && SeenFlags(episodes[i].1) != []
  }

  /** The season at `i` is the last one set under `s`. */
  predicate LastShowsSeason(episodes: EpisodeTable, i: int, s: int)
    requires 0 <= i < |episodes|
  {
    ShowsSeason(episodes, i, s) && forall j :: i < j < |episodes| ==> !ShowsSeason(episodes, j, s)
  }

  lemma LastShowsSeasonSnoc(episodes: EpisodeTable, i: int, s: int)
    requires 0 <= i < |episodes| - 1
    requires LastShowsSeason(episodes[..|episodes| - 1], i, s) && !ShowsSeason(episodes, |episodes| - 1, s)
    ensures LastShowsSeason(episodes, i, s)
  {
    var init := episodes[..|episodes| - 1];
    assert episodes[i] == init[i];
    forall j | i < j < |episodes|
      ensures !ShowsSeason(episodes, j, s)
    {
      if j < |episodes| - 1 {
        assert episodes[j] == init[j] && !ShowsSeason(init, j, s);
      }
    }
  }

  /**
   * Whatever the property names: season s is in the map exactly when some
   * season name reads as s and that season has an episode name that reads
   * as a number (SeenFlagsEmpty); it maps to the flags of the last such season.
   */
  lemma {:induction false} SeenEpisodeFlagsEntries(episodes: EpisodeTable, s: int)
    ensures Assoc.Get(SeenEpisodeFlags(episodes), s).Some? <==> exists i :: 0 <= i < |episodes| && ShowsSeason(episodes, i, s)
    ensures Assoc.Get(SeenEpisodeFlags(episodes), s).Some? ==>
      exists i :: 0 <= i < |episodes| && LastShowsSeason(episodes, i, s)
        && Assoc.Get(SeenEpisodeFlags(episodes), s).value == SeenFlags(episodes[i].1)
  {
    if episodes != [] {
      var last := |episodes| - 1;
      var init := episodes[..last];
      assert episodes == init + [episodes[last]];
      SeenEpisodeFlagsEntries(init, s);
      SeenEpisodeFlagsSnoc(init, episodes[last].0, episodes[last].1);
      if ShowsSeason(episodes, last, s) {
        assert LastShowsSeason(episodes, last, s);
      } else {
        assert Assoc.Get(SeenEpisodeFlags(episodes), s) == Assoc.Get(SeenEpisodeFlags(init), s);
        if Assoc.Get(SeenEpisodeFlags(init), s).Some? {
          var i :| 0 <= i < last && LastShowsSeason(init, i, s)
            && Assoc.Get(SeenEpisodeFlags(init), s).value == SeenFlags(init[i].1);
          LastShowsSeasonSnoc(episodes, i, s);
          assert episodes[i] == init[i];
        }
        if exists i :: 0 <= i < |episodes| && ShowsSeason(episodes, i, s) {
          var i :| 0 <= i < |episodes| && ShowsSeason(episodes, i, s);
          assert i != last;
          assert init[i] == episodes[i];
          assert ShowsSeason(init, i, s);
        }
      }
    }
  }

  /**
   * With distinct, canonical season names the map holds for season s the
   * flags of the table stored under s, unless that table has no numeric
   * episode name; a season not stored is absent.
   */
  lemma {:induction false} SeenEpisodeFlagsOfCanonical(episodes: EpisodeTable, s: int)
    requires Assoc.DistinctKeys(episodes) && CanonicalKeys(episodes)
    ensures Assoc.Get(SeenEpisodeFlags(episodes), s) ==
      match Assoc.Get(episodes, Key(s))
      case None => None
      case Some(table) => if SeenFlags(table) == [] then None else Some(SeenFlags(table))
  {
    if episodes != [] {
      var init := episodes[..|episodes| - 1];
      var (key, table) := episodes[|episodes| - 1];
      assert episodes == init + [(key, table)];
      assert Assoc.DistinctKeys(init) && CanonicalKeys(init);
      assert key !in Assoc.Keys(init);
      SeenEpisodeFlagsOfCanonical(init, s);
      SeenEpisodeFlagsSnoc(init, key, table);
      Assoc.GetSnoc(init, key, table, Key(s));
      ParseIntOfIntToString(s);
      if ParseInt(key).Some? {
        IntToStringInjective(ParseInt(key).value, s);
      }
    }
  }

  /** Every pair of a Put result is an old pair or the new one. */
  lemma {:induction false} PutEntries<V>(a: Assoc.Assoc<int, V>, k: int, v: V)
    ensures forall i :: 0 <= i < |Assoc.Put(a, k, v)| ==> Assoc.Put(a, k, v)[i] in a || Assoc.Put(a, k, v)[i] == (k, v)
  {
    if a != [] && a[0].0 != k {
      PutEntries(a[1..], k, v);
      var r := Assoc.Put(a, k, v);
      forall i | 0 <= i < |r|
        ensures r[i] in a || r[i] == (k, v)
      {
        if i > 0 {
          assert r[i] == Assoc.Put(a[1..], k, v)[i - 1];
        }
      }
    }
  }

  /** The `series` collection: series id to document. */
  class SeriesStore {
    var docs: map<int, SeriesDoc>

    constructor()
      ensures docs == map[]
    {
      docs := map[];
    }

    /** `getDoc(series/{id})`: the document, if it exists. */
    function Doc(seriesId: int): Option<SeriesDoc>
      reads this
    {
      if seriesId in docs then Some(docs[seriesId]) else None
    }

    /** setSeasonSeen; `fault` is the error the read or the write throws, if any. */
    method SetSeasonSeen(seriesId: int, seasonNumber: int, seen: bool, now: int, fault: Option<StoreError>)
      returns (thrown: Option<string>)
      modifies this
      ensures fault.Some? ==> docs == old(docs) && thrown == Some(WriteFailure("season", fault.value))
      ensures fault.None? ==> thrown.None? && docs == old(docs)[seriesId := WithSeason(old(Doc(seriesId)), seasonNumber, seen, now)]
    {
      if fault.Some? {
        return Some(WriteFailure("season", fault.value));
      }
      var currentData := Doc(seriesId);
      var seasons := SeasonsOf(currentData);
      seasons := Assoc.Put(seasons, Key(seasonNumber), SeenRecord(SeenOf(seen), now));
      var merged := match currentData
        case None => SeriesDoc(Some(seasons), None, Some(now))
        case Some(d) => d.(seasons := Some(seasons), updatedAt := Some(now));
      docs := docs[seriesId := merged];
      return None;
    }

    /** getSeasonSeen; a failing read answers false. */
    method GetSeasonSeen(seriesId: int, seasonNumber: int, readFails: bool) returns (seen: bool)
      ensures seen == (!readFails && SeasonSeen(Doc(seriesId), seasonNumber))
    {
      if readFails {
        return false;
      }
      var seriesDoc := Doc(seriesId);
      if seriesDoc.Some? {
        var season := Assoc.Get(SeasonsOf(seriesDoc), Key(seasonNumber));
        return season.Some? && season.value.seen == SeenTrue;
      }
      return false;
    }

    /** getAllSeenSeasons; an absent document or a failing read gives the empty map. */
    method GetAllSeenSeasons(seriesId: int, readFails: bool) returns (seenMap: Assoc.Assoc<int, bool>)
      ensures seenMap == if readFails || Doc(seriesId).None? then [] else SeenFlags(SeasonsOf(Doc(seriesId)))
    {
      if readFails {
        return [];
      }
      var seriesDoc := Doc(seriesId);
      if seriesDoc.None? {
        return [];
      }
      seenMap := CollectSeenFlags(SeasonsOf(seriesDoc));
    }

    /** setEpisodeSeen; `fault` is the error the read or the write throws, if any. */
    method SetEpisodeSeen(seriesId: int, seasonNumber: int, episodeNumber: int, seen: bool, now: int, fault: Option<StoreError>)
      returns (thrown: Option<string>)
      modifies this
      ensures fault.Some? ==> docs == old(docs) && thrown == Some(WriteFailure("episode", fault.value))
      ensures fault.None? ==>
        thrown.None? && docs == old(docs)[seriesId := WithEpisode(old(Doc(seriesId)), seasonNumber, episodeNumber, seen, now)]
    {
      if fault.Some? {
        return Some(WriteFailure("episode", fault.value));
      }
      var currentData := Doc(seriesId);
      var episodes := EpisodesOf(currentData);
      var season := Assoc.Get(episodes, Key(seasonNumber));
      if season.None? {
        season := Some([]);
      }
      var updated := Assoc.Put(season.value, Key(episodeNumber), SeenRecord(SeenOf(seen), now));
      episodes := Assoc.Put(episodes, Key(seasonNumber), updated);
      var merged := match currentData
        case None => SeriesDoc(None, Some(episodes), Some(now))
        case Some(d) => d.(episodes := Some(episodes), updatedAt := Some(now));
      docs := docs[seriesId := merged];
      return None;
    }

    /** getEpisodeSeen; a failing read answers false. */
    method GetEpisodeSeen(seriesId: int, seasonNumber: int, episodeNumber: int, readFails: bool) returns (seen: bool)
      ensures seen == (!readFails && EpisodeSeen(Doc(seriesId), seasonNumber, episodeNumber))
    {
      if readFails {
        return false;
      }
      var seriesDoc := Doc(seriesId);
      if seriesDoc.Some? {
        var season := EpisodesOfSeason(seriesDoc, seasonNumber);
        var episode := Assoc.Get(season, Key(episodeNumber));
        return episode.Some? && episode.value.seen == SeenTrue;
      }
      return false;
    }

    /** getAllSeenEpisodes; an absent document or a failing read gives the empty map. */
    method GetAllSeenEpisodes(seriesId: int, readFails: bool) returns (seenMap: Assoc.Assoc<int, Assoc.Assoc<int, bool>>)
      ensures seenMap == if readFails || Doc(seriesId).None? then [] else SeenEpisodeFlags(EpisodesOf(Doc(seriesId)))
    {
      if readFails {
        return [];
      }
      seenMap := [];
      var seriesDoc := Doc(seriesId);
      if seriesDoc.Some? {
        var episodes := EpisodesOf(seriesDoc);
        var i := 0;
        while i < |episodes|
          invariant 0 <= i <= |episodes|
          invariant seenMap == SeenEpisodeFlags(episodes[..i])
        {
          assert episodes[..i + 1][..i] == episodes[..i];
          var seasonStr, seasonData := episodes[i].0, episodes[i].1;
          var seasonNumber := ParseInt(seasonStr);
          if seasonNumber.Some? {
            var seasonMap := CollectSeenFlags(seasonData);
            if |seasonMap| > 0 {
              seenMap := Assoc.Put(seenMap, seasonNumber.value, seasonMap);
            }
          }
          i := i + 1;
        }
        assert episodes[..i] == episodes;
      }
    }
  }

  /**
   * Writing a season flag into a document whose season table has distinct,
   * canonical keys and reading all flags back finds the written flag, and
   * every other season's flag unchanged.
   */
  lemma SetThenGetAllSeasons(doc: Option<SeriesDoc>, seasonNumber: int, seen: bool, now: int, other: int)
    requires Assoc.DistinctKeys(SeasonsOf(doc)) && CanonicalKeys(SeasonsOf(doc))
    ensures var after := SeenFlags(SeasonsOf(Some(WithSeason(doc, seasonNumber, seen, now))));
      && Assoc.Get(after, seasonNumber) == Some(seen)
      && (other != seasonNumber ==> Assoc.Get(after, other) == Assoc.Get(SeenFlags(SeasonsOf(doc)), other))
  {
    var before := SeasonsOf(doc);
    var table := SeasonsOf(Some(WithSeason(doc, seasonNumber, seen, now)));
    var written := SeenRecord(SeenOf(seen), now);
    assert table == Assoc.Put(before, Key(seasonNumber), written);
    PutKeepsCanonical(before, seasonNumber, written);
    SeenFlagsOfCanonical(table, seasonNumber);
    SeenFlagsOfCanonical(table, other);
    SeenFlagsOfCanonical(before, other);
    IntToStringInjective(other, seasonNumber);
  }

  /** Storing under a canonical key keeps the table canonical. */
  lemma {:induction false} PutKeepsCanonical<V>(table: Assoc.Assoc<string, V>, n: int, v: V)
    requires CanonicalKeys(table)
    ensures CanonicalKeys(Assoc.Put(table, Key(n), v))
  {
    ParseIntOfIntToString(n);
    if table != [] && table[0].0 != Key(n) {
      assert CanonicalKeys(table[1..]) by {
        forall i | 0 <= i < |table[1..]| && ParseInt(table[1..][i].0).Some?
          ensures table[1..][i].0 == Key(ParseInt(table[1..][i].0).value)
        {
          assert table[1..][i] == table[i + 1];
        }
      }
      PutKeepsCanonical(table[1..], n, v);
      var r := Assoc.Put(table, Key(n), v);
      forall i | 0 <= i < |r| && ParseInt(r[i].0).Some?
        ensures r[i].0 == Key(ParseInt(r[i].0).value)
      {
        if i > 0 {
          assert r[i] == Assoc.Put(table[1..], Key(n), v)[i - 1];
        }
      }
    }
  }
}
