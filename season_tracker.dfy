/**
 * lib/season-tracker.ts: the device-local stores behind new-season alerts.
 * localStorage is the object DeviceStorage; its two items are the tracker
 * baselines ("season-tracker") and the dismissed alert ids
 * ("dismissed-season-alerts"). Each item is kept as what JSON.parse makes of
 * the stored text.
 */
module SeasonTracker {
  import opened Base
  import opened Text
  import Seqs
  import Assoc

  const StorageKey := "season-tracker"
  const DismissedAlertsKey := "dismissed-season-alerts"

  /** The last season count seen for one series. `lastChecked` is the instant of the last check. */
  datatype SeriesSeasonTracker = SeriesSeasonTracker(
    tmdbId: int,
    seriesName: string,
    lastKnownSeasonCount: int,
    lastChecked: int,
    coverImage: Option<string>)

  /** The `Map<number, SeriesSeasonTracker>` that getTrackedSeries returns. */
  type TrackedMap = Assoc.Assoc<int, SeriesSeasonTracker>

  /** A property value of the stored object: a tracker record, or a falsy JSON value. */
  datatype StoredValue = Falsy | Record(tracker: SeriesSeasonTracker)

  /** What the tracker item holds. */
  datatype TrackerItem =
    | Missing        // getItem returned null
    | EmptyText      // the empty string
    | NotAnObject    // text JSON.parse rejects, or that parses to null or a number
    | TrackerObject(fields: Assoc.Assoc<string, StoredValue>)

  /** What the dismissed-alerts item holds. */
  datatype DismissedItem =
    | NoIds          // getItem returned null
    | BlankIds       // the empty string
    | NotAnArray     // text JSON.parse rejects, null, or a number, boolean or object, none of which `new Set` iterates
    | IdArray(ids: seq<string>)

  /** The map the forEach of getTrackedSeries builds from the stored object's entries. */
  function LoadFields(fields: Assoc.Assoc<string, StoredValue>): (m: TrackedMap)
    ensures Assoc.DistinctKeys(m)
  {
    if fields == [] then []
    else
      var prefix := LoadFields(fields[..|fields| - 1]);
      var (key, value) := fields[|fields| - 1];
      var id := ParseInt(key);
      if id.Some? && value.Record? then Assoc.Put(prefix, id.value, value.tracker) else prefix
  }

  /** The property at `i` is one the forEach loads under `id`. */
  predicate LoadsAs(fields: Assoc.Assoc<string, StoredValue>, i: int, id: int)
    requires 0 <= i < |fields|
  {
    ParseInt(fields[i].0) == Some(id) && fields[i].1.Record?
  }

  /** The property at `i` is the last one loaded under `id`: no later `map.set` replaces it. */
  predicate LastLoadedAs(fields: Assoc.Assoc<string, StoredValue>, i: int, id: int)
    requires 0 <= i < |fields|
  {
    LoadsAs(fields, i, id) && forall j :: i < j < |fields| ==> !LoadsAs(fields, j, id)
  }

  /** A property not loaded under `id` keeps the last one before it the last. */
  lemma LastLoadedSnoc(fields: Assoc.Assoc<string, StoredValue>, i: int, id: int)
    requires 0 <= i < |fields| - 1
    requires LastLoadedAs(fields[..|fields| - 1], i, id) && !LoadsAs(fields, |fields| - 1, id)
    ensures LastLoadedAs(fields, i, id)
  {
    var prefix := fields[..|fields| - 1];
    forall j | i <= j < |fields| - 1
      ensures LoadsAs(fields, j, id) == LoadsAs(prefix, j, id)
    {
      assert fields[j] == prefix[j];
    }
  }

  /**
   * Exactly the properties whose key parses as a number and whose value is a
   * record are loaded, each under the number its key spells; when several
   * keys parse to the same number, the last of them wins, as `map.set` does.
   */
  lemma {:induction false} LoadFieldsEntries(fields: Assoc.Assoc<string, StoredValue>, id: int)
    ensures Assoc.Get(LoadFields(fields), id).Some? ==>
      exists i :: 0 <= i < |fields| && LastLoadedAs(fields, i, id)
        && fields[i].1 == Record(Assoc.Get(LoadFields(fields), id).value)
    ensures (exists i :: 0 <= i < |fields| && LoadsAs(fields, i, id)) ==>
      Assoc.Get(LoadFields(fields), id).Some?
  {
    if fields != [] {
      var n := |fields| - 1;
      var prefix := fields[..n];
      assert fields == prefix + [fields[n]];
      LoadFieldsEntries(prefix, id);
      LoadFieldsSnoc(prefix, fields[n].0, fields[n].1);
      var pm := LoadFields(prefix);
      if LoadsAs(fields, n, id) {
        assert Assoc.Get(LoadFields(fields), id) == Some(fields[n].1.tracker);
        assert LastLoadedAs(fields, n, id);
      } else {
        assert Assoc.Get(LoadFields(fields), id) == Assoc.Get(pm, id);
        if Assoc.Get(pm, id).Some? {
          var i :| 0 <= i < n && LastLoadedAs(prefix, i, id) && prefix[i].1 == Record(Assoc.Get(pm, id).value);
          LastLoadedSnoc(fields, i, id);
          assert fields[i] == prefix[i];
        }
        if exists i :: 0 <= i < |fields| && LoadsAs(fields, i, id) {
          var i :| 0 <= i < |fields| && LoadsAs(fields, i, id);
          assert i != n;
          assert prefix[i] == fields[i];
          assert LoadsAs(prefix, i, id);
        }
      }
    }
  }

  /** The object written back to storage: one property per entry, keyed by the id in decimal. */
  function SerializeTracker(m: TrackedMap): (fields: Assoc.Assoc<string, StoredValue>)
    ensures |fields| == |m|
    ensures forall i :: 0 <= i < |m| ==> fields[i] == (IntToString(m[i].0), Record(m[i].1))
  {
    if m == [] then []
    else SerializeTracker(m[..|m| - 1]) + [(IntToString(m[|m| - 1].0), Record(m[|m| - 1].1))]
  }

  /** One more property of the stored object is loaded, or skipped, on its own. */
  lemma LoadFieldsSnoc(fields: Assoc.Assoc<string, StoredValue>, key: string, value: StoredValue)
    ensures LoadFields(fields + [(key, value)]) ==
      if ParseInt(key).Some? && value.Record? then Assoc.Put(LoadFields(fields), ParseInt(key).value, value.tracker)
      else LoadFields(fields)
  {
    assert (fields + [(key, value)])[..|fields|] == fields;
  }

  /** What is written is read back unchanged: storage keeps the tracker map exactly. */
  lemma {:induction false} LoadSerialize(m: TrackedMap)
    requires Assoc.DistinctKeys(m)
    ensures LoadFields(SerializeTracker(m)) == m
  {
    if m != [] {
      var n := |m| - 1;
      var prefix := m[..n];
      assert m == prefix + [m[n]];
      assert Assoc.DistinctKeys(prefix);
      LoadSerialize(prefix);
      LoadFieldsSnoc(SerializeTracker(prefix), IntToString(m[n].0), Record(m[n].1));
      ParseIntOfIntToString(m[n].0);
      assert m[n].0 !in Assoc.Keys(prefix);
      Assoc.PutNew(prefix, m[n].0, m[n].1);
    }
  }

  /**
   * `data[key.toString()] = value` for each entry of the map, in order
   * (lines 73-76 and 95-98).
   */
  method ToStoredObject(tracked: TrackedMap) returns (data: Assoc.Assoc<string, StoredValue>)
    requires Assoc.DistinctKeys(tracked)
    ensures data == SerializeTracker(tracked)
  {
    data := [];
    var i := 0;
    while i < |tracked|
      invariant 0 <= i <= |tracked|
      invariant data == SerializeTracker(tracked[..i])
    {
      assert tracked[..i + 1][..i] == tracked[..i];
      var (id, entry) := tracked[i];
      forall j | 0 <= j < i
        ensures data[j].0 != IntToString(id)
      {
        IntToStringInjective(tracked[j].0, id);
      }
      assert IntToString(id) !in Assoc.Keys(data);
      Assoc.PutNew(data, IntToString(id), Record(entry));
      data := Assoc.Put(data, IntToString(id), Record(entry));
      i := i + 1;
    }
    assert tracked[..i] == tracked;
  }

  /** The map after updateSeriesSeasonCount(tmdbId, seasonCount, seriesName, coverImage) at instant `now`. */
  function Upsert(m: TrackedMap, tmdbId: int, seasonCount: int, seriesName: string, coverImage: Option<string>, now: int): (r: TrackedMap)
    ensures Assoc.Get(r, tmdbId).Some?
    ensures var e := Assoc.Get(r, tmdbId).value;
      e.tmdbId == tmdbId && e.seriesName == seriesName && e.lastKnownSeasonCount == seasonCount && e.lastChecked == now
    ensures Truthy(coverImage) ==> Assoc.Get(r, tmdbId).value.coverImage == coverImage
    ensures !Truthy(coverImage) && Assoc.Get(m, tmdbId).Some? ==>
      Assoc.Get(r, tmdbId).value.coverImage == Assoc.Get(m, tmdbId).value.coverImage
    ensures !Truthy(coverImage) && Assoc.Get(m, tmdbId).None? ==> Assoc.Get(r, tmdbId).value.coverImage.None?
    ensures forall id :: id != tmdbId ==> Assoc.Get(r, id) == Assoc.Get(m, id)
    ensures tmdbId in Assoc.Keys(m) ==> Assoc.Keys(r) == Assoc.Keys(m)
    ensures Assoc.DistinctKeys(m) ==> Assoc.DistinctKeys(r)
  {
    var existing := Assoc.Get(m, tmdbId);
    var cover := OrElse(coverImage, if existing.Some? then existing.value.coverImage else None);
    Assoc.Put(m, tmdbId, SeriesSeasonTracker(tmdbId, seriesName, seasonCount, now, cover))
  }

  /** The ids of a dismissed-alerts item, in the iteration order of `new Set(data)`. */
  function DismissedIds(item: DismissedItem): (ids: seq<string>)
    ensures Seqs.Distinct(ids)
    ensures forall id :: id in ids <==> item.IdArray? && id in item.ids
  {
    match item
    case IdArray(ids) => Seqs.Dedup(ids)
    case _ => []
  }

  /** The item dismissAlert(alertId) writes: the old ids as a Set, with alertId added. */
  function DismissItem(item: DismissedItem, alertId: string): (r: DismissedItem)
    ensures r.IdArray?
    ensures forall id :: id in r.ids <==> id == alertId || id in DismissedIds(item)
  {
    IdArray(Seqs.Dedup(DismissedIds(item) + [alertId]))
  }

  /** The ids of a stored item as a set. */
  function DismissedSet(item: DismissedItem): set<string> {
    set id | id in DismissedIds(item)
  }

  /** Dismissing adds exactly the one id to the dismissed set. */
  lemma DismissAddsToSet(item: DismissedItem, alertId: string)
    ensures DismissedSet(DismissItem(item, alertId)) == DismissedSet(item) + {alertId}
  {
    var r := DismissItem(item, alertId);
    assert DismissedIds(r) == r.ids by {
      Seqs.DedupOfDistinct(r.ids);
    }
  }

  /** Dismissing the same alert twice stores exactly what dismissing it once stores. */
  lemma DismissItemIdempotent(item: DismissedItem, alertId: string)
    ensures DismissItem(DismissItem(item, alertId), alertId) == DismissItem(item, alertId)
  {
    var once := Seqs.Dedup(DismissedIds(item) + [alertId]);
    Seqs.DedupOfDistinct(once);
    Seqs.DedupSnoc(once, alertId);
  }

  /** The browser's localStorage, as far as the two items of this file go. */
  class DeviceStorage {
    /** `typeof window !== "undefined"`: false during server rendering, where every operation is a no-op. */
    const hasWindow: bool
    /** localStorage[StorageKey] */
    var trackerItem: TrackerItem
    /** localStorage[DismissedAlertsKey] */
    var dismissedItem: DismissedItem

    constructor (hasWindow: bool, trackerItem: TrackerItem, dismissedItem: DismissedItem)
      ensures this.hasWindow == hasWindow
      ensures this.trackerItem == trackerItem && this.dismissedItem == dismissedItem
    {
      this.hasWindow := hasWindow;
      this.trackerItem := trackerItem;
      this.dismissedItem := dismissedItem;
    }

    /** The map getTrackedSeries returns in the current state: empty unless a stored object holds entries. */
    function Tracked(): (m: TrackedMap)
      reads this
      ensures Assoc.DistinctKeys(m)
      ensures !hasWindow || !trackerItem.TrackerObject? ==> m == []
    {
      if !hasWindow then []
      else match trackerItem
        case TrackerObject(fields) => LoadFields(fields)
        case _ => []
    }

    method GetTrackedSeries() returns (m: TrackedMap)
      ensures m == Tracked()
    {
      if !hasWindow {
        return [];
      }
      match trackerItem {
        case TrackerObject(fields) =>
          m := [];
          var i := 0;
          while i < |fields|
            invariant 0 <= i <= |fields|
            invariant m == LoadFields(fields[..i])
          {
            var (key, value) := fields[i];
            var id := ParseInt(key);
            if id.Some? && value.Record? {
              m := Assoc.Put(m, id.value, value.tracker);
            }
            assert fields[..i + 1][..i] == fields[..i];
            i := i + 1;
          }
          assert fields[..i] == fields;
        case _ =>
          m := [];
      }
    }

    method GetSeriesSeasonCount(tmdbId: int) returns (t: Option<SeriesSeasonTracker>)
      ensures t == Assoc.Get(Tracked(), tmdbId)
    {
      var tracked := GetTrackedSeries();
      t := Assoc.Get(tracked, tmdbId);
    }

    /** Converts the map to an object and stores it as the tracker item (lines 72-78 and 94-100). */
    method SaveTracked(tracked: TrackedMap)
      requires hasWindow && Assoc.DistinctKeys(tracked)
      modifies this
      ensures dismissedItem == old(dismissedItem)
      ensures Tracked() == tracked
    {
      var data := ToStoredObject(tracked);
      LoadSerialize(tracked);
      trackerItem := TrackerObject(data);
    }

    method UpdateSeriesSeasonCount(tmdbId: int, seasonCount: int, seriesName: string, coverImage: Option<string>, now: int)
      modifies this
      ensures dismissedItem == old(dismissedItem)
      ensures hasWindow ==> Tracked() == Upsert(old(Tracked()), tmdbId, seasonCount, seriesName, coverImage, now)
      ensures !hasWindow ==> trackerItem == old(trackerItem)
    {
      if !hasWindow {
        return;
      }
      var tracked := GetTrackedSeries();
      var existing := Assoc.Get(tracked, tmdbId);
      var cover := OrElse(coverImage, if existing.Some? then existing.value.coverImage else None);
      tracked := Assoc.Put(tracked, tmdbId, SeriesSeasonTracker(tmdbId, seriesName, seasonCount, now, cover));
      SaveTracked(tracked);
    }

    method RemoveTrackedSeries(tmdbId: int)
      modifies this
      ensures dismissedItem == old(dismissedItem)
      ensures hasWindow ==> Tracked() == Assoc.Remove(old(Tracked()), tmdbId)
      ensures !hasWindow ==> trackerItem == old(trackerItem)
    {
      if !hasWindow {
        return;
      }
      var tracked := GetTrackedSeries();
      tracked := Assoc.Remove(tracked, tmdbId);
      SaveTracked(tracked);
    }

    /** The Set getDismissedAlerts returns: empty when the item is absent, blank or not an array. */
    function GetDismissedAlerts(): (s: set<string>)
      reads this
      ensures forall id :: id in s <==> hasWindow && dismissedItem.IdArray? && id in dismissedItem.ids
    {
      if !hasWindow then {} else DismissedSet(dismissedItem)
    }

    method DismissAlert(alertId: string)
      modifies this
      ensures trackerItem == old(trackerItem)
      ensures dismissedItem == if hasWindow then DismissItem(old(dismissedItem), alertId) else old(dismissedItem)
      ensures GetDismissedAlerts() == if hasWindow then old(GetDismissedAlerts()) + {alertId} else {}
    {
      if !hasWindow {
        return;
      }
      var dismissed := DismissedIds(dismissedItem);
      if alertId !in dismissed {
        dismissed := dismissed + [alertId];
      }
      ghost var ids := DismissedIds(dismissedItem);
      Seqs.DedupSnoc(ids, alertId);
      Seqs.DedupOfDistinct(ids);
      DismissAddsToSet(dismissedItem, alertId);
      dismissedItem := IdArray(dismissed);
    }

    method ClearDismissedAlerts()
      modifies this
      ensures trackerItem == old(trackerItem)
      ensures dismissedItem == if hasWindow then NoIds else old(dismissedItem)
      ensures GetDismissedAlerts() == {}
    {
      if hasWindow {
        dismissedItem := NoIds;
      }
    }
  }

  /** Write, then read back: after updateSeriesSeasonCount, getSeriesSeasonCount of that id returns the entry just written. */
  method UpdateThenGet(storage: DeviceStorage, tmdbId: int, seasonCount: int, seriesName: string,
                       coverImage: Option<string>, now: int)
    returns (t: Option<SeriesSeasonTracker>)
    requires storage.hasWindow
    modifies storage
    ensures t.Some?
    ensures t.value.tmdbId == tmdbId && t.value.seriesName == seriesName
    ensures t.value.lastKnownSeasonCount == seasonCount && t.value.lastChecked == now
    ensures Truthy(coverImage) ==> t.value.coverImage == coverImage
  {
    storage.UpdateSeriesSeasonCount(tmdbId, seasonCount, seriesName, coverImage, now);
    t := storage.GetSeriesSeasonCount(tmdbId);
  }
}
