/**
 * lib/season-checker.ts: polling tracked series for new seasons. The TMDB
 * details request is the parameter `lookup`: `lookup(id)` is the
 * `number_of_seasons` it reports for series `id`, or None when the request
 * throws. `now` is the clock reading used for the alert and the tracker.
 */
module SeasonChecker {
  import opened Base
  import opened Text
  import Seqs
  import Assoc
  import opened SeasonTracker

  datatype NewSeasonAlert = NewSeasonAlert(
    id: string,
    tmdbId: int,
    seriesName: string,
    newSeasonNumber: int,
    totalSeasons: int,
    coverImage: Option<string>,
    timestamp: int)

  /** `alert-${tmdbId}-${count}-${now}` */
  function AlertId(tmdbId: int, count: int, now: int): string {
    "alert-" + (IntToString(tmdbId) + "-" + (IntToString(count) + "-" + IntToString(now)))
  }

  /**
   * An alert id names its series, season count and instant: two alerts
   * (of series with non-negative ids and counts) share an id only when all three agree.
   */
  lemma AlertIdsUnique(tmdbId: int, count: int, now: int, tmdbId': int, count': int, now': int)
    requires tmdbId >= 0 && count >= 0 && tmdbId' >= 0 && count' >= 0
    requires AlertId(tmdbId, count, now) == AlertId(tmdbId', count', now')
    ensures tmdbId == tmdbId' && count == count' && now == now'
  {
    var a, b, c := IntToString(tmdbId), IntToString(count), IntToString(now);
    var a', b', c' := IntToString(tmdbId'), IntToString(count'), IntToString(now');
    var prefix := "alert-";
    assert AlertId(tmdbId, count, now) == prefix + (a + "-" + (b + "-" + c));
    assert AlertId(tmdbId', count', now') == prefix + (a' + "-" + (b' + "-" + c'));
    assert a + "-" + (b + "-" + c) == AlertId(tmdbId, count, now)[|prefix|..];
    assert a' + "-" + (b' + "-" + c') == AlertId(tmdbId', count', now')[|prefix|..];
    DashJoinInjective(a, b + "-" + c, a', b' + "-" + c');
    DashJoinInjective(b, c, b', c');
    IntToStringInjective(tmdbId, tmdbId');
    IntToStringInjective(count, count');
    IntToStringInjective(now, now');
  }

  /** The alert raised when the season count of tracked series `t` rose to `count`. */
  function MakeAlert(t: SeriesSeasonTracker, tmdbId: int, count: int, now: int): NewSeasonAlert {
    NewSeasonAlert(AlertId(tmdbId, count, now), tmdbId, t.seriesName, count, count, t.coverImage, now)
  }

  /**
   * One run of checkForNewSeasons(tmdbId) against the tracker map `tracked`,
   * where `fetched` is what the details request returned: the new map and the alert.
   */
  function Poll(tracked: TrackedMap, tmdbId: int, fetched: Option<int>, now: int): (r: (TrackedMap, Option<NewSeasonAlert>))
    ensures Assoc.Keys(r.0) == Assoc.Keys(tracked)
  {
    match Assoc.Get(tracked, tmdbId)
    case None => (tracked, None)
    case Some(t) =>
      match fetched
      case None => (tracked, None)
      case Some(count) =>
        if count > t.lastKnownSeasonCount then
          (Upsert(tracked, tmdbId, count, t.seriesName, t.coverImage, now), Some(MakeAlert(t, tmdbId, count, now)))
        else
          (Upsert(tracked, tmdbId, t.lastKnownSeasonCount, t.seriesName, t.coverImage, now), None)
  }

  /**
   * An untracked series or a failed request changes nothing and raises no
   * alert; otherwise the entry is re-checked at `now`, its baseline rises to
   * the fetched count when that is larger (with an alert) and stays otherwise;
   * no other series changes.
   */
  lemma PollSpec(tracked: TrackedMap, tmdbId: int, fetched: Option<int>, now: int)
    ensures var r := Poll(tracked, tmdbId, fetched, now);
      && (Assoc.Get(tracked, tmdbId).None? || fetched.None? ==> r == (tracked, None))
      && (forall id :: id != tmdbId ==> Assoc.Get(r.0, id) == Assoc.Get(tracked, id))
      && (Assoc.DistinctKeys(tracked) ==> Assoc.DistinctKeys(r.0))
      && (Assoc.Get(tracked, tmdbId).Some? && fetched.Some? ==>
            var t := Assoc.Get(tracked, tmdbId).value;
            var count := fetched.value;
            var raised := count > t.lastKnownSeasonCount;
            && Assoc.Get(r.0, tmdbId) == Some(t.(tmdbId := tmdbId,
                                                   lastKnownSeasonCount := if raised then count else t.lastKnownSeasonCount,
                                                   lastChecked := now))
            && r.1 == (if raised then Some(MakeAlert(t, tmdbId, count, now)) else None))
  {
  }

  method CheckForNewSeasons(store: DeviceStorage, tmdbId: int, lookup: int -> Option<int>, now: int)
    returns (alert: Option<NewSeasonAlert>)
    modifies store
    ensures (store.Tracked(), alert) == Poll(old(store.Tracked()), tmdbId, lookup(tmdbId), now)
    ensures Assoc.Get(old(store.Tracked()), tmdbId).None? || lookup(tmdbId).None? ==>
      store.trackerItem == old(store.trackerItem)
    ensures store.dismissedItem == old(store.dismissedItem)
  {
    var tracked := store.GetTrackedSeries();
    var trackedData := Assoc.Get(tracked, tmdbId);
    if trackedData.None? {
      // not tracked yet: skip
      return None;
    }
    var t := trackedData.value;
    var fetched := lookup(tmdbId);
    if fetched.None? {
      // the request threw: the error is logged and swallowed
      return None;
    }
    var currentSeasonCount := fetched.value;
    if currentSeasonCount > t.lastKnownSeasonCount {
      store.UpdateSeriesSeasonCount(tmdbId, currentSeasonCount, t.seriesName, t.coverImage, now);
      return Some(MakeAlert(t, tmdbId, currentSeasonCount, now));
    }
    store.UpdateSeriesSeasonCount(tmdbId, t.lastKnownSeasonCount, t.seriesName, t.coverImage, now);
    return None;
  }

  /** Checking the series `ids` one after the other, each against the map the previous checks left. */
  function PollAll(tracked: TrackedMap, ids: seq<int>, lookup: int -> Option<int>, now: int): (r: (TrackedMap, seq<NewSeasonAlert>))
    ensures Assoc.Keys(r.0) == Assoc.Keys(tracked)
    decreases |ids|
  {
    if ids == [] then (tracked, [])
    else
      var prev := PollAll(tracked, ids[..|ids| - 1], lookup, now);
      var step := Poll(prev.0, ids[|ids| - 1], lookup(ids[|ids| - 1]), now);
      (step.0, prev.1 + if step.1.Some? then [step.1.value] else [])
  }

  method CheckAllTrackedSeries(store: DeviceStorage, lookup: int -> Option<int>, now: int)
    returns (alerts: seq<NewSeasonAlert>)
    modifies store
    ensures store.Tracked() == PollAll(old(store.Tracked()), Assoc.Keys(old(store.Tracked())), lookup, now).0
    ensures alerts == PollAll(old(store.Tracked()), Assoc.Keys(old(store.Tracked())), lookup, now).1
    ensures store.dismissedItem == old(store.dismissedItem)
  {
    var tracked := store.GetTrackedSeries();
    assert tracked == old(store.Tracked());
    var ids := Assoc.Keys(tracked);
    alerts := [];
    var i := 0;
    while i < |ids|
      invariant 0 <= i <= |ids|
      invariant store.dismissedItem == old(store.dismissedItem)
      invariant store.Tracked() == PollAll(tracked, ids[..i], lookup, now).0
      invariant alerts == PollAll(tracked, ids[..i], lookup, now).1
    {
      ghost var before, earlier := store.Tracked(), alerts;
      var alert := CheckForNewSeasons(store, ids[i], lookup, now);
      if alert.Some? {
        alerts := alerts + [alert.value];
      }
      PollAllStep(tracked, ids, i, lookup, now, before, earlier, store.Tracked(), alert);
      i := i + 1;
    }
    assert ids[..i] == ids;
  }

  /** The state after check `i` of a pass, from the state before it and that check's result. */
  lemma PollAllStep(tracked: TrackedMap, ids: seq<int>, i: int, lookup: int -> Option<int>, now: int,
                    before: TrackedMap, alerts: seq<NewSeasonAlert>, after: TrackedMap, alert: Option<NewSeasonAlert>)
    requires 0 <= i < |ids|
    requires before == PollAll(tracked, ids[..i], lookup, now).0 && alerts == PollAll(tracked, ids[..i], lookup, now).1
    requires (after, alert) == Poll(before, ids[i], lookup(ids[i]), now)
    ensures after == PollAll(tracked, ids[..i + 1], lookup, now).0
    ensures alerts + (if alert.Some? then [alert.value] else []) == PollAll(tracked, ids[..i + 1], lookup, now).1
  {
    PollAllExtend(tracked, ids, i, lookup, now);
  }

  /** Checking one more series continues the pass from where the first `i` checks left it. */
  lemma PollAllExtend(tracked: TrackedMap, ids: seq<int>, i: int, lookup: int -> Option<int>, now: int)
    requires 0 <= i < |ids|
    ensures var prev := PollAll(tracked, ids[..i], lookup, now);
      var step := Poll(prev.0, ids[i], lookup(ids[i]), now);
      PollAll(tracked, ids[..i + 1], lookup, now) == (step.0, prev.1 + if step.1.Some? then [step.1.value] else [])
  {
    assert ids[..i + 1][..i] == ids[..i];
  }

  /** Whether series `id` gets an alert: it is tracked, its request succeeded and its count rose. */
  predicate Increased(tracked: TrackedMap, lookup: int -> Option<int>, id: int) {
    && Assoc.Get(tracked, id).Some?
    && lookup(id).Some?
    && lookup(id).value > Assoc.Get(tracked, id).value.lastKnownSeasonCount
  }

  /** The entry of series `id` once it has been checked, judged against its entry in `tracked`. */
  function Checked(tracked: TrackedMap, lookup: int -> Option<int>, id: int, now: int): Option<SeriesSeasonTracker> {
    match Assoc.Get(tracked, id)
    case None => None
    case Some(t) =>
      match lookup(id)
      case None => Some(t)
      case Some(count) =>
        Some(t.(tmdbId := id,
                lastKnownSeasonCount := if count > t.lastKnownSeasonCount then count else t.lastKnownSeasonCount,
                lastChecked := now))
  }

  /** The alerts of a pass in which every series is judged against its entry in `tracked`. */
  function ExpectedAlerts(tracked: TrackedMap, ids: seq<int>, lookup: int -> Option<int>, now: int): seq<NewSeasonAlert>
    decreases |ids|
  {
    if ids == [] then []
    else
      var last := ids[|ids| - 1];
      ExpectedAlerts(tracked, ids[..|ids| - 1], lookup, now)
      + if Increased(tracked, lookup, last)
        then [MakeAlert(Assoc.Get(tracked, last).value, last, lookup(last).value, now)]
        else []
  }

  /**
   * Over distinct series, a pass treats each series on its own: its entry
   * and its alert depend only on its own entry and its own request, so a
   * failing request affects no other series.
   */
  lemma {:induction false} PollAllIsolatesSeries(tracked: TrackedMap, ids: seq<int>, lookup: int -> Option<int>, now: int)
    requires Seqs.Distinct(ids)
    ensures forall id :: (Assoc.Get(PollAll(tracked, ids, lookup, now).0, id)
      == if id in ids then Checked(tracked, lookup, id, now) else Assoc.Get(tracked, id))
    ensures PollAll(tracked, ids, lookup, now).1 == ExpectedAlerts(tracked, ids, lookup, now)
    decreases |ids|
  {
    if ids != [] {
      var init, last := ids[..|ids| - 1], ids[|ids| - 1];
      assert ids == init + [last];
      assert Seqs.Distinct(init);
      assert last !in init;
      PollAllIsolatesSeries(tracked, init, lookup, now);
      var prev := PollAll(tracked, init, lookup, now);
      assert Assoc.Get(prev.0, last) == Assoc.Get(tracked, last);
      PollSpec(prev.0, last, lookup(last), now);
    }
  }

  /** The series an alert is about, in order. */
  function AlertedSeries(alerts: seq<NewSeasonAlert>): (r: seq<int>)
    ensures |r| == |alerts|
    ensures forall i :: 0 <= i < |alerts| ==> r[i] == alerts[i].tmdbId
  {
    seq(|alerts|, i requires 0 <= i < |alerts| => alerts[i].tmdbId)
  }

  lemma {:induction false} ExpectedAlertsAreFiltered(tracked: TrackedMap, ids: seq<int>, lookup: int -> Option<int>, now: int)
    ensures AlertedSeries(ExpectedAlerts(tracked, ids, lookup, now)) == Seqs.Filter(id => Increased(tracked, lookup, id), ids)
    decreases |ids|
  {
    if ids != [] {
      var init, last := ids[..|ids| - 1], ids[|ids| - 1];
      assert ids == init + [last];
      ExpectedAlertsAreFiltered(tracked, init, lookup, now);
      Seqs.FilterSnoc(id => Increased(tracked, lookup, id), init, last);
      var head := ExpectedAlerts(tracked, init, lookup, now);
      var tail := if Increased(tracked, lookup, last)
        then [MakeAlert(Assoc.Get(tracked, last).value, last, lookup(last).value, now)]
        else [];
      AlertedSeriesAppend(head, tail);
    }
  }

  lemma AlertedSeriesAppend(a: seq<NewSeasonAlert>, b: seq<NewSeasonAlert>)
    ensures AlertedSeries(a + b) == AlertedSeries(a) + AlertedSeries(b)
  {
  }

  /**
   * checkAllTrackedSeries raises at most one alert per tracked series, in
   * the tracker's order, exactly for the series whose count rose; and no
   * stored baseline goes down.
   */
  lemma CheckAllAlerts(tracked: TrackedMap, lookup: int -> Option<int>, now: int)
    requires Assoc.DistinctKeys(tracked)
    ensures var r := PollAll(tracked, Assoc.Keys(tracked), lookup, now);
      && Seqs.IsSubsequence(AlertedSeries(r.1), Assoc.Keys(tracked))
      && Seqs.Distinct(AlertedSeries(r.1))
      && (forall id :: id in AlertedSeries(r.1) <==> id in Assoc.Keys(tracked) && Increased(tracked, lookup, id))
      && (forall id :: id in Assoc.Keys(tracked) ==>
            Assoc.Get(r.0, id).value.lastKnownSeasonCount >= Assoc.Get(tracked, id).value.lastKnownSeasonCount)
  {
    var ids := Assoc.Keys(tracked);
    assert Seqs.Distinct(ids);
    PollAllIsolatesSeries(tracked, ids, lookup, now);
    ExpectedAlertsAreFiltered(tracked, ids, lookup, now);
    Seqs.FilterIsSubsequence(id => Increased(tracked, lookup, id), ids);
    Seqs.FilterDistinct(id => Increased(tracked, lookup, id), ids);
  }

  /** The largest of `baseline` and the counts, taken from the left. */
  function RunningMax(baseline: int, counts: seq<int>): int
    decreases |counts|
  {
    if counts == [] then baseline
    else RunningMax(if counts[0] > baseline then counts[0] else baseline, counts[1..])
  }

  /** The stored baseline of series `id` after each of successive checks that fetched `counts`. */
  function BaselineTrace(tracked: TrackedMap, id: int, counts: seq<int>, now: int): seq<int>
    requires Assoc.Get(tracked, id).Some?
    decreases |counts|
  {
    if counts == [] then []
    else
      var next := Poll(tracked, id, Some(counts[0]), now).0;
      [Assoc.Get(next, id).value.lastKnownSeasonCount] + BaselineTrace(next, id, counts[1..], now)
  }

  /** After every check, the baseline is the largest count seen so far: it never decreases. */
  lemma {:induction false} BaselineIsRunningMax(tracked: TrackedMap, id: int, counts: seq<int>, now: int)
    requires Assoc.Get(tracked, id).Some?
    ensures |BaselineTrace(tracked, id, counts, now)| == |counts|
    ensures forall i :: 0 <= i < |counts| ==>
      BaselineTrace(tracked, id, counts, now)[i] == RunningMax(Assoc.Get(tracked, id).value.lastKnownSeasonCount, counts[..i + 1])
    decreases |counts|
  {
    if counts != [] {
      var b := Assoc.Get(tracked, id).value.lastKnownSeasonCount;
      var b' := if counts[0] > b then counts[0] else b;
      PollSpec(tracked, id, Some(counts[0]), now);
      var next := Poll(tracked, id, Some(counts[0]), now).0;
      assert Assoc.Get(next, id).value.lastKnownSeasonCount == b';
      BaselineIsRunningMax(next, id, counts[1..], now);
      var rest := BaselineTrace(next, id, counts[1..], now);
      assert BaselineTrace(tracked, id, counts, now) == [b'] + rest;
      RunningMaxCons(b, counts, rest);
    }
  }

  /** Prefixing the baseline after the first count to the trace of the later counts. */
  lemma RunningMaxCons(b: int, counts: seq<int>, rest: seq<int>)
    requires counts != [] && |rest| == |counts| - 1
    requires var b' := if counts[0] > b then counts[0] else b;
      forall i :: 0 <= i < |rest| ==> rest[i] == RunningMax(b', counts[1..][..i + 1])
    ensures var b' := if counts[0] > b then counts[0] else b;
      forall i :: 0 <= i < |counts| ==> ([b'] + rest)[i] == RunningMax(b, counts[..i + 1])
  {
    var b' := if counts[0] > b then counts[0] else b;
    forall i | 0 <= i < |counts|
      ensures ([b'] + rest)[i] == RunningMax(b, counts[..i + 1])
    {
      if i > 0 {
        assert counts[..i + 1][1..] == counts[1..][..i];
      } else {
        assert counts[..1][1..] == [];
      }
    }
  }

  /** Counts 3, 3, 5, 4 fetched for a series tracked at 3 leave baselines 3, 3, 5, 5. */
  lemma BaselineScenario(t: SeriesSeasonTracker, now: int)
    requires t.lastKnownSeasonCount == 3
    ensures BaselineTrace([(7, t)], 7, [3, 3, 5, 4], now) == [3, 3, 5, 5]
  {
    var counts := [3, 3, 5, 4];
    BaselineIsRunningMax([(7, t)], 7, counts, now);
    assert counts[..1] == [3] && counts[..2] == [3, 3] && counts[..3] == [3, 3, 5];
    assert counts[..4] == counts;
  }
}
