/**
 * components/alert-container.tsx: which new-season alerts are on screen.
 * The effect reads the dismissed set (DeviceStorage.GetDismissedAlerts) and
 * keeps the alerts whose id is not in it; an empty list renders nothing.
 */
module AlertContainer {
  import opened Base
  import Seqs
  import SeasonTracker
  import opened SeasonChecker

  /** The test of the effect's `filter`. */
  predicate NotDismissed(dismissed: set<string>, alert: NewSeasonAlert) {
    alert.id !in dismissed
  }

  /** The callback `(alert) => !dismissed.has(alert.id)`. */
  function Undismissed(dismissed: set<string>): NewSeasonAlert -> bool {
    (a: NewSeasonAlert) => NotDismissed(dismissed, a)
  }

  /** The callback `(a) => a.id !== alertId`. */
  function OtherThan(alertId: string): NewSeasonAlert -> bool {
    (a: NewSeasonAlert) => a.id != alertId
  }

  /** `alerts.filter((alert) => !dismissed.has(alert.id))`. */
  function VisibleAlerts(alerts: seq<NewSeasonAlert>, dismissed: set<string>): (visible: seq<NewSeasonAlert>)
    ensures forall a :: a in visible <==> a in alerts && a.id !in dismissed
    ensures Seqs.IsSubsequence(visible, alerts)
    ensures forall a :: multiset(visible)[a] == if a.id in dismissed then 0 else multiset(alerts)[a]
  {
    Seqs.FilterIsSubsequence(Undismissed(dismissed), alerts);
    Seqs.FilterCount(Undismissed(dismissed), alerts);
    Seqs.Filter(Undismissed(dismissed), alerts)
  }

  /** What the component renders: nothing, or one card per visible alert, in order. */
  function Render(visibleAlerts: seq<NewSeasonAlert>): Option<seq<NewSeasonAlert>> {
    if |visibleAlerts| == 0 then None else Some(visibleAlerts)
  }

  /** With nothing dismissed every alert is shown, in the order given. */
  lemma NothingDismissedShowsAll(alerts: seq<NewSeasonAlert>)
    ensures VisibleAlerts(alerts, {}) == alerts
  {
    Seqs.FilterAllPass(Undismissed({}), alerts);
  }

  /** The container renders nothing exactly when every alert it is given has been dismissed. */
  lemma NothingRenderedIffAllDismissed(alerts: seq<NewSeasonAlert>, dismissed: set<string>)
    ensures Render(VisibleAlerts(alerts, dismissed)).None? <==> forall i :: 0 <= i < |alerts| ==> alerts[i].id in dismissed
    ensures Render(VisibleAlerts(alerts, dismissed)).Some? ==> Render(VisibleAlerts(alerts, dismissed)).value == VisibleAlerts(alerts, dismissed)
  {
    var visible := VisibleAlerts(alerts, dismissed);
    if visible != [] {
      assert visible[0] in visible;
    }
  }

  /** Dismissing one more id removes exactly the alerts with that id and keeps the others in place. */
  lemma {:induction false} DismissOneMore(alerts: seq<NewSeasonAlert>, dismissed: set<string>, alertId: string)
    ensures VisibleAlerts(alerts, dismissed + {alertId}) == Seqs.Filter(OtherThan(alertId), VisibleAlerts(alerts, dismissed))
  {
    if alerts != [] {
      var a, rest := alerts[0], alerts[1..];
      assert alerts == [a] + rest;
      DismissOneMore(rest, dismissed, alertId);
      Seqs.FilterCons(Undismissed(dismissed + {alertId}), a, rest);
      Seqs.FilterCons(Undismissed(dismissed), a, rest);
      Seqs.FilterCons(OtherThan(alertId), a, Seqs.Filter(Undismissed(dismissed), rest));
    }
  }

  /**
   * After `dismissAlert(id)` on the device, the next run of the filtering
   * effect shows no alert with that id and every other alert it showed
   * before. The effect runs again only when `alerts` changes or the
   * container remounts.
   */
  method DismissThenShow(storage: SeasonTracker.DeviceStorage, alerts: seq<NewSeasonAlert>, alertId: string)
    returns (before: seq<NewSeasonAlert>, after: seq<NewSeasonAlert>)
    modifies storage
    requires storage.hasWindow
    ensures before == VisibleAlerts(alerts, old(storage.GetDismissedAlerts()))
    ensures after == VisibleAlerts(alerts, storage.GetDismissedAlerts())
    ensures after == Seqs.Filter(OtherThan(alertId), before)
    ensures forall a :: a in after <==> a in before && a.id != alertId
  {
    before := VisibleAlerts(alerts, storage.GetDismissedAlerts());
    storage.DismissAlert(alertId);
    after := VisibleAlerts(alerts, storage.GetDismissedAlerts());
    DismissOneMore(alerts, old(storage.GetDismissedAlerts()), alertId);
  }
}
