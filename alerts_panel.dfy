/** The alerts panel: the active/all/resolved filter over the alerts, the
    icon chosen for an alert and the text of its badge. */
module AlertsPanel {
  import opened Types
  import opened Seqs
  import MockData

  /** The three filter buttons. */
  datatype AlertFilter = All | Active | Resolved

  /** The panel opens on the active alerts. */
  const InitialFilter: AlertFilter := Active

  function KeepAlert(a: Alert, filter: AlertFilter): (keep: bool)
    ensures filter == All ==> keep
    ensures filter == Active ==> (keep <==> !a.resolved)
    ensures filter == Resolved ==> (keep <==> a.resolved)
  {
    if filter == All then true
    else if filter == Active then !a.resolved
    else if filter == Resolved then a.resolved
    else true
  }

  function AlertKeeper(filter: AlertFilter): Alert -> bool {
    a => KeepAlert(a, filter)
  }

  /** The alerts listed: an order-preserving subsequence holding every
      occurrence of the alerts the filter keeps and nothing else. */
  function FilterAlerts(alerts: seq<Alert>, filter: AlertFilter): (shown: seq<Alert>)
    ensures IsSubsequence(shown, alerts)
    ensures forall a :: multiset(shown)[a] == if KeepAlert(a, filter) then multiset(alerts)[a] else 0
  {
    FilterIsSubsequence(alerts, AlertKeeper(filter));
    FilterCounts(alerts, AlertKeeper(filter));
    Filter(alerts, AlertKeeper(filter))
  }

  /** "All" lists every alert, in order. */
  lemma AllShowsEverything(alerts: seq<Alert>)
    ensures FilterAlerts(alerts, All) == alerts
  {
    FilterKeepsAll(alerts, AlertKeeper(All));
  }

  /** "Active" lists, in order, exactly the unresolved alerts. */
  lemma ActiveShowsUnresolved(alerts: seq<Alert>)
    ensures IsSubsequence(FilterAlerts(alerts, Active), alerts)
    ensures forall a :: a in FilterAlerts(alerts, Active) <==> a in alerts && !a.resolved
  {
  }

  /** "Resolved" lists, in order, exactly the resolved alerts. */
  lemma ResolvedShowsResolved(alerts: seq<Alert>)
    ensures IsSubsequence(FilterAlerts(alerts, Resolved), alerts)
    ensures forall a :: a in FilterAlerts(alerts, Resolved) <==> a in alerts && a.resolved
  {
  }

  /** The active and resolved views split the full list: no alert is in both
      and together they hold every alert exactly once. */
  lemma ActiveAndResolvedPartition(alerts: seq<Alert>)
    ensures multiset(FilterAlerts(alerts, Active)) + multiset(FilterAlerts(alerts, Resolved)) ==
      multiset(FilterAlerts(alerts, All))
    ensures |FilterAlerts(alerts, Active)| + |FilterAlerts(alerts, Resolved)| == |FilterAlerts(alerts, All)|
    ensures forall a :: !(a in FilterAlerts(alerts, Active) && a in FilterAlerts(alerts, Resolved))
  {
    FilterPartition(alerts, AlertKeeper(Active), AlertKeeper(Resolved));
    AllShowsEverything(alerts);
  }

  /** Five alerts of which the first three are unresolved: "active" shows those three. */
  lemma ActiveOfThreeThenTwo(alerts: seq<Alert>)
    requires |alerts| == 5
    requires !alerts[0].resolved && !alerts[1].resolved && !alerts[2].resolved
    requires alerts[3].resolved && alerts[4].resolved
    ensures FilterAlerts(alerts, Active) == alerts[..3]
  {
    var keep := AlertKeeper(Active);
    assert alerts == alerts[..3] + alerts[3..];
    FilterAppend(alerts[..3], alerts[3..], keep);
    FilterKeepsAll(alerts[..3], keep);
    FilterDropsAll(alerts[3..], keep);
  }

  /** On the seeded alerts the panel opens with the first three of them. */
  lemma SeededActiveAlerts(loadTime: Timestamp)
    ensures FilterAlerts(MockData.Alerts(loadTime), InitialFilter) == MockData.Alerts(loadTime)[..3]
  {
    ActiveOfThreeThenTwo(MockData.Alerts(loadTime));
  }

  datatype AlertIcon = Check | Circle | Triangle

  /** The icon: a check once resolved, whatever the severity; else a circle for critical, a triangle otherwise. */
  function IconFor(severity: Status, resolved: bool): (icon: AlertIcon)
    ensures icon == Check <==> resolved
    ensures icon == Circle <==> !resolved && severity == Critical
    ensures icon == Triangle <==> !resolved && severity != Critical
  {
    if resolved then Check
    else if severity == Critical then Circle
    else Triangle
  }

  /** The badge reads "Resolved" exactly for resolved alerts and the severity name otherwise. */
  function BadgeText(a: Alert): (text: string)
    ensures text == "Resolved" <==> a.resolved
    ensures !a.resolved ==> text == StatusName(a.severity)
  {
    if a.resolved then "Resolved" else StatusName(a.severity)
  }
}
