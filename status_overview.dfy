/** The summary cards derived from the status tally: "Online Devices" and
    "Active Alerts". */
module StatusOverview {
  import opened Types
  import opened Text
  import MockData

  /** The card colour rule: critical if any device is critical, else warning
      if any is in warning, else healthy. */
  function CardStatus(c: MockData.StatusCounts): (s: Status)
    ensures s == Critical <==> c.critical > 0
    ensures s == Warning <==> c.critical == 0 && c.warning > 0
    ensures s == Healthy <==> c.critical == 0 && c.warning == 0
  {
    if c.critical > 0 then Critical else if c.warning > 0 then Warning else Healthy
  }

  function OnlineDevicesStatus(c: MockData.StatusCounts): Status {
    CardStatus(c)
  }

  /** "<healthy> / <total>". */
  function OnlineDevicesValue(c: MockData.StatusCounts): (text: string)
    ensures |text| >= 5
    ensures |text| == |NatToString(c.healthy)| + 3 + |NatToString(c.total)|
    ensures var n := |NatToString(c.healthy)|;
      n + 3 <= |text| && text[n..n + 3] == " / " &&
      (forall i :: 0 <= i < n ==> IsDigit(text[i])) && DigitsValue(text[..n]) == c.healthy &&
      (forall i :: n + 3 <= i < |text| ==> IsDigit(text[i])) && DigitsValue(text[n + 3..]) == c.total
  {
    var h, t := NatToString(c.healthy), NatToString(c.total);
    NatToStringRoundTrip(c.healthy);
    NatToStringRoundTrip(c.total);
    assert (h + " / " + t)[..|h|] == h;
    assert (h + " / " + t)[|h| + 3..] == t;
    NatToString(c.healthy) + " / " + NatToString(c.total)
  }

  /** The shape of "<x> / <y>": the characters of x, then the separator. */
  lemma Layout(x: string, y: string)
    ensures (x + " / " + y)[|x|] == ' '
    ensures forall k :: 0 <= k < |x| ==> (x + " / " + y)[k] == x[k]
  {
  }

  /** Where the digits of the first number end, the separator begins. */
  lemma SeparatorPosition(a: nat, b: nat, c: nat, d: nat)
    requires NatToString(a) + " / " + NatToString(b) == NatToString(c) + " / " + NatToString(d)
    ensures |NatToString(a)| <= |NatToString(c)|
  {
    if |NatToString(c)| < |NatToString(a)| {
      Layout(NatToString(a), NatToString(b));
      Layout(NatToString(c), NatToString(d));
      assert false;
    }
  }

  /** The card's text determines both numbers it shows. */
  lemma OnlineDevicesValueIsInjective(c: MockData.StatusCounts, c': MockData.StatusCounts)
    requires OnlineDevicesValue(c) == OnlineDevicesValue(c')
    ensures c.healthy == c'.healthy && c.total == c'.total
  {
    var sa, sb, sc, sd := NatToString(c.healthy), NatToString(c.total), NatToString(c'.healthy), NatToString(c'.total);
    SeparatorPosition(c.healthy, c.total, c'.healthy, c'.total);
    SeparatorPosition(c'.healthy, c'.total, c.healthy, c.total);
    var t := OnlineDevicesValue(c);
    assert sa == t[..|sa|] == sc;
    assert sb == t[|sa| + 3..] == sd;
    NatToStringInjective(c.healthy, c'.healthy);
    NatToStringInjective(c.total, c'.total);
  }

  /** The number of devices needing attention. */
  function ActiveAlertsValue(c: MockData.StatusCounts): (n: nat)
    ensures n == 0 <==> c.warning == 0 && c.critical == 0
    ensures n >= c.critical
  {
    c.warning + c.critical
  }

  /** The "Active Alerts" card is coloured by the same rule as "Online Devices",
      so it is healthy exactly when it shows zero. */
  function ActiveAlertsStatus(c: MockData.StatusCounts): (s: Status)
    ensures s == OnlineDevicesStatus(c)
    ensures s == Healthy <==> ActiveAlertsValue(c) == 0
  {
    CardStatus(c)
  }

  /** On the seeded inventory: critical, "4 / 7" online and 3 active alerts. */
  method SeededCards(loadTime: Timestamp) returns (online: Status, onlineText: string, active: nat, activeStatus: Status)
    ensures online == Critical && activeStatus == Critical
    ensures onlineText == "4 / 7" && active == 3
  {
    var counts := MockData.SeededStatusCounts(loadTime);
    online := OnlineDevicesStatus(counts);
    onlineText := OnlineDevicesValue(counts);
    active := ActiveAlertsValue(counts);
    activeStatus := ActiveAlertsStatus(counts);
  }
}
