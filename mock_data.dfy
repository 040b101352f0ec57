/** The seeded network inventory and the two derivations the dashboard
    computes from it: the tally of device statuses and the "… ago" label of a
    timestamp. Seeded timestamps are offsets from the moment the module is
    loaded, which is a parameter here, as is the clock read by getRelativeTime. */
module MockData {
  import opened Types
  import opened Text
  import opened Seqs

  function Devices(loadTime: Timestamp): seq<NetworkDevice> {
    [ NetworkDevice("dev-1", "Primary Router", Router, "Admin Building", Healthy, "192.168.1.1", loadTime - 120000, 5),
      NetworkDevice("dev-2", "Science Lab Switch", Switch, "Science Building", Warning, "192.168.2.1", loadTime - 360000, 35),
      NetworkDevice("dev-3", "Library AP-1", AccessPoint, "Library", Healthy, "192.168.3.10", loadTime - 90000, 12),
      NetworkDevice("dev-4", "Dorm Block-A Router", Router, "Dormitory A", Critical, "192.168.4.1", loadTime - 600000, 120),
      NetworkDevice("dev-5", "Admin Server", Server, "Admin Building", Healthy, "192.168.1.10", loadTime - 180000, 8),
      NetworkDevice("dev-6", "Engineering AP-1", AccessPoint, "Engineering Building", Healthy, "192.168.5.10", loadTime - 150000, 15),
      NetworkDevice("dev-7", "Student Center Switch", Switch, "Student Center", Warning, "192.168.6.1", loadTime - 420000, 45) ]
  }

  const Buildings: seq<Building> :=
    [ Building("bldg-1", "Admin Building", 100, 150, ["dev-1", "dev-5"], Healthy),
      Building("bldg-2", "Science Building", 250, 100, ["dev-2"], Warning),
      Building("bldg-3", "Library", 400, 200, ["dev-3"], Healthy),
      Building("bldg-4", "Dormitory A", 150, 300, ["dev-4"], Critical),
      Building("bldg-5", "Engineering Building", 300, 350, ["dev-6"], Healthy),
      Building("bldg-6", "Student Center", 450, 100, ["dev-7"], Warning) ]

  function Alerts(loadTime: Timestamp): seq<Alert> {
    [ Alert("alert-1", "dev-4", "Dorm Block-A Router", "Device is offline and unreachable", loadTime - 600000, Critical, false),
      Alert("alert-2", "dev-2", "Science Lab Switch", "High latency detected (35ms)", loadTime - 360000, Warning, false),
      Alert("alert-3", "dev-7", "Student Center Switch", "Packet loss detected (5%)", loadTime - 420000, Warning, false),
      Alert("alert-4", "dev-1", "Primary Router", "Memory usage above 90%", loadTime - 900000, Warning, true),
      Alert("alert-5", "dev-5", "Admin Server", "Service restarted successfully", loadTime - 1200000, Healthy, true) ]
  }

  // ---------------------------------------------------------------------------
  // Status tally

  datatype StatusCounts = StatusCounts(healthy: nat, warning: nat, critical: nat, total: nat)

  /** Number of devices with status `s`. */
  function CountStatus(devices: seq<NetworkDevice>, s: Status): (n: nat)
    ensures n <= |devices|
  {
    if devices == [] then 0
    else CountStatus(devices[..|devices| - 1], s) + (if devices[|devices| - 1].status == s then 1 else 0)
  }

  /** Every device has exactly one of the three statuses. */
  lemma {:induction false} CountsAddUp(devices: seq<NetworkDevice>)
    ensures CountStatus(devices, Healthy) + CountStatus(devices, Warning) + CountStatus(devices, Critical) == |devices|
  {
    if devices != [] {
      CountsAddUp(devices[..|devices| - 1]);
    }
  }

  /** getStatusCounts: start from zeros with total = number of devices, then
      bump the counter named by each device's status. */
  method GetStatusCounts(devices: seq<NetworkDevice>) returns (counts: StatusCounts)
    ensures counts.total == |devices|
    ensures counts.healthy == CountStatus(devices, Healthy)
    ensures counts.warning == CountStatus(devices, Warning)
    ensures counts.critical == CountStatus(devices, Critical)
    ensures counts.healthy + counts.warning + counts.critical == counts.total
  {
    counts := StatusCounts(0, 0, 0, |devices|);
    for i := 0 to |devices|
      invariant counts.total == |devices|
      invariant counts.healthy == CountStatus(devices[..i], Healthy)
      invariant counts.warning == CountStatus(devices[..i], Warning)
      invariant counts.critical == CountStatus(devices[..i], Critical)
    {
      assert devices[..i + 1][..i] == devices[..i];
      match devices[i].status {
        case Healthy => counts := counts.(healthy := counts.healthy + 1);
        case Warning => counts := counts.(warning := counts.warning + 1);
        case Critical => counts := counts.(critical := counts.critical + 1);
      }
    }
    assert devices[..|devices|] == devices;
    CountsAddUp(devices);
  }

  lemma CountPrefix(devices: seq<NetworkDevice>, k: nat, s: Status)
    requires k < |devices|
    ensures CountStatus(devices[..k + 1], s) == CountStatus(devices[..k], s) + (if devices[k].status == s then 1 else 0)
  {
    assert devices[..k + 1][..k] == devices[..k];
  }

  /** On the seeded inventory the tally is 4 healthy, 2 warning, 1 critical of 7. */
  lemma SeededCounts(loadTime: Timestamp)
    ensures CountStatus(Devices(loadTime), Healthy) == 4
    ensures CountStatus(Devices(loadTime), Warning) == 2
    ensures CountStatus(Devices(loadTime), Critical) == 1
  {
    var d := Devices(loadTime);
    assert d[..0] == [];
    CountPrefix(d, 0, Healthy); CountPrefix(d, 0, Warning); CountPrefix(d, 0, Critical);
    CountPrefix(d, 1, Healthy); CountPrefix(d, 1, Warning); CountPrefix(d, 1, Critical);
    CountPrefix(d, 2, Healthy); CountPrefix(d, 2, Warning); CountPrefix(d, 2, Critical);
    CountPrefix(d, 3, Healthy); CountPrefix(d, 3, Warning); CountPrefix(d, 3, Critical);
    CountPrefix(d, 4, Healthy); CountPrefix(d, 4, Warning); CountPrefix(d, 4, Critical);
    CountPrefix(d, 5, Healthy); CountPrefix(d, 5, Warning); CountPrefix(d, 5, Critical);
    CountPrefix(d, 6, Healthy); CountPrefix(d, 6, Warning); CountPrefix(d, 6, Critical);
    assert d[..7] == d;
  }

  method SeededStatusCounts(loadTime: Timestamp) returns (counts: StatusCounts)
    ensures counts == StatusCounts(4, 2, 1, 7)
  {
    counts := GetStatusCounts(Devices(loadTime));
    SeededCounts(loadTime);
  }

  // ---------------------------------------------------------------------------
  // Relative time

  datatype TimeUnit = Seconds | Minutes | Hours | Days

  /** An amount of whole units elapsed. */
  datatype RelativeTime = Ago(amount: int, unit: TimeUnit)

  function UnitSeconds(u: TimeUnit): nat {
    match u
    case Seconds => 1
    case Minutes => 60
    case Hours => 3600
    case Days => 86400
  }

  /** Units ordered from finest to coarsest. */
  function UnitRank(u: TimeUnit): nat {
    match u
    case Seconds => 0
    case Minutes => 1
    case Hours => 2
    case Days => 3
  }

  /** Whole seconds between two instants, rounded down as Math.floor does,
      also when the timestamp lies in the future. */
  function ElapsedSeconds(now: Timestamp, past: Timestamp): int {
    (now - past) / 1000
  }

  /** The coarsest unit whose threshold the elapsed time reaches, and how many
      whole such units have elapsed; below a minute the raw (possibly negative)
      second count is kept. */
  function Bucket(seconds: int): (r: RelativeTime)
    ensures r.unit == Seconds <==> seconds < 60
    ensures r.unit == Minutes <==> 60 <= seconds < 3600
    ensures r.unit == Hours <==> 3600 <= seconds < 86400
    ensures r.unit == Days <==> 86400 <= seconds
    ensures r.unit == Seconds ==> r.amount == seconds
    ensures r.unit != Seconds ==>
      r.amount * UnitSeconds(r.unit) <= seconds < (r.amount + 1) * UnitSeconds(r.unit)
    ensures r.unit == Minutes ==> 1 <= r.amount <= 59
    ensures r.unit == Hours ==> 1 <= r.amount <= 23
    ensures r.unit == Days ==> 1 <= r.amount
  {
    if seconds < 60 then Ago(seconds, Seconds)
    else if seconds < 3600 then Ago(seconds / 60, Minutes)
    else if seconds < 86400 then Ago(seconds / 3600, Hours)
    else Ago(seconds / 86400, Days)
  }

  /** More elapsed time never yields a finer unit, nor a smaller amount of the same unit. */
  lemma BucketIsMonotone(s: int, t: int)
    requires s <= t
    ensures UnitRank(Bucket(s).unit) <= UnitRank(Bucket(t).unit)
    ensures Bucket(s).unit == Bucket(t).unit ==> Bucket(s).amount <= Bucket(t).amount
  {
  }

  /** The text after the amount in each of the four templates. */
  function UnitSuffix(u: TimeUnit): string {
    match u
    case Seconds => " seconds ago"
    case Minutes => " minutes ago"
    case Hours => " hours ago"
    case Days => " days ago"
  }

  function Render(r: RelativeTime): string {
    IntToString(r.amount) + UnitSuffix(r.unit)
  }

  /** getRelativeTime, with the clock reading `now` passed in. */
  function GetRelativeTime(now: Timestamp, timestamp: Timestamp): (text: string)
    ensures var s := ElapsedSeconds(now, timestamp);
      s < 60 ==> text == IntToString(s) + " seconds ago"
    ensures var s := ElapsedSeconds(now, timestamp);
      60 <= s < 3600 ==> text == IntToString(s / 60) + " minutes ago"
    ensures var s := ElapsedSeconds(now, timestamp);
      3600 <= s < 86400 ==> text == IntToString(s / 3600) + " hours ago"
    ensures var s := ElapsedSeconds(now, timestamp);
      86400 <= s ==> text == IntToString(s / 86400) + " days ago"
  {
    var s := ElapsedSeconds(now, timestamp);
    var r := Bucket(s);
    assert r.unit == Minutes ==> r.amount == s / 60;
    assert r.unit == Hours ==> r.amount == s / 3600;
    assert r.unit == Days ==> r.amount == s / 86400;
    Render(r)
  }

  lemma ThirtySecondsAgo(now: Timestamp)
    ensures GetRelativeTime(now, now - 30000) == "30 seconds ago"
  {
    assert ElapsedSeconds(now, now - 30000) == 30;
    assert IntToString(30) == "30";
  }

  lemma TwoHoursAgo(now: Timestamp)
    ensures GetRelativeTime(now, now - 2 * 60 * 60 * 1000) == "2 hours ago"
  {
    assert ElapsedSeconds(now, now - 2 * 60 * 60 * 1000) == 7200;
    assert Bucket(7200) == Ago(2, Hours);
    assert IntToString(2) == "2";
  }

  /** A timestamp 1.5 s in the future floors to -2 and stays in the seconds bucket. */
  lemma FutureTimestamp(now: Timestamp)
    ensures GetRelativeTime(now, now + 1500) == "-2 seconds ago"
  {
    assert ElapsedSeconds(now, now + 1500) == -2;
    assert IntToString(-2) == "-2";
  }

  // ---------------------------------------------------------------------------
  // Referential consistency of the seeds

  /** The device an id refers to, first match: how the model reads an alert's
      `deviceId`, or an id in a building's device list, as a reference. */
  function DeviceById(devices: seq<NetworkDevice>, id: string): (r: Option<NetworkDevice>)
    ensures r.None? <==> forall i :: 0 <= i < |devices| ==> devices[i].id != id
    ensures r.Some? ==> exists i :: (0 <= i < |devices| && devices[i] == r.value && r.value.id == id &&
      forall j :: 0 <= j < i ==> devices[j].id != id)
  {
    match FindIndex(devices, (d: NetworkDevice) => d.id == id)
    case None => None
    case Some(i) => Some(devices[i])
  }

  /** Every device id the building lists names an existing device. */
  predicate BuildingRefersToDevices(devices: seq<NetworkDevice>, b: Building) {
    forall j :: 0 <= j < |b.devices| ==> DeviceById(devices, b.devices[j]).Some?
  }

  /** The alert names an existing device and copies that device's name. */
  predicate AlertRefersToDevice(devices: seq<NetworkDevice>, a: Alert) {
    DeviceById(devices, a.deviceId).Some? && DeviceById(devices, a.deviceId).value.name == a.deviceName
  }

  predicate Consistent(devices: seq<NetworkDevice>, buildings: seq<Building>, alerts: seq<Alert>) {
    (forall i :: 0 <= i < |buildings| ==> BuildingRefersToDevices(devices, buildings[i])) &&
    (forall k :: 0 <= k < |alerts| ==> AlertRefersToDevice(devices, alerts[k]))
  }

  predicate DistinctDeviceIds(devices: seq<NetworkDevice>) {
    forall i, j :: 0 <= i < j < |devices| ==> devices[i].id != devices[j].id
  }

  /** When device ids are unique, looking up a device's id finds that device. */
  lemma LookupFindsDevice(devices: seq<NetworkDevice>, k: nat)
    requires DistinctDeviceIds(devices) && k < |devices|
    ensures DeviceById(devices, devices[k].id) == Some(devices[k])
  {
    var r := DeviceById(devices, devices[k].id);
    assert r.Some?;
    var i :| 0 <= i < |devices| && devices[i] == r.value && r.value.id == devices[k].id;
    assert i == k;
  }

  lemma SeedIdsAreDistinct(loadTime: Timestamp)
    ensures DistinctDeviceIds(Devices(loadTime))
  {
    var d := Devices(loadTime);
    forall i, j | 0 <= i < j < |d| ensures d[i].id != d[j].id {
      assert d[i].id[4] != d[j].id[4];
    }
  }

  lemma SeedLookups(loadTime: Timestamp)
    ensures var d := Devices(loadTime);
      DeviceById(d, "dev-1") == Some(d[0]) && DeviceById(d, "dev-2") == Some(d[1]) &&
      DeviceById(d, "dev-3") == Some(d[2]) && DeviceById(d, "dev-4") == Some(d[3]) &&
      DeviceById(d, "dev-5") == Some(d[4]) && DeviceById(d, "dev-6") == Some(d[5]) &&
      DeviceById(d, "dev-7") == Some(d[6])
  {
    var d := Devices(loadTime);
    SeedIdsAreDistinct(loadTime);
    LookupFindsDevice(d, 0); LookupFindsDevice(d, 1); LookupFindsDevice(d, 2); LookupFindsDevice(d, 3);
    LookupFindsDevice(d, 4); LookupFindsDevice(d, 5); LookupFindsDevice(d, 6);
  }

  lemma SeedBuildingRefersToDevices(loadTime: Timestamp, i: nat)
    requires i < |Buildings|
    ensures BuildingRefersToDevices(Devices(loadTime), Buildings[i])
  {
    var d := Devices(loadTime);
    if i == 0 {
      assert Buildings[0].devices == ["dev-1", "dev-5"];
      assert DeviceById(d, "dev-1").Some? && DeviceById(d, "dev-5").Some? by { SeedLookups(loadTime); }
    } else if i == 1 {
      assert Buildings[1].devices == ["dev-2"];
      assert DeviceById(d, "dev-2").Some? by { SeedLookups(loadTime); }
    } else if i == 2 {
      assert Buildings[2].devices == ["dev-3"];
      assert DeviceById(d, "dev-3").Some? by { SeedLookups(loadTime); }
    } else if i == 3 {
      assert Buildings[3].devices == ["dev-4"];
      assert DeviceById(d, "dev-4").Some? by { SeedLookups(loadTime); }
    } else if i == 4 {
      assert Buildings[4].devices == ["dev-6"];
      assert DeviceById(d, "dev-6").Some? by { SeedLookups(loadTime); }
    } else {
      assert Buildings[5].devices == ["dev-7"];
      assert DeviceById(d, "dev-7").Some? by { SeedLookups(loadTime); }
    }
  }

  lemma SeedAlertRefersToDevice(loadTime: Timestamp, k: nat)
    requires k < |Alerts(loadTime)|
    ensures AlertRefersToDevice(Devices(loadTime), Alerts(loadTime)[k])
  {
    var d := Devices(loadTime);
    if k == 0 {
      assert DeviceById(d, "dev-4") == Some(d[3]) by { SeedLookups(loadTime); }
    } else if k == 1 {
      assert DeviceById(d, "dev-2") == Some(d[1]) by { SeedLookups(loadTime); }
    } else if k == 2 {
      assert DeviceById(d, "dev-7") == Some(d[6]) by { SeedLookups(loadTime); }
    } else if k == 3 {
      assert DeviceById(d, "dev-1") == Some(d[0]) by { SeedLookups(loadTime); }
    } else {
      assert DeviceById(d, "dev-5") == Some(d[4]) by { SeedLookups(loadTime); }
    }
  }

  lemma SeedsAreConsistent(loadTime: Timestamp)
    ensures Consistent(Devices(loadTime), Buildings, Alerts(loadTime))
  {
    forall i | 0 <= i < |Buildings| ensures BuildingRefersToDevices(Devices(loadTime), Buildings[i]) {
      SeedBuildingRefersToDevices(loadTime, i);
    }
    forall k | 0 <= k < |Alerts(loadTime)| ensures AlertRefersToDevice(Devices(loadTime), Alerts(loadTime)[k]) {
      SeedAlertRefersToDevice(loadTime, k);
    }
  }
}
