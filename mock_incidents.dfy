/** The in-memory incident store and the building lookup used when an
    incident is reported. The Incident record is rebuilt from how the store
    uses it: the seeded records and addIncident. */
module MockIncidents {
  import opened Types
  import opened Text
  import opened Seqs
  import MockData

  datatype IncidentStatus = Pending | Investigating | Resolved | Dismissed

  function IncidentStatusName(s: IncidentStatus): string {
    match s
    case Pending => "pending"
    case Investigating => "investigating"
    case Resolved => "resolved"
    case Dismissed => "dismissed"
  }

  datatype Priority = Low | Medium | High | Critical

  datatype Incident = Incident(
    id: string,
    title: string,
    description: string,
    location: string,
    x: int,
    y: int,
    buildingId: Option<string>,
    reportedBy: string,
    reporterName: string,
    reporterRole: Role,
    timestamp: Timestamp,
    status: IncidentStatus,
    priority: Priority)

  /** What a caller supplies: an incident without id, timestamp and status. */
  datatype IncidentDraft = IncidentDraft(
    title: string,
    description: string,
    location: string,
    x: int,
    y: int,
    buildingId: Option<string>,
    reportedBy: string,
    reporterName: string,
    reporterRole: Role,
    priority: Priority)

  function DraftOf(inc: Incident): IncidentDraft {
    IncidentDraft(inc.title, inc.description, inc.location, inc.x, inc.y, inc.buildingId,
                  inc.reportedBy, inc.reporterName, inc.reporterRole, inc.priority)
  }

  /** The id of the n-th incident: `inc-<n>`. */
  function IncidentId(n: nat): string {
    "inc-" + NatToString(n)
  }

  lemma IncidentIdInjective(n: nat, m: nat)
    requires IncidentId(n) == IncidentId(m)
    ensures n == m
  {
    assert NatToString(n) == IncidentId(n)[4..] == IncidentId(m)[4..] == NatToString(m);
    NatToStringInjective(n, m);
  }

  /** The record addIncident builds: every supplied field copied, the given
      running number as id, the current time, status pending. */
  function Stamp(draft: IncidentDraft, n: nat, now: Timestamp): (inc: Incident)
    ensures DraftOf(inc) == draft
    ensures inc.id == IncidentId(n) && inc.timestamp == now && inc.status == Pending
  {
    Incident(IncidentId(n), draft.title, draft.description, draft.location, draft.x, draft.y,
             draft.buildingId, draft.reportedBy, draft.reporterName, draft.reporterRole,
             now, Pending, draft.priority)
  }

  function SeedIncidents(loadTime: Timestamp): seq<Incident> {
    [ Incident("inc-1", "Wi-Fi Connectivity Issues", "Unable to connect to campus Wi-Fi near the library entrance",
               "Library", 400, 200, Some("bldg-3"), "user-1", "John Doe", Student,
               loadTime - 2 * 60 * 60 * 1000, Investigating, Medium),
      Incident("inc-2", "Network Outage", "Complete network outage in Dormitory A, affecting all students",
               "Dormitory A", 150, 300, Some("bldg-4"), "user-2", "Jane Smith", Staff,
               loadTime - 12 * 60 * 60 * 1000, Resolved, High),
      Incident("inc-3", "Suspicious Network Activity", "Unusual login attempts detected from Science Building computer lab",
               "Science Building", 250, 100, Some("bldg-2"), "user-3", "Admin User", Admin,
               loadTime - 8 * 60 * 60 * 1000, Pending, Priority.Critical) ]
  }

  ghost predicate UniqueIds(incidents: seq<Incident>) {
    forall i, j :: 0 <= i < j < |incidents| ==> incidents[i].id != incidents[j].id
  }

  /** No incident carries an id that a later addIncident could hand out. */
  ghost predicate NoIdAbove(incidents: seq<Incident>) {
    forall k: nat, i :: |incidents| < k && 0 <= i < |incidents| ==> incidents[i].id != IncidentId(k)
  }

  /** Prepending the next incident keeps ids unique and none of them ahead of the count. */
  lemma PrependKeepsIdsFresh(incidents: seq<Incident>, inc: Incident)
    requires UniqueIds(incidents) && NoIdAbove(incidents)
    requires inc.id == IncidentId(|incidents| + 1)
    ensures UniqueIds([inc] + incidents) && NoIdAbove([inc] + incidents)
  {
    var all := [inc] + incidents;
    forall i, j | 0 <= i < j < |all| ensures all[i].id != all[j].id {
      if i == 0 {
        assert all[j] == incidents[j - 1];
      } else {
        assert all[i] == incidents[i - 1] && all[j] == incidents[j - 1];
      }
    }
    forall k: nat, i | |all| < k && 0 <= i < |all| ensures all[i].id != IncidentId(k) {
      if i == 0 {
        if inc.id == IncidentId(k) {
          IncidentIdInjective(|incidents| + 1, k);
        }
      } else {
        assert all[i] == incidents[i - 1];
      }
    }
  }

  lemma SeedIdsAreFresh(loadTime: Timestamp)
    ensures UniqueIds(SeedIncidents(loadTime)) && NoIdAbove(SeedIncidents(loadTime))
  {
    var s := SeedIncidents(loadTime);
    forall k: nat, i | 3 < k && 0 <= i < 3 ensures s[i].id != IncidentId(k) {
      assert s[i].id == IncidentId(i + 1);
      if s[i].id == IncidentId(k) {
        IncidentIdInjective(i + 1, k);
      }
    }
  }

  class IncidentStore {
    var incidents: seq<Incident>

    /** Ids are unique and no id is ahead of the running count. */
    ghost predicate Valid()
      reads this
    {
      UniqueIds(incidents) && NoIdAbove(incidents)
    }

    constructor (loadTime: Timestamp)
      ensures Valid() && incidents == SeedIncidents(loadTime)
    {
      incidents := SeedIncidents(loadTime);
      SeedIdsAreFresh(loadTime);
    }

    /** addIncident: number the draft by the count before insertion, stamp it
        pending, put it in front of the list and return it. */
    method AddIncident(draft: IncidentDraft, now: Timestamp) returns (inc: Incident)
      requires Valid()
      modifies this
      ensures Valid()
      ensures inc == Stamp(draft, |old(incidents)| + 1, now)
      ensures incidents == [inc] + old(incidents)
    {
      inc := Stamp(draft, |incidents| + 1, now);
      PrependKeepsIdsFresh(incidents, inc);
      incidents := [inc] + incidents;
    }
  }

  /** Two reports in a row get the next two ids, newest first, and all ids stay unique. */
  method TwoReports(loadTime: Timestamp, a: IncidentDraft, b: IncidentDraft, t1: Timestamp, t2: Timestamp) {
    var store := new IncidentStore(loadTime);
    var first := store.AddIncident(a, t1);
    var second := store.AddIncident(b, t2);
    assert first.id == IncidentId(4) && second.id == IncidentId(5);
    assert store.incidents[0] == second && store.incidents[1] == first && |store.incidents| == 5;
    assert DraftOf(store.incidents[1]) == a && store.incidents[1].status == Pending;
    assert UniqueIds(store.incidents);
  }

  // ---------------------------------------------------------------------------
  // Building lookup

  /** (x, y) lies within `radius` of the building: Euclidean distance at most
      the radius, compared on squares so that no square root is needed; a
      negative radius admits nothing, as `sqrt(...) <= radius` would not. */
  predicate WithinRadius(b: Building, x: int, y: int, radius: int) {
    0 <= radius && SquaredDistance(b, x, y) <= radius * radius
  }

  function SquaredDistance(b: Building, x: int, y: int): int {
    (b.x - x) * (b.x - x) + (b.y - y) * (b.y - y)
  }

  /** Index of the first building within the radius, in collection order. */
  function FirstWithin(buildings: seq<Building>, x: int, y: int, radius: int): (r: Option<nat>)
    ensures r.None? <==> forall i :: 0 <= i < |buildings| ==> !WithinRadius(buildings[i], x, y, radius)
    ensures r.Some? ==> r.value < |buildings| && WithinRadius(buildings[r.value], x, y, radius)
    ensures r.Some? ==> forall j :: 0 <= j < r.value ==> !WithinRadius(buildings[j], x, y, radius)
  {
    FindIndex(buildings, (b: Building) => WithinRadius(b, x, y, radius))
  }

  /** getBuildingByCoordinates: the name of the first building within the radius (50 by default). */
  function GetBuildingByCoordinates(buildings: seq<Building>, x: int, y: int, radius: int := 50): (name: Option<string>)
    ensures name.None? <==> forall i :: 0 <= i < |buildings| ==> !WithinRadius(buildings[i], x, y, radius)
    ensures name.Some? ==> exists i :: (0 <= i < |buildings| && WithinRadius(buildings[i], x, y, radius) &&
      buildings[i].name == name.value &&
      forall j :: 0 <= j < i ==> !WithinRadius(buildings[j], x, y, radius))
  {
    match FirstWithin(buildings, x, y, radius)
    case None => None
    case Some(i) => Some(buildings[i].name)
  }

  /** A point on a building's own coordinates always finds some building, for any radius >= 0. */
  lemma PointOnBuildingFindsOne(buildings: seq<Building>, k: nat, radius: int)
    requires k < |buildings| && 0 <= radius
    ensures GetBuildingByCoordinates(buildings, buildings[k].x, buildings[k].y, radius).Some?
  {
    assert WithinRadius(buildings[k], buildings[k].x, buildings[k].y, radius);
  }

  /** When exactly one building is within the radius, the lookup names it. */
  lemma OnlyNearbyBuildingIsFound(buildings: seq<Building>, k: nat, x: int, y: int, radius: int)
    requires k < |buildings| && WithinRadius(buildings[k], x, y, radius)
    requires forall j :: 0 <= j < |buildings| && j != k ==> !WithinRadius(buildings[j], x, y, radius)
    ensures GetBuildingByCoordinates(buildings, x, y, radius) == Some(buildings[k].name)
  {
  }

  /** The seeded buildings lie more than 100 apart. */
  lemma SeededBuildingsAreApart(j: nat, k: nat)
    requires j < |MockData.Buildings| && k < |MockData.Buildings| && j != k
    ensures SquaredDistance(MockData.Buildings[j], MockData.Buildings[k].x, MockData.Buildings[k].y) > 100 * 100
  {
    var xs := [100, 250, 400, 150, 300, 450];
    var ys := [150, 100, 200, 300, 350, 100];
    assert MockData.Buildings[j].x == xs[j] && MockData.Buildings[j].y == ys[j];
    assert MockData.Buildings[k].x == xs[k] && MockData.Buildings[k].y == ys[k];
  }

  /** With the default radius, a point on a seeded building finds exactly that building. */
  lemma SeededLookupFindsOwnBuilding(k: nat)
    requires k < |MockData.Buildings|
    ensures GetBuildingByCoordinates(MockData.Buildings, MockData.Buildings[k].x, MockData.Buildings[k].y) ==
      Some(MockData.Buildings[k].name)
  {
    var bs := MockData.Buildings;
    forall j | 0 <= j < |bs| && j != k ensures !WithinRadius(bs[j], bs[k].x, bs[k].y, 50) {
      SeededBuildingsAreApart(j, k);
    }
    OnlyNearbyBuildingIsFound(bs, k, bs[k].x, bs[k].y, 50);
  }

  /** The origin lies more than 50 from every seeded building, so it finds none. */
  lemma FarPointFindsNothing()
    ensures GetBuildingByCoordinates(MockData.Buildings, 0, 0) == None
  {
  }

  /** The location a report takes from the lookup: the building's name when
      the lookup gives a non-empty one (the page tests it for truthiness), and
      "Campus grounds" otherwise. */
  function ReportedLocation(buildings: seq<Building>, x: int, y: int): (location: string)
    ensures var found := GetBuildingByCoordinates(buildings, x, y);
      found.Some? && found.value != "" ==> location == found.value
    ensures var found := GetBuildingByCoordinates(buildings, x, y);
      found.None? || found.value == "" ==> location == "Campus grounds"
    ensures location != ""
  {
    match GetBuildingByCoordinates(buildings, x, y)
    case Some(name) => if name != "" then name else "Campus grounds"
    case None => "Campus grounds"
  }

  /** The id of the first building with this name, which a report stores as its buildingId. */
  function BuildingIdByName(buildings: seq<Building>, name: string): (id: Option<string>)
    ensures id.None? <==> forall i :: 0 <= i < |buildings| ==> buildings[i].name != name
    ensures id.Some? ==> exists i :: (0 <= i < |buildings| && buildings[i].name == name &&
      buildings[i].id == id.value && forall j :: 0 <= j < i ==> buildings[j].name != name)
  {
    match FindIndex(buildings, (b: Building) => b.name == name)
    case None => None
    case Some(i) => Some(buildings[i].id)
  }

  /** When a name is unique among the buildings, looking it up finds that building's id. */
  lemma UniqueNameFindsId(buildings: seq<Building>, k: nat)
    requires k < |buildings|
    requires forall j :: 0 <= j < |buildings| && j != k ==> buildings[j].name != buildings[k].name
    ensures BuildingIdByName(buildings, buildings[k].name) == Some(buildings[k].id)
  {
  }

  /** The seeded buildings have pairwise different names. */
  lemma SeededNamesAreDistinct(j: nat, k: nat)
    requires j < |MockData.Buildings| && k < |MockData.Buildings| && j != k
    ensures MockData.Buildings[j].name != MockData.Buildings[k].name
  {
    var lengths := [14, 16, 7, 11, 20, 14];
    var initials := ['A', 'S', 'L', 'D', 'E', 'S'];
    assert |MockData.Buildings[j].name| == lengths[j] && MockData.Buildings[j].name[0] == initials[j];
    assert |MockData.Buildings[k].name| == lengths[k] && MockData.Buildings[k].name[0] == initials[k];
  }

  /** On the seeded map, a report placed on a building is located at that
      building, and the location's name leads back to the building's id. */
  lemma SeededReportAtBuilding(k: nat)
    requires k < |MockData.Buildings|
    ensures ReportedLocation(MockData.Buildings, MockData.Buildings[k].x, MockData.Buildings[k].y) ==
      MockData.Buildings[k].name
    ensures BuildingIdByName(MockData.Buildings, MockData.Buildings[k].name) == Some(MockData.Buildings[k].id)
  {
    var bs := MockData.Buildings;
    SeededLookupFindsOwnBuilding(k);
    forall j | 0 <= j < |bs| && j != k ensures bs[j].name != bs[k].name {
      SeededNamesAreDistinct(j, k);
    }
    UniqueNameFindsId(bs, k);
  }
}
