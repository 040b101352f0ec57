/** The incident list page: which incidents it shows for a status filter and
    a search term, and which actions it offers to the current user. */
module IncidentsPage {
  import opened Types
  import opened Text
  import opened Seqs
  import opened MockIncidents
  import MockAuth

  /** The status condition: "all", or the incident's status spelled exactly as the filter. */
  predicate StatusAccepts(statusFilter: string, s: IncidentStatus) {
    statusFilter == "all" || IncidentStatusName(s) == statusFilter
  }

  /** The search condition: no term, or the lower-cased term inside the
      lower-cased title, description or location. */
  ghost predicate SearchAccepts(searchTerm: string, inc: Incident) {
    searchTerm == [] ||
    (exists i :: OccursAt(Lower(inc.title), Lower(searchTerm), i)) ||
    (exists i :: OccursAt(Lower(inc.description), Lower(searchTerm), i)) ||
    (exists i :: OccursAt(Lower(inc.location), Lower(searchTerm), i))
  }

  /** The filter callback: a status mismatch rejects at once; otherwise a
      non-empty term must match one of the three text fields. */
  function KeepIncident(inc: Incident, statusFilter: string, searchTerm: string): (keep: bool)
    ensures keep <==> StatusAccepts(statusFilter, inc.status) && SearchAccepts(searchTerm, inc)
  {
    if statusFilter != "all" && IncidentStatusName(inc.status) != statusFilter then
      false
    else if searchTerm != [] then
      var searchLower := Lower(searchTerm);
      Contains(Lower(inc.title), searchLower) ||
      Contains(Lower(inc.description), searchLower) ||
      Contains(Lower(inc.location), searchLower)
    else
      true
  }

  function IncidentKeeper(statusFilter: string, searchTerm: string): Incident -> bool {
    inc => KeepIncident(inc, statusFilter, searchTerm)
  }

  /** The list shown: an order-preserving subsequence of the store holding
      every occurrence of the incidents that meet both conditions and nothing else. */
  function FilterIncidents(incidents: seq<Incident>, statusFilter: string, searchTerm: string): (shown: seq<Incident>)
    ensures IsSubsequence(shown, incidents)
    ensures forall inc :: inc in shown <==>
      inc in incidents && StatusAccepts(statusFilter, inc.status) && SearchAccepts(searchTerm, inc)
    ensures forall inc :: (multiset(shown)[inc] ==
      if StatusAccepts(statusFilter, inc.status) && SearchAccepts(searchTerm, inc) then multiset(incidents)[inc] else 0)
  {
    FilterIsSubsequence(incidents, IncidentKeeper(statusFilter, searchTerm));
    FilterCounts(incidents, IncidentKeeper(statusFilter, searchTerm));
    Filter(incidents, IncidentKeeper(statusFilter, searchTerm))
  }

  /** The initial filters ("all", empty search) show every incident. */
  lemma NoFilterShowsAll(incidents: seq<Incident>)
    ensures FilterIncidents(incidents, "all", "") == incidents
  {
    FilterKeepsAll(incidents, IncidentKeeper("all", ""));
  }

  /** Filtering the shown list again with the same inputs changes nothing. */
  lemma FilterIncidentsIdempotent(incidents: seq<Incident>, statusFilter: string, searchTerm: string)
    ensures FilterIncidents(FilterIncidents(incidents, statusFilter, searchTerm), statusFilter, searchTerm) ==
      FilterIncidents(incidents, statusFilter, searchTerm)
  {
    FilterIdempotent(incidents, IncidentKeeper(statusFilter, searchTerm));
  }

  /** A search term never lets through an incident whose status the filter excludes. */
  lemma SearchDoesNotBypassStatus(inc: Incident, statusFilter: string, searchTerm: string)
    requires statusFilter != "all" && IncidentStatusName(inc.status) != statusFilter
    ensures !KeepIncident(inc, statusFilter, searchTerm)
  {
  }

  /** The search ignores letter case: two terms that lower-case alike keep the same incidents. */
  lemma SearchIgnoresCase(inc: Incident, statusFilter: string, term: string, term': string)
    requires Lower(term) == Lower(term')
    ensures KeepIncident(inc, statusFilter, term) == KeepIncident(inc, statusFilter, term')
  {
    assert |term| == |Lower(term)| == |term'|;
  }

  /** "Report New Incident" is offered to any logged-in user. */
  function CanReportIncident(user: Option<User>): (can: bool)
    ensures can <==> user.Some?
  {
    user != None
  }

  /** The page's `canSeeAllIncidents` flag: true exactly for a logged-in
      user with at least staff rights. The page computes it and never reads
      it, so it restricts nothing. */
  function CanSeeAllIncidents(user: Option<User>): (can: bool)
    ensures can <==> user.Some? && user.value.role != Student
  {
    user != None && MockAuth.Permits(user, Staff)
  }
}
