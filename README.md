# Campus network dashboard — logic layer in Dafny

This project models the logic under the campus network dashboard. The
dashboard itself is a mock: a React front end over in-memory data. The model
covers these parts of it:

- **Authentication service** (`src/lib/mockAuth.ts`). It holds a list of
  users and one "current user" slot. Users log in by email, log out, and
  register; registering refuses an email already in use. A three-level role
  hierarchy decides permissions: admin above staff above student.
- **Incident store** (`src/lib/mockIncidents.ts`). New reports are numbered
  `inc-<n+1>`, stamped `pending` and put at the front of the list. The store
  also looks up the first building within a radius of a map point. The report
  page takes its location from that lookup, falling back to "Campus grounds".
  Separately, it finds the building id by an exact match on the location's
  name (src/pages/ReportIncident.tsx:87).
- **Device data** (`src/lib/mockData.ts`). It holds the seeded devices,
  buildings and alerts, the status tally, and the "N units ago" rendering of
  timestamps.
- **Component rules.** Each of these is a filter or a case split:
  - the incident list's status filter and text search (`src/pages/Incidents.tsx`);
  - the device search, the response-time colour and the status label
    (`src/components/NetworkDeviceList.tsx`);
  - the alert filter, icon and badge (`src/components/AlertsPanel.tsx`);
  - the "Online Devices" and "Active Alerts" summary cards
    (`src/components/NetworkStatusOverview.tsx`).

Each source file becomes one module: `MockAuth`, `MockIncidents`, `MockData`,
`IncidentsPage`, `DeviceList`, `AlertsPanel` and `StatusOverview`. Three
shared modules support them:

- `Types` holds the records of `src/lib/types.ts`.
- `Text` holds ASCII case mapping, decimal rendering and substring search,
  which model `toLowerCase`, template interpolation and `includes`.
- `Seqs` holds the models of `Array.prototype.find` and `filter`, with what
  every filter guarantees: an order-preserving subsequence holding exactly
  the elements that pass.

The two services keep module-level state that they change in place, so each
is a class:

- `AuthService` has `users` and `current`. Its invariant: emails are distinct,
  the user at position i has id `user-<i+1>`, and the current user is one of
  the users.
- `IncidentStore` has `incidents`. Its invariant: ids are unique, and no id is
  `inc-<k>` for a k beyond the current count.

`getStatusCounts` is a loop over the devices. It is a method whose loop
invariants tie the running counters to a counting function. Everything else
is a function, with lemmas stating what it promises.

Timestamps are milliseconds since the epoch, as `Date.getTime()` returns
them. The seeds that read the clock take the load time as a parameter, and
the operations that read the clock take the current time as a parameter.

## Model

| member | source | states |
|---|---|---|
| Seqs.FindIndex | src/lib/mockAuth.ts:40 | `find`: returns none exactly when no element passes; otherwise the position of an element that passes, with no earlier element passing |
| Seqs.Filter | src/components/NetworkDeviceList.tsx:44-48 | `filter`: an element is in the result exactly when it is in the input and passes; the result is no longer than the input |
| Seqs.FilterCounts | src/components/NetworkDeviceList.tsx:44-48 | `filter` keeps every occurrence of a passing element and drops every occurrence of a failing one: each element's multiplicity in the result is its multiplicity in the input if it passes, else 0 |
| Seqs.FilterDropsAll | src/components/AlertsPanel.tsx:13-18 | a filter that passes no element returns the empty list |
| Seqs.FilterAppend | src/components/AlertsPanel.tsx:13-18 | filtering a concatenation is concatenating the filtered parts |
| Seqs.FilterIsSubsequence | src/pages/Incidents.tsx:56 | a filter's result is an order-preserving subsequence of its input |
| Seqs.FilterKeepsAll | src/pages/Incidents.tsx:56-73 | a filter that passes every element returns the input unchanged |
| Seqs.FilterIdempotent | src/pages/Incidents.tsx:56-73 | filtering a filtered list again with the same test changes nothing |
| Seqs.FilterPartition | src/components/AlertsPanel.tsx:13-18 | two complementary filters split the input: the multisets add up to the input's, the lengths add up to its length, and no element is in both |
| Text.Contains | src/pages/Incidents.tsx:66-68 | `includes`: true exactly when the term occurs at some position of the string |
| Text.NatToString | src/lib/mockAuth.ts:63 | the decimal text of a count is non-empty, all digits, and one character long exactly for numbers below 10 |
| Text.NatToStringRoundTrip | src/lib/mockAuth.ts:63 | reading the decimal text back as digits gives the number again |
| Text.NatToStringInjective | src/lib/mockAuth.ts:63 | different numbers render as different texts |
| Text.Lower | src/pages/Incidents.tsx:63-69 | `toLowerCase`: same length; no upper-case letter remains; each upper-case letter becomes its lower-case partner and every other character is unchanged |
| Text.Capitalize | src/components/NetworkDeviceList.tsx:39 | `charAt(0).toUpperCase() + slice(1)`: same length; everything after the first character is unchanged; a lower-case first letter becomes its upper-case partner, any other first character stays; the first character is never a lower-case letter afterwards |
| Text.CapitalizeOnlyChangesCase | src/components/NetworkDeviceList.tsx:39 | upper-casing the first character changes nothing but letter case, and leaves every later character as it was |
| MockAuth.Permits | src/lib/mockAuth.ts:77-86 | with nobody logged in no role is permitted; otherwise a role is permitted exactly when the user's rank (student 0, staff 1, admin 2) is at least the required rank |
| MockAuth.PermitsIsMonotone | src/lib/mockAuth.ts:80-85 | whatever a lower role is permitted, a higher role is permitted too |
| MockAuth.EmailTaken | src/lib/mockAuth.ts:58 | `users.some(u => u.email === email)`: true exactly when some user in the list has that email |
| MockAuth.FirstWithEmail | src/lib/mockAuth.ts:40 | the lookup fails exactly when no user has the email; otherwise it names the first user with that email |
| MockAuth.UserIdInjective | src/lib/mockAuth.ts:63 | different counts give different `user-<n>` ids |
| MockAuth.SequentialIdsAreUnique | src/lib/mockAuth.ts:62-69 | users numbered by position have pairwise distinct ids |
| MockAuth.NewUser | src/lib/mockAuth.ts:62-68 | the registered record has id `user-<n+1>` for n existing users, and the given name, email, role and creation time |
| MockAuth.AppendKeepsInvariant | src/lib/mockAuth.ts:58-70 | appending a user with a fresh email and the next id keeps emails distinct and ids sequential |
| MockAuth.AppendedUserIsFound | src/lib/mockAuth.ts:40-44 | after a user with a fresh email is appended, looking that email up finds exactly that user |
| MockAuth.SeedUsersAreWellFormed | src/lib/mockAuth.ts:5-29 | the three seeded users have distinct emails and ids `user-1` to `user-3` |
| MockAuth.AuthService.constructor | src/lib/mockAuth.ts:5-29 | the initial state is the seeded users with John Doe logged in, and it satisfies the invariant |
| MockAuth.AuthService.GetCurrentUser | src/lib/mockAuth.ts:32-34 | returns the current user, who is one of the users when present |
| MockAuth.AuthService.HasPermission | src/lib/mockAuth.ts:77-86 | true exactly when a user is logged in and that user's rank is at least the required one |
| MockAuth.AuthService.Login | src/lib/mockAuth.ts:36-49 | a known email makes the first user with it current and returns that user; an unknown email fails with invalid credentials ("Invalid email or password") and changes nothing; the password is never consulted |
| MockAuth.AuthService.Logout | src/lib/mockAuth.ts:51-53 | the current user becomes none, the users are unchanged, and the invariant is kept |
| MockAuth.AuthService.Register | src/lib/mockAuth.ts:55-74 | a taken email fails with "User already exists" and changes nothing; otherwise exactly one user with the next id is appended and becomes current; the invariant is kept either way |
| MockAuth.AuthService.RegisterThenLogin | src/lib/mockAuth.ts:36-74 | a login with the email just registered returns the registered user |
| MockIncidents.IncidentIdInjective | src/lib/mockIncidents.ts:55 | different counts give different `inc-<n>` ids |
| MockIncidents.Stamp | src/lib/mockIncidents.ts:53-58 | the new incident copies every supplied field, has id `inc-<n>`, the current time, and status pending |
| MockIncidents.PrependKeepsIdsFresh | src/lib/mockIncidents.ts:55-60 | putting the next-numbered incident in front keeps ids unique and none of them beyond the count |
| MockIncidents.SeedIdsAreFresh | src/lib/mockIncidents.ts:6-49 | the seeded incidents `inc-1` to `inc-3` satisfy the store's id invariant |
| MockIncidents.IncidentStore.constructor | src/lib/mockIncidents.ts:6-49 | the store starts with the seeded incidents and satisfies its invariant |
| MockIncidents.IncidentStore.AddIncident | src/lib/mockIncidents.ts:52-62 | the returned incident is the draft stamped with number n+1 for n incidents before, it is placed in front of the old list, and the id invariant is kept |
| MockIncidents.FirstWithin | src/lib/mockIncidents.ts:66-70 | finds none exactly when no building is within the radius; otherwise the first building within it, in collection order |
| MockIncidents.GetBuildingByCoordinates | src/lib/mockIncidents.ts:65-73 | no name exactly when no building is within the radius (boundary included, squared distances); otherwise the name of the first building within it |
| MockIncidents.PointOnBuildingFindsOne | src/lib/mockIncidents.ts:65-73 | a point on a building's own coordinates always finds a building for any radius of at least 0 |
| MockIncidents.OnlyNearbyBuildingIsFound | src/lib/mockIncidents.ts:66-72 | when exactly one building is within the radius, the lookup names that building |
| MockIncidents.SeededBuildingsAreApart | src/lib/mockData.ts:79-122 | every two seeded buildings are more than 100 apart |
| MockIncidents.SeededLookupFindsOwnBuilding | src/lib/mockIncidents.ts:65-73 | with the default radius of 50, a point on a seeded building finds that building |
| MockIncidents.FarPointFindsNothing | src/lib/mockIncidents.ts:65-73 | the origin is farther than 50 from every seeded building, so the lookup finds none |
| MockIncidents.ReportedLocation | src/pages/ReportIncident.tsx:60-66 | the report location is the name of the building found near the point when that name is non-empty (the page tests it for truthiness), and "Campus grounds" when there is none or the name is empty; it is never empty |
| MockIncidents.BuildingIdByName | src/pages/ReportIncident.tsx:87 | no id exactly when no building has the name; otherwise the id of the first building with it |
| MockIncidents.UniqueNameFindsId | src/pages/ReportIncident.tsx:87 | for a name that only one building has, the lookup returns that building's id |
| MockIncidents.SeededNamesAreDistinct | src/lib/mockData.ts:79-122 | the seeded buildings have pairwise different names |
| MockIncidents.SeededReportAtBuilding | src/pages/ReportIncident.tsx:60-87 | on the seeded map, a report on a building is located at that building, and its location name leads back to that building's id |
| MockData.CountsAddUp | src/lib/mockData.ts:245-254 | the healthy, warning and critical counts add up to the number of devices |
| MockData.GetStatusCounts | src/lib/mockData.ts:244-257 | total is the number of devices, each counter is the number of devices with that status, and the three counters add up to the total |
| MockData.SeededCounts | src/lib/mockData.ts:5-76 | the seeded devices have 4 healthy, 2 warning and 1 critical |
| MockData.SeededStatusCounts | src/lib/mockData.ts:244-257 | the tally of the seeded devices is 4 healthy, 2 warning, 1 critical, 7 in total |
| MockData.Bucket | src/lib/mockData.ts:269-274 | exactly one unit applies: seconds below 60 with the raw count (negative too), minutes below 3600 with 1..59, hours below 86400 with 1..23, days otherwise with at least 1; the amount is the whole number of units elapsed |
| MockData.BucketIsMonotone | src/lib/mockData.ts:271-274 | more elapsed time never gives a finer unit, nor a smaller amount of the same unit |
| MockData.GetRelativeTime | src/lib/mockData.ts:267-275 | with s the elapsed milliseconds divided by 1000 and floored: below 60 it reads "<s> seconds ago"; below 3600 "<s/60> minutes ago"; below 86400 "<s/3600> hours ago"; otherwise "<s/86400> days ago", each quotient floored |
| MockData.ThirtySecondsAgo | src/lib/mockData.ts:267-275 | a timestamp 30 s old renders as "30 seconds ago" |
| MockData.TwoHoursAgo | src/lib/mockData.ts:267-275 | a timestamp two hours old renders as "2 hours ago" |
| MockData.FutureTimestamp | src/lib/mockData.ts:269-271 | a timestamp 1.5 s ahead floors to -2 and renders as "-2 seconds ago" |
| MockData.DeviceById | src/lib/mockData.ts:125-171 | none exactly when no device has the id; otherwise the first device in the list with that id |
| MockData.LookupFindsDevice | src/lib/mockData.ts:5-76 | when device ids are unique, looking up a device's id finds that device |
| MockData.SeedIdsAreDistinct | src/lib/mockData.ts:5-76 | the seeded device ids are pairwise distinct |
| MockData.SeedBuildingRefersToDevices | src/lib/mockData.ts:79-122 | every device id a seeded building lists names a seeded device |
| MockData.SeedAlertRefersToDevice | src/lib/mockData.ts:125-171 | every seeded alert names a seeded device and carries that device's name |
| MockData.SeedsAreConsistent | src/lib/mockData.ts:79-171 | the seeded buildings and alerts refer only to seeded devices |
| IncidentsPage.KeepIncident | src/pages/Incidents.tsx:56-73 | an incident is kept exactly when the status filter is "all" or equals its status, and the term is empty or, lower-cased, occurs in the lower-cased title, description or location |
| IncidentsPage.FilterIncidents | src/pages/Incidents.tsx:56-73 | the list shown is an order-preserving subsequence of the incidents; an incident is in it exactly when it is in the store and meets both conditions, and every occurrence of such an incident is kept |
| IncidentsPage.NoFilterShowsAll | src/pages/Incidents.tsx:56-73 | with filter "all" and an empty search every incident is shown, in order |
| IncidentsPage.FilterIncidentsIdempotent | src/pages/Incidents.tsx:56-73 | filtering the shown list again with the same inputs changes nothing |
| IncidentsPage.SearchDoesNotBypassStatus | src/pages/Incidents.tsx:58-60 | whatever the search term, an incident whose status the filter excludes is not shown |
| IncidentsPage.SearchIgnoresCase | src/pages/Incidents.tsx:63-69 | two search terms that lower-case alike keep exactly the same incidents |
| IncidentsPage.CanReportIncident | src/pages/Incidents.tsx:75 | reporting is offered exactly when a user is logged in |
| IncidentsPage.CanSeeAllIncidents | src/pages/Incidents.tsx:76 | the page's `canSeeAllIncidents` flag is true exactly for a logged-in user who is not a student |
| DeviceList.KeepDevice | src/components/NetworkDeviceList.tsx:44-48 | a device is kept exactly when the lower-cased term occurs in its lower-cased name or location, or the term as typed occurs in its IP address |
| DeviceList.FilterDevices | src/components/NetworkDeviceList.tsx:44-48 | the table shows an order-preserving subsequence of the devices; a device is in it exactly when it is in the list and matches, and every occurrence of a matching device is kept |
| DeviceList.EmptySearchShowsAll | src/components/NetworkDeviceList.tsx:44-48 | an empty search lists every device, in order |
| DeviceList.NameSearchIgnoresCase | src/components/NetworkDeviceList.tsx:45 | the term "ROUTER" finds the seeded "Primary Router" |
| DeviceList.ContainsChar | src/components/NetworkDeviceList.tsx:47 | a one-character term occurs in a string exactly when that character does |
| DeviceList.AddressSearchIsCaseSensitive | src/components/NetworkDeviceList.tsx:47 | the address is searched without lower-casing: "E" does not find a device at "fe80::1" when no character of its name or location lower-cases to "e" |
| DeviceList.ClassifyResponse | src/components/NetworkDeviceList.tsx:88-92 | green exactly below 20 ms, amber exactly from 20 to below 100 ms, red exactly from 100 ms |
| DeviceList.ClassifyIsMonotone | src/components/NetworkDeviceList.tsx:88-92 | a slower response never gets a better colour |
| DeviceList.CapitalizeLowerWord | src/components/NetworkDeviceList.tsx:39 | capitalising a lower-case word upper-cases its first letter only, and lower-casing the result gives the word back |
| DeviceList.StatusLabel | src/components/NetworkDeviceList.tsx:39 | the label lower-cases back to the status name, begins with a capital, and is otherwise the name unchanged |
| AlertsPanel.KeepAlert | src/components/AlertsPanel.tsx:13-18 | "all" keeps every alert; "active" keeps exactly the unresolved ones; "resolved" keeps exactly the resolved ones |
| AlertsPanel.FilterAlerts | src/components/AlertsPanel.tsx:13-18 | the alerts listed are an order-preserving subsequence of all alerts, holding every occurrence of the alerts the filter keeps and no occurrence of the others |
| AlertsPanel.AllShowsEverything | src/components/AlertsPanel.tsx:14 | "all" lists every alert, in order |
| AlertsPanel.ActiveShowsUnresolved | src/components/AlertsPanel.tsx:15 | "active" lists, in order, exactly the unresolved alerts |
| AlertsPanel.ResolvedShowsResolved | src/components/AlertsPanel.tsx:16 | "resolved" lists, in order, exactly the resolved alerts |
| AlertsPanel.ActiveAndResolvedPartition | src/components/AlertsPanel.tsx:13-18 | no alert is both active and resolved, and together the two views hold every alert of "all" exactly once |
| AlertsPanel.ActiveOfThreeThenTwo | src/components/AlertsPanel.tsx:15 | for five alerts of which the first three are unresolved and the last two resolved, "active" lists exactly the first three |
| AlertsPanel.SeededActiveAlerts | src/components/AlertsPanel.tsx:11-18 | the panel opens on "active", which shows the first three seeded alerts |
| AlertsPanel.IconFor | src/components/AlertsPanel.tsx:20-24 | the check icon exactly for resolved alerts; the circle exactly for unresolved critical ones; the triangle exactly for the other unresolved ones |
| AlertsPanel.BadgeText | src/components/AlertsPanel.tsx:82 | the badge reads "Resolved" exactly for resolved alerts, and otherwise shows the severity name |
| StatusOverview.CardStatus | src/components/NetworkStatusOverview.tsx:25 | critical exactly when some device is critical; warning exactly when none is critical and some is in warning; healthy exactly when neither |
| StatusOverview.OnlineDevicesValue | src/components/NetworkStatusOverview.tsx:24 | the text is the healthy count's digits, then " / ", then the total's digits; the text's length is exactly the two digit runs plus three; reading each digit run back gives the healthy count and the total |
| StatusOverview.OnlineDevicesValueIsInjective | src/components/NetworkStatusOverview.tsx:24 | the "<healthy> / <total>" text determines both numbers |
| StatusOverview.ActiveAlertsValue | src/components/NetworkStatusOverview.tsx:38 | the value is zero exactly when no device is in warning or critical, and is at least the critical count |
| StatusOverview.ActiveAlertsStatus | src/components/NetworkStatusOverview.tsx:38-39 | the card uses the same colour rule as "Online Devices", so it is healthy exactly when its value is 0 |
| StatusOverview.SeededCards | src/components/NetworkStatusOverview.tsx:22-40 | on the seeded devices both cards are critical, "Online Devices" reads "4 / 7" and "Active Alerts" reads 3 |

## Left out

- Passwords: `login` and `register` accept a password and never consult it. The model takes the parameter and ignores it.
- Promises: both service calls settle synchronously. The model applies the state change at call time and returns `Ok` or `Err` in place of resolving or rejecting.
- Wall-clock time: every `Date.now()`, `new Date()` and `toISOString()` becomes an integer millisecond value passed in. ISO text formatting is not modelled.
- `formatTime`, `responseTimeData` and the response-time chart are not modelled: they depend on the locale and a chart library.
- The "Network Uptime" card (src/components/NetworkStatusOverview.tsx:9-18) is not modelled. It divides floating-point numbers, rounds with `toFixed(1)`, and gives NaN when there are no devices.
- The "Avg Response Time" card compares the hard-coded text "15ms" by string order, so there is no logic to model.
- Rendering is not modelled: markup, class names, routing, redirects, toasts, form widgets and the campus map SVG.
- The React auth context (src/contexts/AuthContext.tsx) is not modelled. It mirrors the auth service in component state.
- The `canSeeAllIncidents` flag (src/pages/Incidents.tsx:76) gates nothing: the page never reads it, and renders the whole filtered list (src/pages/Incidents.tsx:124-130) to every user who reaches it, students included. IncidentsPage.CanSeeAllIncidents models the flag's value only.
- IncidentsPage.CanSeeAllIncidents: the page tests the context's user for presence, but `hasPermission` reads the service's current user. The model takes both to be the same user, which holds while the context mirrors the service.
- The report page's random geolocation and one-second delay are not modelled; the model takes the point as input.
- `toLowerCase` and `toUpperCase` are modelled on ASCII letters only. Other characters are left unchanged, whereas the source applies Unicode case mapping.
- Response times are integers here. The source's `number` type would also allow fractions; the seeded values are integers.
- The building lookup compares squared distances, not `Math.sqrt`. The two agree on the report page's inputs: integer points with x in 0..499 and y in 0..399 (src/pages/ReportIncident.tsx:55-56), the seeded buildings and the radius of 50. For much larger coordinates or radii, floating-point rounding of the square root could make the source's test differ from the exact one.
- AlertsPanel.KeepAlert keeps the source's final `return true` branch. No filter value reaches it.
- MockIncidents.IncidentStore.Valid states ids unique and none beyond the count. The seeded list holds `inc-1`, `inc-2`, `inc-3` from front to back. So "the incident at position i has id `inc-<length-i>`" is false on the seed, and is not used as the invariant.
- The incident list's status filter and search combine with AND: src/pages/Incidents.tsx:58-60 rejects a status mismatch before the search is looked at (IncidentsPage.SearchDoesNotBypassStatus).
- Role labels and the admin menu in src/components/Header.tsx are not modelled. They are single uses of the role and of `hasPermission`.
