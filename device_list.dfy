/** The network device table: the search over name, location and IP address,
    the colour class of a response time, and the capitalised status label. */
module DeviceList {
  import opened Types
  import opened Text
  import opened Seqs
  import MockData

  /** What the search promises: the lower-cased term inside the lower-cased
      name or location, or the term exactly as typed inside the IP address. */
  ghost predicate Matches(d: NetworkDevice, term: string) {
    (exists i :: OccursAt(Lower(d.name), Lower(term), i)) ||
    (exists i :: OccursAt(Lower(d.location), Lower(term), i)) ||
    (exists i :: OccursAt(d.ipAddress, term, i))
  }

  function KeepDevice(d: NetworkDevice, term: string): (keep: bool)
    ensures keep <==> Matches(d, term)
  {
    Contains(Lower(d.name), Lower(term)) ||
    Contains(Lower(d.location), Lower(term)) ||
    Contains(d.ipAddress, term)
  }

  function DeviceKeeper(term: string): NetworkDevice -> bool {
    d => KeepDevice(d, term)
  }

  /** The rows of the table: an order-preserving subsequence of the devices
      holding every occurrence of the matching ones and nothing else. */
  function FilterDevices(devices: seq<NetworkDevice>, term: string): (shown: seq<NetworkDevice>)
    ensures IsSubsequence(shown, devices)
    ensures forall d :: d in shown <==> d in devices && Matches(d, term)
    ensures forall d :: multiset(shown)[d] == if Matches(d, term) then multiset(devices)[d] else 0
  {
    FilterIsSubsequence(devices, DeviceKeeper(term));
    FilterCounts(devices, DeviceKeeper(term));
    Filter(devices, DeviceKeeper(term))
  }

  /** With the search box empty every device is listed, in order. */
  lemma EmptySearchShowsAll(devices: seq<NetworkDevice>)
    ensures FilterDevices(devices, "") == devices
  {
    forall i | 0 <= i < |devices| ensures DeviceKeeper("")(devices[i]) {
      assert OccursAt(devices[i].ipAddress, "", 0);
    }
    FilterKeepsAll(devices, DeviceKeeper(""));
  }

  lemma LowerRouterTerm()
    ensures Lower("ROUTER") == "router"
  {
    var r := Lower("ROUTER");
    assert r[0] == 'r' && r[1] == 'o' && r[2] == 'u' && r[3] == 't' && r[4] == 'e' && r[5] == 'r';
  }

  lemma LowerRouterName(name: string)
    requires name == "Primary Router"
    ensures Lower(name)[8..14] == "router"
  {
    assert name[8] == 'R';
    assert name[9] == 'o';
    assert name[10] == 'u';
    assert name[11] == 't';
    assert name[12] == 'e';
    assert name[13] == 'r';
    var r := Lower(name);
    assert r[8] == 'r' && r[9] == 'o' && r[10] == 'u' && r[11] == 't' && r[12] == 'e' && r[13] == 'r';
  }

  /** Name search ignores case: "ROUTER" finds the seeded "Primary Router". */
  lemma NameSearchIgnoresCase(loadTime: Timestamp)
    ensures KeepDevice(MockData.Devices(loadTime)[0], "ROUTER")
  {
    var d := MockData.Devices(loadTime)[0];
    LowerRouterTerm();
    LowerRouterName(d.name);
    assert OccursAt(Lower(d.name), Lower("ROUTER"), 8);
  }

  /** A one-character term occurs exactly where that character does. */
  lemma ContainsChar(s: string, c: char)
    ensures Contains(s, [c]) <==> exists k :: 0 <= k < |s| && s[k] == c
  {
    forall i | OccursAt(s, [c], i) ensures 0 <= i < |s| && s[i] == c {
      assert s[i..i + 1][0] == s[i];
    }
    forall k | 0 <= k < |s| && s[k] == c ensures OccursAt(s, [c], k) {
      assert s[k..k + 1] == [c];
    }
  }

  /** The address is searched as typed, without lower-casing: an upper-case
      "E" does not find the "e" of a device addressed "fe80::1" when neither
      its name nor its location contains a letter that lower-cases to "e". */
  lemma AddressSearchIsCaseSensitive(d: NetworkDevice)
    requires d.ipAddress == "fe80::1"
    requires forall k :: 0 <= k < |d.name| ==> Lower(d.name)[k] != 'e'
    requires forall k :: 0 <= k < |d.location| ==> Lower(d.location)[k] != 'e'
    ensures !KeepDevice(d, "E")
  {
    assert Lower("E") == "e";
    var n, l := Lower(d.name), Lower(d.location);
    ContainsChar(n, 'e');
    ContainsChar(l, 'e');
    ContainsChar(d.ipAddress, 'E');
  }

  /** The colour of a response time in milliseconds. */
  datatype ResponseClass = Green | Amber | Red

  function ClassifyResponse(ms: int): (c: ResponseClass)
    ensures c == Green <==> ms < 20
    ensures c == Amber <==> 20 <= ms < 100
    ensures c == Red <==> 100 <= ms
  {
    if ms < 20 then Green else if ms < 100 then Amber else Red
  }

  function ClassRank(c: ResponseClass): nat {
    match c
    case Green => 0
    case Amber => 1
    case Red => 2
  }

  /** A slower response never gets a better colour. */
  lemma ClassifyIsMonotone(ms: int, ms': int)
    requires ms <= ms'
    ensures ClassRank(ClassifyResponse(ms)) <= ClassRank(ClassifyResponse(ms'))
  {
  }

  /** A non-empty word of lower-case ASCII letters, as every status name is. */
  predicate IsLowerWord(w: string) {
    |w| > 0 && forall k :: 0 <= k < |w| ==> 'a' <= w[k] <= 'z'
  }

  /** Capitalising a lower-case word upper-cases its first letter and nothing else, and lower-casing undoes it. */
  lemma CapitalizeLowerWord(w: string)
    requires IsLowerWord(w)
    ensures IsUpper(Capitalize(w)[0]) && Capitalize(w)[1..] == w[1..]
    ensures Lower(Capitalize(w)) == w
  {
    CapitalizeOnlyChangesCase(w);
    assert Lower(w) == w;
  }

  /** The badge text: the status name with its first letter upper-cased. */
  function StatusLabel(s: Status): (text: string)
    ensures Lower(text) == StatusName(s)
    ensures |text| == |StatusName(s)| && text[1..] == StatusName(s)[1..]
    ensures IsUpper(text[0])
  {
    var name := StatusName(s);
    assert IsLowerWord(name);
    CapitalizeLowerWord(name);
    Capitalize(name)
  }
}
