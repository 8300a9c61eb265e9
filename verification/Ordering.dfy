/** The sorts of the program: locations within a server, servers by hostname, and load-balancer addresses. */
module Ordering {
  import opened Basics
  import opened Sorting
  import opened Paths
  import opened ServerBuilder
  import opened Strings

  // ----- Locations: longest path first, and among paths of one length the greatest first -----

  predicate PathAfter(a: Location, b: Location) {
    StringLess(b.path, a.path)
  }

  predicate LongerPath(a: Location, b: Location) {
    |a.path| > |b.path|
  }

  predicate LocationBefore(a: Location, b: Location) {
    |a.path| > |b.path| || (|a.path| == |b.path| && StringLess(b.path, a.path))
  }

  lemma LocationRanks()
    ensures Ranks(PathAfter) && Ranks(LongerPath)
  {
    StringLessRanks();
    forall x: Location, y: Location, z: Location | PathAfter(x, y) && PathAfter(y, z) ensures PathAfter(x, z) {
      assert StringLess(z.path, y.path) && StringLess(y.path, x.path);
    }
    forall x: Location, y: Location | Same(PathAfter, x, y) ensures x.path == y.path {
      assert Same(StringLess, x.path, y.path);
    }
  }

  function OnPath(locs: seq<Location>, path: string): seq<Location> {
    Filter(locs, (l: Location) => l.path == path)
  }

  function SortedLocations(locs: seq<Location>): seq<Location> {
    StableSort(StableSort(locs, PathAfter), LongerPath)
  }

  /** The two stable sorts of the locations, by path and then by length, are one stable sort by both: nothing is
      lost, the order is that of length and path, and locations of one path keep their sequence. */
  lemma LocationSortIsOne(locs: seq<Location>)
    ensures var t := SortedLocations(locs);
            && multiset(t) == multiset(locs)
            && (forall i, j | 0 <= i < j < |t| :: !LocationBefore(t[j], t[i]))
            && forall path :: OnPath(t, path) == OnPath(locs, path)
  {
    LocationRanks();
    TwoPasses(locs, LongerPath, PathAfter);
    ThenRanks(LongerPath, PathAfter);
    StableSortMembers(locs, PathAfter);
    StableSortMembers(StableSort(locs, PathAfter), LongerPath);
    StableSortMeets(locs, Then(LongerPath, PathAfter));
    BothSorted(locs, SortedLocations(locs));
  }

  lemma BothSorted(locs: seq<Location>, t: seq<Location>)
    requires IsStableSort(locs, t, Then(LongerPath, PathAfter))
    ensures forall i, j | 0 <= i < j < |t| :: !LocationBefore(t[j], t[i])
    ensures forall path :: OnPath(t, path) == OnPath(locs, path)
  {
    var both := Then(LongerPath, PathAfter);
    forall i, j | 0 <= i < j < |t| ensures !LocationBefore(t[j], t[i]) {
      assert !both(t[j], t[i]);
    }
    forall path ensures OnPath(t, path) == OnPath(locs, path) {
      var x := Location(path, Exact, false, "", None);
      forall l: Location ensures l.path == path <==> Same(both, x, l) {
        StringLessTotal(l.path, path);
        assert both(x, l) == (LongerPath(x, l) || (Same(LongerPath, x, l) && PathAfter(x, l)));
        assert both(l, x) == (LongerPath(l, x) || (Same(LongerPath, l, x) && PathAfter(l, x)));
      }
      FilterSame(t, (l: Location) => l.path == path, l => Same(both, x, l));
      FilterSame(locs, (l: Location) => l.path == path, l => Same(both, x, l));
      assert Class(t, x, both) == Class(locs, x, both);
    }
  }

  lemma {:induction false} FilterSame<T>(s: seq<T>, p: T -> bool, q: T -> bool)
    requires forall x | x in s :: p(x) <==> q(x)
    ensures Filter(s, p) == Filter(s, q)
  {
    if s != [] {
      assert forall x | x in s[1..] :: x in s;
      FilterSame(s[1..], p, q);
    }
  }

  // ----- Servers by hostname, whatever the order of the map -----

  datatype Entry = Entry(hostname: string, locations: seq<Location>)

  predicate HostLess(a: Entry, b: Entry) {
    StringLess(a.hostname, b.hostname)
  }

  lemma HostRanks()
    ensures Ranks(HostLess) && forall a: Entry, b: Entry :: Same(HostLess, a, b) ==> a.hostname == b.hostname
  {
    StringLessRanks();
    forall x: Entry, y: Entry | Same(HostLess, x, y) ensures x.hostname == y.hostname {
      assert Same(StringLess, x.hostname, y.hostname);
    }
  }

  ghost predicate Ascending(entries: seq<Entry>) {
    forall i, j | 0 <= i < j < |entries| :: StringLess(entries[i].hostname, entries[j].hostname)
  }

  ghost predicate DistinctHosts(entries: seq<Entry>) {
    forall i, j | 0 <= i < j < |entries| :: entries[i].hostname != entries[j].hostname
  }

  lemma PermutationDistinct(s: seq<Entry>, t: seq<Entry>)
    requires DistinctHosts(s) && multiset(s) == multiset(t)
    ensures DistinctHosts(t)
  {
    SameElements(s, t);
    PermutationNoDup(s, t);
    forall i, j | 0 <= i < j < |t| ensures t[i].hostname != t[j].hostname {
      assert t[i] in s && t[j] in s;
    }
  }

  lemma SortAscends(entries: seq<Entry>)
    requires DistinctHosts(entries)
    ensures Ascending(StableSort(entries, HostLess))
  {
    HostRanks();
    StableSortMeets(entries, HostLess);
    StableSortMembers(entries, HostLess);
    var t := StableSort(entries, HostLess);
    PermutationDistinct(entries, t);
    forall i, j | 0 <= i < j < |t| ensures StringLess(t[i].hostname, t[j].hostname) {
      StringLessTotal(t[i].hostname, t[j].hostname);
      assert !HostLess(t[j], t[i]);
    }
  }

  /** The server list: the map is walked in an arbitrary order, and the result does not show it. */
  method ListServers(servers: Servers) returns (aServers: seq<Entry>)
    ensures Ascending(aServers)
    ensures forall e :: e in aServers <==> e.hostname in servers && e.locations == SortedLocations(servers[e.hostname])
  {
    aServers := [];
    var left := servers.Keys;
    while left != {}
      invariant left <= servers.Keys
      invariant forall e :: e in aServers <==>
                  e.hostname in servers && e.hostname !in left && e.locations == SortedLocations(servers[e.hostname])
      invariant DistinctHosts(aServers)
      decreases left
    {
      var host :| host in left;
      left := left - {host};
      aServers := aServers + [Entry(host, SortedLocations(servers[host]))];
    }
    SortAscends(aServers);
    StableSortMembers(aServers, HostLess);
    ghost var before := aServers;
    aServers := StableSort(aServers, HostLess);
    SameElements(before, aServers);
  }

  lemma HasMember<T>(s: seq<T>)
    ensures s != [] ==> exists x :: x in s
  {
    if s != [] {
      assert s[0] in s;
    }
  }

  /** The list is determined by the map: no order of walking it can give another. */
  lemma {:induction false} ListIsCanonical(a: seq<Entry>, b: seq<Entry>)
    requires Ascending(a) && Ascending(b) && forall e :: e in a <==> e in b
    ensures a == b
    decreases |a|
  {
    HasMember(a);
    HasMember(b);
    if a != [] {
      assert a[0] in b && b[0] in a;
      HeadsEqual(a, b);
      forall e ensures e in a[1..] <==> e in b[1..] {
        TailMember(a, e);
        TailMember(b, e);
      }
      ListIsCanonical(a[1..], b[1..]);
      assert a == [a[0]] + a[1..] && b == [b[0]] + b[1..];
    }
  }

  lemma HeadsEqual(a: seq<Entry>, b: seq<Entry>)
    requires Ascending(a) && Ascending(b) && a != [] && b != [] && a[0] in b && b[0] in a
    ensures a[0] == b[0]
  {
    var i :| 0 <= i < |b| && b[i] == a[0];
    var j :| 0 <= j < |a| && a[j] == b[0];
    StringLessTotal(a[0].hostname, b[0].hostname);
  }

  lemma TailMember(a: seq<Entry>, e: Entry)
    requires Ascending(a) && a != []
    ensures e in a[1..] <==> e in a && e != a[0]
  {
    if e in a[1..] {
      var k :| 0 <= k < |a[1..]| && a[1..][k] == e;
      assert StringLess(a[0].hostname, a[k + 1].hostname);
      StringLessTotal(e.hostname, e.hostname);
    }
    if e in a && e != a[0] {
      var k :| 0 <= k < |a| && a[k] == e;
      assert a[1..][k - 1] == e;
    }
  }

  // ----- Upstreams by name -----

  ghost predicate AscendingNames(ups: seq<Upstream>) {
    forall i, j | 0 <= i < j < |ups| :: StringLess(ups[i].name, ups[j].name)
  }

  /** The upstream list: the map is walked in an arbitrary order, and the result does not show it. */
  method ListUpstreams(upstreams: Upstreams) returns (aUpstreams: seq<Upstream>)
    requires forall n | n in upstreams :: upstreams[n].name == n
    ensures AscendingNames(aUpstreams)
    ensures forall u :: u in aUpstreams <==> u.name in upstreams && upstreams[u.name] == u
  {
    var names := ListOf(upstreams.Keys);
    aUpstreams := [];
    for i := 0 to |names|
      invariant |aUpstreams| == i
      invariant forall k | 0 <= k < i :: names[k] in upstreams && aUpstreams[k] == upstreams[names[k]]
    {
      assert names[i] in names;
      aUpstreams := aUpstreams + [upstreams[names[i]]];
    }
    forall u ensures u in aUpstreams <==> u.name in upstreams && upstreams[u.name] == u {
      if u.name in upstreams && upstreams[u.name] == u {
        var k :| 0 <= k < |names| && names[k] == u.name;
        assert aUpstreams[k] == u;
      }
    }
  }

  // ----- Load-balancer addresses of an Ingress status -----

  datatype Address = Address(hostname: string, ip: string, ports: string)

  type AddressKey = (string, string)

  predicate AddressLess(a: Address, b: Address) {
    StringLess(a.hostname, b.hostname) || (a.hostname == b.hostname && StringLess(a.ip, b.ip))
  }

  predicate KeyLess(a: AddressKey, b: AddressKey) {
    StringLess(a.0, b.0) || (a.0 == b.0 && StringLess(a.1, b.1))
  }

  function KeyOf(a: Address): AddressKey {
    (a.hostname, a.ip)
  }

  function Keys(s: seq<Address>): seq<AddressKey> {
    Map(KeyOf, s)
  }

  lemma KeyRanks()
    ensures Ranks(KeyLess) && Total(KeyLess) && Ranks(AddressLess)
  {
    StringLessRanks();
    forall x: AddressKey, y: AddressKey | Same(KeyLess, x, y) ensures x == y {
      assert Same(StringLess, x.0, y.0);
      assert Same(StringLess, x.1, y.1);
    }
    forall x: AddressKey, y: AddressKey, z: AddressKey | KeyLess(x, y) && KeyLess(y, z) ensures KeyLess(x, z) {
    }
    forall x: Address, y: Address ensures AddressLess(x, y) <==> KeyLess((x.hostname, x.ip), (y.hostname, y.ip)) {
    }
    forall x: Address, y: Address, z: Address | Same(AddressLess, x, y) && Same(AddressLess, y, z)
      ensures Same(AddressLess, x, z)
    {
      assert Same(KeyLess, (x.hostname, x.ip), (y.hostname, y.ip));
      assert Same(KeyLess, (y.hostname, y.ip), (z.hostname, z.ip));
    }
    forall x: Address, y: Address, z: Address | AddressLess(x, y) && AddressLess(y, z) ensures AddressLess(x, z) {
      assert KeyLess((x.hostname, x.ip), (z.hostname, z.ip));
    }
  }

  function Copies<T>(x: T, n: nat): seq<T> {
    if n == 0 then [] else [x] + Copies(x, n - 1)
  }

  lemma CountCons<T>(h: T, s: seq<T>, x: T)
    ensures multiset([h] + s)[x] == multiset(s)[x] + if h == x then 1 else 0
  {
  }

  lemma ClassCons<T(!new)>(h: T, s: seq<T>, less: (T, T) -> bool, x: T)
    requires Ranks(less) && Total(less)
    ensures Class([h] + s, x, less) == if h == x then [x] + Class(s, x, less) else Class(s, x, less)
  {
    FilterCons(h, s, y => Same(less, x, y));
    assert Same(less, x, h) <==> x == h;
  }

  /** For a total order a class is so many copies of one element. */
  lemma {:induction false} ClassIsCopies<T(!new)>(s: seq<T>, less: (T, T) -> bool, x: T)
    requires Ranks(less) && Total(less)
    ensures Class(s, x, less) == Copies(x, multiset(s)[x])
  {
    if s != [] {
      ClassIsCopies(s[1..], less, x);
      ClassCons(s[0], s[1..], less, x);
      CountCons(s[0], s[1..], x);
      assert s == [s[0]] + s[1..];
    }
  }

  /** Sorted lists of one multiset are equal. */
  lemma SortedPermutationsEqual<T(!new)>(s: seq<T>, t: seq<T>, less: (T, T) -> bool)
    requires Ranks(less) && Total(less) && SortedBy(s, less) && SortedBy(t, less) && multiset(s) == multiset(t)
    ensures s == t
  {
    forall x ensures Class(s, x, less) == Class(t, x, less) {
      ClassIsCopies(s, less, x);
      ClassIsCopies(t, less, x);
    }
    StableSortUnique(s, t, less);
  }

  lemma SortedKeys(s: seq<Address>)
    ensures SortedBy(Keys(StableSort(s, AddressLess)), KeyLess)
    ensures multiset(Keys(StableSort(s, AddressLess))) == multiset(Keys(s))
  {
    KeyRanks();
    StableSortMeets(s, AddressLess);
    StableSortMembers(s, AddressLess);
    MapPermuted(KeyOf, StableSort(s, AddressLess), s);
    var t := StableSort(s, AddressLess);
    forall i, j | 0 <= i < j < |t| ensures !KeyLess(Keys(t)[j], Keys(t)[i]) {
      assert !AddressLess(t[j], t[i]);
    }
  }

  /** Sorting both lists and comparing them position by position compares them as multisets. */
  lemma SortedComparison(a: seq<Address>, b: seq<Address>)
    ensures Keys(StableSort(a, AddressLess)) == Keys(StableSort(b, AddressLess)) <==>
            multiset(Keys(a)) == multiset(Keys(b))
  {
    SortedKeys(a);
    SortedKeys(b);
    KeyRanks();
    if multiset(Keys(a)) == multiset(Keys(b)) {
      SortedPermutationsEqual(Keys(StableSort(a, AddressLess)), Keys(StableSort(b, AddressLess)), KeyLess);
    }
  }

  function HostsAndIps(s: seq<Address>): seq<(string, string)> {
    seq(|s|, i requires 0 <= i < |s| => (s[i].hostname, s[i].ip))
  }

  method IngressSliceEqual(lhs: seq<Address>, rhs: seq<Address>) returns (r: bool)
    ensures r == (Keys(lhs) == Keys(rhs))
    ensures r == (HostsAndIps(lhs) == HostsAndIps(rhs))
  {
    if |lhs| != |rhs| {
      return false;
    }
    for i := 0 to |lhs|
      invariant forall k | 0 <= k < i :: lhs[k].ip == rhs[k].ip && lhs[k].hostname == rhs[k].hostname
    {
      if lhs[i].ip != rhs[i].ip || lhs[i].hostname != rhs[i].hostname {
        assert Keys(lhs)[i] != Keys(rhs)[i] && HostsAndIps(lhs)[i] != HostsAndIps(rhs)[i];
        return false;
      }
    }
    return true;
  }

  /** The status update: an Ingress is skipped exactly when its addresses are, with multiplicity, the new ones. */
  method UpdateStatus(newIngressPoint: seq<Address>, statuses: seq<seq<Address>>) returns (queued: seq<nat>)
    ensures forall i :: i in queued <==>
              0 <= i < |statuses| && multiset(HostsAndIps(statuses[i])) != multiset(HostsAndIps(newIngressPoint))
  {
    queued := [];
    assert forall s: seq<Address> :: Keys(s) == HostsAndIps(s);
    var sorted := StableSort(newIngressPoint, AddressLess);
    for i := 0 to |statuses|
      invariant forall k :: k in queued <==>
                  0 <= k < i && multiset(Keys(statuses[k])) != multiset(Keys(newIngressPoint))
    {
      var curIPs := StableSort(statuses[i], AddressLess);
      SortedComparison(statuses[i], newIngressPoint);
      var same := IngressSliceEqual(curIPs, sorted);
      if same {
        continue;
      }
      queued := queued + [i];
    }
  }
}
