/**
 The ClickHouse addon's imperative code: the functions that change an entry through a pointer,
 the two checks, and the list-reading loops, each proved against its definition in `ClickHouse`.
 */
module ClickHouseCommands {
  import opened Text
  import opened Lists
  import opened Notations
  import opened Peers
  import opened ClickHouse

  lemma {:induction false} PrefixParses(options: seq<string>, n: nat)
    requires n <= |options| && ParseOptions(options).Some?
    ensures ParseOptions(options[..n]).Some?
    decreases |options|
  {
    if n < |options| {
      var init := options[..|options| - 1];
      PrefixParses(init, n);
      assert init[..n] == options[..n];
    } else {
      assert options[..n] == options;
    }
  }

  /** The loop of `parseClickHouseConfigOptions`. */
  method ParseConfigOptions(options: seq<string>) returns (r: Option<map<string, string>>)
    ensures r == ParseOptions(options)
  {
    var settings: map<string, string> := map[];
    for i := 0 to |options|
      invariant ParseOptions(options[..i]) == Some(settings)
    {
      var cut := Cut(options[i], '=');
      assert options[..i + 1][..i] == options[..i] && options[..i + 1][i] == options[i];
      if !cut.found || TrimSpace(cut.before) == "" {
        if ParseOptions(options).Some? { PrefixParses(options, i + 1); }
        return None;
      }
      settings := settings[TrimSpace(cut.before) := cut.after];
    }
    assert options[..|options|] == options;
    r := Some(settings);
  }

  /** The loop of `clickHouseSettingsEqual`, in whatever order the map is walked. */
  method CompareSettings(a: map<string, string>, b: map<string, string>) returns (same: bool)
    ensures same <==> SettingsEqual(a, b)
  {
    if |a| != |b| { return false; }
    var todo := a.Keys;
    while todo != {}
      invariant todo <= a.Keys
      invariant forall k :: k in a.Keys - todo ==> Lookup(b, k) == a[k]
      decreases |todo|
    {
      var key :| key in todo;
      if Lookup(b, key) != a[key] { return false; }
      todo := todo - {key};
    }
    same := true;
  }

  method CheckNoOpFlags(ip: IpParser, stored: Entry, o: Options) returns (ok: bool)
    ensures ok <==> NoOpAccepts(ip, stored, o)
  {
    ok := Unchanged(o.cluster, stored.cluster) && Unchanged(o.shard, stored.shard)
       && Unchanged(o.replica, stored.replica) && Unchanged(o.advertiseHost, stored.advertiseHost)
       && Unchanged(o.interserverPort, stored.interserverPort) && Unchanged(o.tcpPort, stored.tcpPort)
       && Unchanged(o.httpPort, stored.httpPort) && Unchanged(o.listen, stored.listen)
       && Unchanged(o.dataDir, stored.dataDir) && Unchanged(o.adminUser, stored.adminUser)
       && Unchanged(o.adminPassword, stored.adminPassword) && Unchanged(o.version, stored.version);
    if o.peers.Some? {
      var same := SetsEqual(PeerCanon(ip), o.peers.value, stored.peers);
      ok := ok && same;
    }
    if o.keepers.Some? {
      var same := SetsEqual(KeeperCanon(ip), o.keepers.value, stored.keepers);
      ok := ok && same;
    }
    if o.configOptions.Some? {
      var requested := ParseConfigOptions(o.configOptions.value);
      if requested.None? { return false; }
      var same := CompareSettings(requested.value, stored.settings);
      ok := ok && same;
    }
  }

  method CheckTopologyImmutable(ip: IpParser, stored: Entry, next: Entry) returns (ok: bool)
    ensures ok <==> TopologyAccepts(ip, stored, next)
  {
    if next.cluster != stored.cluster { return false; }
    if !Clustered(stored) { return true; }
    if next.shard != stored.shard || next.replica != stored.replica { return false; }
    if next.advertiseHost != stored.advertiseHost || next.tcpPort != stored.tcpPort { return false; }
    if next.interserverPort != stored.interserverPort { return false; }
    ok := SetsEqual(PeerCanon(ip), next.peers, stored.peers);
    if ok { ok := SetsEqual(KeeperCanon(ip), next.keepers, stored.keepers); }
  }

  lemma ReadableStep<P>(n: Notation<P>, a: seq<string>, i: nat)
    requires i < |a| && n.Readable(a[..i])
    ensures n.parse(a[i]).None? ==> !n.Readable(a)
    ensures n.parse(a[i]).Some? ==>
              && n.Readable(a[..i + 1])
              && n.ReadAll(a[..i + 1]) == n.ReadAll(a[..i]) + [n.parse(a[i]).value]
  {
    assert forall k :: 0 <= k < i ==> a[..i + 1][k] == a[..i][k];
  }

  /** The first loop of normalisation: read every element, stop at the first bad one. */
  method ReadList<P>(n: Notation<P>, a: seq<string>) returns (r: Option<seq<P>>)
    ensures r == if n.Readable(a) then Some(n.ReadAll(a)) else None
  {
    var out: seq<P> := [];
    for i := 0 to |a|
      invariant n.Readable(a[..i]) && out == n.ReadAll(a[..i])
    {
      ReadableStep(n, a, i);
      match n.parse(a[i])
      case None => return None;
      case Some(p) => out := out + [p];
    }
    assert a[..|a|] == a;
    r := Some(out);
  }

  lemma EndpointsComparable(x: Endpoint, y: Endpoint)
    ensures !EndpointLess()(x, y) && !EndpointLess()(y, x) ==> x == y
  {
    LessTrichotomy(x.host, y.host);
  }

  lemma SortedEither(a: seq<Endpoint>, b: seq<Endpoint>)
    requires multiset(a) == multiset(b)
    ensures SortBy(EndpointLess(), a) == SortBy(EndpointLess(), b)
  {
    EndpointOrder();
    SortSorts(EndpointLess(), a);
    SortSorts(EndpointLess(), b);
    forall x, y ensures !EndpointLess()(x, y) && !EndpointLess()(y, x) ==> x == y { EndpointsComparable(x, y); }
    SortedUnique(EndpointLess(), SortBy(EndpointLess(), a), SortBy(EndpointLess(), b));
  }

  /** `config.ClickHouseKeeperEndpoints`: collect the endpoints in a map, walk it in any order,
      sort. The order of the walk does not show in the result. */
  method SortedEndpoints(read: seq<Endpoint>) returns (r: seq<Endpoint>)
    ensures r == SortBy(EndpointLess(), Dedup(read))
  {
    var byEndpoint := ToSet(read);
    var todo, walked: seq<Endpoint> := byEndpoint, [];
    while todo != {}
      invariant todo + ToSet(walked) == byEndpoint && todo !! ToSet(walked)
      invariant Distinct(walked)
      decreases |todo|
    {
      var e :| e in todo;
      assert ToSet(walked + [e]) == ToSet(walked) + {e};
      todo, walked := todo - {e}, walked + [e];
    }
    r := SortBy(EndpointLess(), walked);
    DistinctToSetMultiset(walked);
    DistinctToSetMultiset(Dedup(read));
    SortedEither(walked, Dedup(read));
  }

  /** A `*config.ClickHouseConfig`: functions that take the pointer change the entry in place. */
  class EntryRef {
    var cc: Entry

    constructor (e: Entry)
      ensures cc == e
    {
      cc := e;
    }

    method ApplyInstallFlags(o: Options) returns (ok: bool)
      modifies this
      ensures ok <==> Apply(old(cc), o).Some?
      ensures ok ==> Some(cc) == Apply(old(cc), o)
    {
      if o.version.Some? { cc := cc.(version := o.version.value); }
      if cc.version == "" { cc := cc.(version := DEFAULT_VERSION); }
      var imageTag := ImageTag(cc.version);
      if imageTag.None? { return false; }
      cc := cc.(imageTag := imageTag.value);
      cc := cc.(adminPassword := Flag(o.adminPassword, cc.adminPassword));
      cc := cc.(adminUser := NonEmptyFlag(o.adminUser, cc.adminUser));
      cc := cc.(listen := NonEmptyFlag(o.listen, cc.listen));
      cc := cc.(httpPort := Flag(o.httpPort, cc.httpPort));
      cc := cc.(tcpPort := Flag(o.tcpPort, cc.tcpPort));
      cc := cc.(dataDir := NonEmptyFlag(o.dataDir, cc.dataDir));
      cc := cc.(cluster := Flag(o.cluster, cc.cluster));
      cc := cc.(shard := Flag(o.shard, cc.shard));
      cc := cc.(replica := Flag(o.replica, cc.replica));
      cc := cc.(advertiseHost := Flag(o.advertiseHost, cc.advertiseHost));
      cc := cc.(peers := Flag(o.peers, cc.peers));
      cc := cc.(keepers := Flag(o.keepers, cc.keepers));
      cc := cc.(interserverPort := Flag(o.interserverPort, cc.interserverPort));
      if o.configOptions.Some? {
        var settings := ParseConfigOptions(o.configOptions.value);
        if settings.None? { return false; }
        cc := cc.(settings := settings.value);
      }
      ok := true;
    }

    method NormalizeClusterLists(ip: IpParser)
      modifies this
      ensures cc == Normalize(ip, old(cc))
    {
      if !Clustered(cc) { return; }
      if |cc.peers| > 0 {
        var peers := ReadList(PeerNotation(ip), cc.peers);
        if peers.Some? {
          cc := cc.(peers := PeerNotation(ip).PrintAll(SortBy(PeerLess(), peers.value)));
        }
      }
      if |cc.keepers| > 0 {
        var endpoints := ReadList(KeeperNotation(ip), cc.keepers);
        if endpoints.Some? {
          var sorted := SortedEndpoints(endpoints.value);
          cc := cc.(keepers := KeeperNotation(ip).PrintAll(sorted));
        }
      }
    }
  }
}
