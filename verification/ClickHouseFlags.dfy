/**
 That the flags of a ClickHouse install do what they say: what was passed is what is stored, as far
 as the unforced check can tell, and what was not passed stays. The same for the options of the
 config commands.
 */
module ClickHouseFlags {
  import opened Text
  import opened Lists
  import opened Notations
  import opened Peers
  import opened Runs
  import opened ClickHouse

  // --- passed flags take effect --------------------------------------------------------------------

  /** No flag was passed with a value that defaults replace. */
  predicate NoZeroFlags(o: Options) {
    && NotZero(o.version, "") && NotZero(o.listen, "") && NotZero(o.dataDir, "") && NotZero(o.adminUser, "")
    && NotZero(o.adminPassword, "") && NotZero(o.httpPort, 0) && NotZero(o.tcpPort, 0) && NotZero(o.interserverPort, 0)
  }

  /** A keeper list that normalisation does not shorten. */
  ghost predicate NoRepeats(ip: IpParser, keepers: seq<string>) {
    KeeperNotation(ip).Readable(keepers) && Distinct(KeeperNotation(ip).ReadAll(keepers))
  }

  function Before(stored: Option<Entry>): Entry {
    if stored.Some? then stored.value else EMPTY_ENTRY
  }

  lemma InstallIs(ip: IpParser, stored: Option<Entry>, o: Options, w: World)
    requires Install(ip, stored, o, w).Some?
    ensures Apply(Before(stored), o).Some?
    ensures var next, r := Fill(Apply(Before(stored), o).value, w), Install(ip, stored, o, w).value;
            && Validated(ip, r) && InstallAccepts(ip, next, o, stored.Some?)
            && r.peers == (if Clustered(next) then NormalPeers(ip, next.peers) else next.peers)
            && r.keepers == (if Clustered(next) then NormalKeepers(ip, next.keepers) else next.keepers)
            && r == next.(peers := r.peers, keepers := r.keepers, adminPassword := r.adminPassword)
            && next.peers == Flag(o.peers, Before(stored).peers) && next.keepers == Flag(o.keepers, Before(stored).keepers)
            && r.adminPassword == Default(next.adminPassword, "", w.password)
  {
  }

  lemma TextsTakeEffect(ip: IpParser, stored: Option<Entry>, o: Options, w: World)
    requires Install(ip, stored, o, w).Some?
    ensures var r := Install(ip, stored, o, w).value;
            && Unchanged(o.cluster, r.cluster) && Unchanged(o.shard, r.shard) && Unchanged(o.replica, r.replica)
            && Unchanged(o.advertiseHost, r.advertiseHost)
            && (Unchanged(o.version, r.version) <==> NotZero(o.version, ""))
            && (Unchanged(o.listen, r.listen) <==> NotZero(o.listen, ""))
            && (Unchanged(o.dataDir, r.dataDir) <==> NotZero(o.dataDir, ""))
            && (Unchanged(o.adminUser, r.adminUser) <==> NotZero(o.adminUser, ""))
            && (Unchanged(o.adminPassword, r.adminPassword) <==> NotZero(o.adminPassword, ""))
  {
    InstallIs(ip, stored, o, w);
  }

  lemma NumbersTakeEffect(ip: IpParser, stored: Option<Entry>, o: Options, w: World)
    requires Install(ip, stored, o, w).Some?
    ensures var r := Install(ip, stored, o, w).value;
            && (Unchanged(o.httpPort, r.httpPort) <==> NotZero(o.httpPort, 0))
            && (Unchanged(o.tcpPort, r.tcpPort) <==> NotZero(o.tcpPort, 0))
            && (Unchanged(o.interserverPort, r.interserverPort) <==> NotZero(o.interserverPort, 0))
  {
    InstallIs(ip, stored, o, w);
  }

  lemma SettingsTakeEffect(ip: IpParser, stored: Option<Entry>, o: Options, w: World)
    requires Install(ip, stored, o, w).Some?
    ensures var r := Install(ip, stored, o, w).value;
            if o.configOptions.Some? then ParseOptions(o.configOptions.value) == Some(r.settings)
            else r.settings == Before(stored).settings
  {
    InstallIs(ip, stored, o, w);
  }

  lemma PeersTakeEffect(ip: IpParser, stored: Option<Entry>, o: Options, w: World)
    requires IpTexts(ip) && Install(ip, stored, o, w).Some? && o.peers.Some?
    ensures SameMembers(PeerCanon(ip), o.peers.value, Install(ip, stored, o, w).value.peers)
  {
    InstallIs(ip, stored, o, w);
    var n, r := PeerNotation(ip), Install(ip, stored, o, w).value;
    Lawful(ip);
    PeersDistinct(ip, r);
    if n.Readable(o.peers.value) {
      n.NormalKeepsMembers(PeerLess(), o.peers.value);
    }
    n.ComparisonDecidesAgreement(o.peers.value, r.peers);
  }

  lemma KeepersTakeEffect(ip: IpParser, stored: Option<Entry>, o: Options, w: World)
    requires IpTexts(ip) && Install(ip, stored, o, w).Some? && o.keepers.Some?
    ensures SameMembers(KeeperCanon(ip), o.keepers.value, Install(ip, stored, o, w).value.keepers) <==>
            NoRepeats(ip, o.keepers.value)
  {
    InstallIs(ip, stored, o, w);
    var n, r := KeeperNotation(ip), Install(ip, stored, o, w).value;
    Lawful(ip);
    if n.Readable(o.keepers.value) {
      NormalSetKeepsMembers(n, EndpointLess(), o.keepers.value);
    }
    n.ComparisonDecidesAgreement(o.keepers.value, r.keepers);
  }

  /** After every accepted first or forced install, the unforced check agrees that the entry has what
      was asked for, if and only if no flag was passed with a value that defaults replace and no
      keeper twice. */
  lemma FlagsTakeEffect(ip: IpParser, stored: Option<Entry>, o: Options, w: World)
    requires IpTexts(ip) && Install(ip, stored, o, w).Some?
    ensures NoOpAccepts(ip, Install(ip, stored, o, w).value, o) <==>
            NoZeroFlags(o) && (o.keepers.Some? ==> NoRepeats(ip, o.keepers.value))
  {
    TextsTakeEffect(ip, stored, o, w);
    NumbersTakeEffect(ip, stored, o, w);
    SettingsTakeEffect(ip, stored, o, w);
    if o.peers.Some? { PeersTakeEffect(ip, stored, o, w); }
    if o.keepers.Some? { KeepersTakeEffect(ip, stored, o, w); }
  }

  const NO_FLAGS := Options(None, None, None, None, None, None, None, None, None, None, None, None, None, None, None)

  /** An install without any flag is accepted, and stores the documented defaults: the pinned version,
      the loopback address, the user admin, and ports, path and password as supplied. */
  lemma DefaultsAre(ip: IpParser, w: World)
    requires ip("127.0.0.1") != NotIp && PortInRange(w.httpPort) && PortInRange(w.tcpPort)
    requires w.dataDir != "" && w.password != "" && w.restOk
    ensures Install(ip, None, NO_FLAGS, w) == Some(EMPTY_ENTRY.(
              version := "26.8.36.3", imageTag := "docker.io/clickhouse/clickhouse-server:26.8.36.3", listen := "127.0.0.1",
              adminUser := "admin", adminPassword := w.password, httpPort := w.httpPort, tcpPort := w.tcpPort, dataDir := w.dataDir))
  {
    assert ValidVersion("26.8.36.3");
    assert SERVER_IMAGE + "26.8.36.3" == "docker.io/clickhouse/clickhouse-server:26.8.36.3";
  }

  // --- the rest stays ---------------------------------------------------------------------------------

  predicate Stays<T(==)>(flag: Option<T>, r: T, stored: T) {
    flag.None? ==> r == stored
  }

  lemma TextsStay(ip: IpParser, stored: Entry, o: Options, w: World)
    requires Validated(ip, stored) && Install(ip, Some(stored), o, w).Some?
    ensures var r := Install(ip, Some(stored), o, w).value;
            && Stays(o.version, r.version, stored.version) && Stays(o.listen, r.listen, stored.listen)
            && Stays(o.dataDir, r.dataDir, stored.dataDir) && Stays(o.adminUser, r.adminUser, stored.adminUser)
            && Stays(o.adminPassword, r.adminPassword, stored.adminPassword)
  {
    InstallIs(ip, Some(stored), o, w);
  }

  lemma RestStays(ip: IpParser, stored: Entry, o: Options, w: World)
    requires Validated(ip, stored) && Install(ip, Some(stored), o, w).Some?
    ensures var r := Install(ip, Some(stored), o, w).value;
            && Stays(o.cluster, r.cluster, stored.cluster) && Stays(o.shard, r.shard, stored.shard)
            && Stays(o.replica, r.replica, stored.replica) && Stays(o.advertiseHost, r.advertiseHost, stored.advertiseHost)
            && Stays(o.httpPort, r.httpPort, stored.httpPort) && Stays(o.tcpPort, r.tcpPort, stored.tcpPort)
            && Stays(o.interserverPort, r.interserverPort, stored.interserverPort)
  {
    InstallIs(ip, Some(stored), o, w);
  }

  /** A forced install changes nothing it was not asked to: every field whose flag is absent has its
      stored value, lists up to order and spelling. */
  lemma UnpassedStays(ip: IpParser, stored: Entry, o: Options, w: World)
    requires IpTexts(ip) && Settled(ip, stored) && Install(ip, Some(stored), o, w).Some?
    ensures var r := Install(ip, Some(stored), o, w).value;
            && Stays(o.version, r.version, stored.version) && Stays(o.listen, r.listen, stored.listen)
            && Stays(o.dataDir, r.dataDir, stored.dataDir) && Stays(o.adminUser, r.adminUser, stored.adminUser)
            && Stays(o.adminPassword, r.adminPassword, stored.adminPassword)
            && Stays(o.cluster, r.cluster, stored.cluster) && Stays(o.shard, r.shard, stored.shard)
            && Stays(o.replica, r.replica, stored.replica) && Stays(o.advertiseHost, r.advertiseHost, stored.advertiseHost)
            && Stays(o.httpPort, r.httpPort, stored.httpPort) && Stays(o.tcpPort, r.tcpPort, stored.tcpPort)
            && Stays(o.interserverPort, r.interserverPort, stored.interserverPort)
            && (o.configOptions.None? ==> r.settings == stored.settings)
            && IdentityOf(ip, r) == IdentityOf(ip, stored)
  {
    TextsStay(ip, stored, o, w);
    RestStays(ip, stored, o, w);
    SettingsTakeEffect(ip, Some(stored), o, w);
    InstallKeepsIdentity(ip, Some(stored), o, w);
  }

  // --- KEY=VALUE options -------------------------------------------------------------------------------

  function OptionKey(option: string): string {
    TrimSpace(Cut(option, '=').before)
  }

  predicate WellSpelled(option: string) {
    '=' in option && OptionKey(option) != ""
  }

  /** A key without '=' or outer white space and any value at all, written KEY=VALUE, read back. */
  lemma OptionReadsBack(key: string, value: string)
    requires '=' !in key && key != "" && !IsSpace(key[0]) && !IsSpace(key[|key| - 1])
    ensures var option := key + "=" + value;
            WellSpelled(option) && OptionKey(option) == key && Cut(option, '=').after == value
  {
    CutAt(key, '=', value);
    assert key + ['='] + value == key + "=" + value;
    TrimFixed(key);
  }

  ghost predicate LastOccurrence<K>(ks: seq<K>, i: nat)
    requires i < |ks|
  {
    forall j :: i < j < |ks| ==> ks[j] != ks[i]
  }

  /** Every key that occurs has the value beside its last occurrence, and there are no other keys. */
  ghost predicate LastWins<K, V>(m: map<K, V>, ks: seq<K>, vs: seq<V>)
    requires |ks| == |vs|
  {
    && (forall k :: k in m ==> k in ks)
    && (forall i :: 0 <= i < |ks| ==> ks[i] in m)
    && (forall i :: 0 <= i < |ks| && LastOccurrence(ks, i) ==> m[ks[i]] == vs[i])
  }

  lemma LastWinsNext<K, V>(m: map<K, V>, ks: seq<K>, vs: seq<V>, k: K, v: V)
    requires |ks| == |vs| && LastWins(m, ks, vs)
    ensures LastWins(m[k := v], ks + [k], vs + [v])
  {
    var all := ks + [k];
    assert all[|ks|] == k;
    forall i | 0 <= i < |all| && LastOccurrence(all, i)
      ensures m[k := v][all[i]] == (vs + [v])[i]
    {
      if i < |ks| {
        forall j | i < j < |ks| ensures ks[j] != ks[i] { assert all[j] != all[i]; }
        assert LastOccurrence(ks, i);
      }
    }
  }

  function Keys(options: seq<string>): (r: seq<string>)
    ensures |r| == |options| && forall i :: 0 <= i < |r| ==> r[i] == OptionKey(options[i])
  {
    if options == [] then [] else Keys(options[..|options| - 1]) + [OptionKey(options[|options| - 1])]
  }

  function Values(options: seq<string>): (r: seq<string>)
    ensures |r| == |options| && forall i :: 0 <= i < |r| ==> r[i] == Cut(options[i], '=').after
  {
    if options == [] then [] else Values(options[..|options| - 1]) + [Cut(options[|options| - 1], '=').after]
  }

  predicate AllWellSpelled(options: seq<string>) {
    forall i :: 0 <= i < |options| ==> WellSpelled(options[i])
  }

  lemma SpelledSnoc(init: seq<string>, last: string)
    ensures AllWellSpelled(init + [last]) <==> AllWellSpelled(init) && WellSpelled(last)
  {
    var all := init + [last];
    assert all[|init|] == last && forall i :: 0 <= i < |init| ==> all[i] == init[i];
  }

  /** Options are read if and only if each is well spelled; then the last value for a key wins. */
  lemma {:induction false} LastOptionWins(options: seq<string>)
    ensures ParseOptions(options).Some? <==> AllWellSpelled(options)
    ensures ParseOptions(options).Some? ==> LastWins(ParseOptions(options).value, Keys(options), Values(options))
  {
    if options != [] {
      var init, last := options[..|options| - 1], options[|options| - 1];
      LastOptionWins(init);
      TakeNext(options, |options| - 1);
      TakeAll(options);
      LastOption(init, last);
      SpelledSnoc(init, last);
      if ParseOptions(init).Some? {
        LastWinsNext(ParseOptions(init).value, Keys(init), Values(init), OptionKey(last), Cut(last, '=').after);
      }
    }
  }

  lemma LastOption(init: seq<string>, last: string)
    ensures ParseOptions(init + [last]) ==
            if ParseOptions(init).Some? && WellSpelled(last)
            then Some(ParseOptions(init).value[OptionKey(last) := Cut(last, '=').after]) else None
  {
    assert (init + [last])[..|init|] == init;
  }

  // --- the config commands ------------------------------------------------------------------------------

  /** Only the named entry changes, and only in its settings. */
  ghost predicate OnlySettings(c: Config, d: Config, name: string) {
    && name in c && d.Keys == c.Keys && (forall n :: n in c && n != name ==> d[n] == c[n])
    && d[name] == c[name].(settings := d[name].settings)
  }

  lemma ConfigTouchesSettings(ip: IpParser, c: Config, ev: Event)
    requires WellFormed(ip, c) && (ev.ConfigSet? || ev.ConfigUnset?) && ev.name in c
    ensures OnlySettings(c, Step(ip, c, ev), ev.name)
    ensures Some(Step(ip, c, ev)[ev.name]) == StepEntry(ip, Some(c[ev.name]), ev)
  {
    FillOfValidated(ip, c[ev.name], ev.world);
    ConfigStepIs(ip, c[ev.name], ev);
  }

  /** `config set` changes the settings it names, to the value given last, and nothing else of any
      entry. */
  lemma ConfigSetMeans(ip: IpParser, c: Config, name: string, args: seq<string>, w: World)
    requires WellFormed(ip, c) && name in c && w.restOk && ParseOptions(args).Some?
    ensures var d := Step(ip, c, ConfigSet(name, args, w));
            && OnlySettings(c, d, name)
            && (forall k :: k in d[name].settings <==> k in c[name].settings || k in ParseOptions(args).value)
            && (forall k :: k in ParseOptions(args).value ==> d[name].settings[k] == ParseOptions(args).value[k])
            && (forall k :: k in c[name].settings && k !in ParseOptions(args).value ==> d[name].settings[k] == c[name].settings[k])
  {
    ConfigTouchesSettings(ip, c, ConfigSet(name, args, w));
    FillOfValidated(ip, c[name], w);
  }

  /** The map without the keys of the list. */
  ghost predicate Without<K(!new), V>(r: map<K, V>, m: map<K, V>, keys: seq<K>) {
    && (forall k :: k in r <==> k in m && k !in keys)
    && (forall k :: k in r ==> r[k] == m[k])
  }

  lemma SubtractionIsWithout<K(!new), V>(m: map<K, V>, keys: seq<K>)
    ensures Without(m - ToSet(keys), m, keys)
  {
  }

  /** `config unset` takes out the settings it names, each once, and nothing else; it fails if one is
      not there. */
  lemma ConfigUnsetMeans(ip: IpParser, c: Config, name: string, keys: seq<string>, w: World)
    requires WellFormed(ip, c) && name in c && w.restOk
    ensures var d := Step(ip, c, ConfigUnset(name, keys, w));
            && OnlySettings(c, d, name)
            && if Distinct(keys) && forall k :: k in keys ==> k in c[name].settings
               then Without(d[name].settings, c[name].settings, keys) else d[name] == c[name]
  {
    ConfigTouchesSettings(ip, c, ConfigUnset(name, keys, w));
    FillOfValidated(ip, c[name], w);
    SubtractionIsWithout(c[name].settings, keys);
  }

  // --- a cluster install that is accepted ------------------------------------------------------------

  /** The flags of a first cluster member with one peer and one Keeper endpoint. */
  function MemberFlags(host: string, listen: string, p: Peer, k: Endpoint): Options {
    Options(None, Some("secret"), None, Some(listen), None, None, None, Some("c"), Some(1), Some(1), Some(host),
            Some([PrintPeer(p)]), Some([PrintEndpoint(k)]), None, None)
  }

  predicate PlausibleMember(ip: IpParser, host: string, listen: string, p: Peer, k: Endpoint, w: World) {
    && ip(host).Concrete? && ip(listen).Wildcard? && listen != ""
    && ip(p.host).Concrete? && PortInRange(p.port) && p.host != host && p.shard == 1 && p.replica == 2
    && ip(k.host).Concrete? && PortInRange(k.port)
    && PortInRange(w.httpPort) && PortInRange(w.tcpPort) && w.dataDir != "" && w.restOk
  }

  lemma MemberEntry(ip: IpParser, host: string, listen: string, p: Peer, k: Endpoint, w: World)
    requires PlausibleMember(ip, host, listen, p, k, w)
    ensures var o := MemberFlags(host, listen, p, k);
            && Apply(EMPTY_ENTRY, o).Some?
            && var e := Fill(Apply(EMPTY_ENTRY, o).value, w);
               && Clustered(e) && InstallAccepts(ip, e, o, false)
               && ImageTag(e.version) == Some(e.imageTag) && e.dataDir != "" && e.listen == listen
               && e.adminUser != "" && e.adminPassword == "secret" && e.httpPort == w.httpPort && e.tcpPort == w.tcpPort
               && e.shard == 1 && e.replica == 1 && e.advertiseHost == host && PortInRange(e.interserverPort)
               && e.peers == [PrintPeer(p)] && e.keepers == [PrintEndpoint(k)]
  {
    assert ValidVersion(DEFAULT_VERSION);
  }

  lemma NormalOfOnePeer(ip: IpParser, p: Peer)
    requires IpTexts(ip) && ip(p.host).Concrete? && PortInRange(p.port) && p.shard == 1 && p.replica == 2
    ensures NormalPeers(ip, [PrintPeer(p)]) == [PrintPeer(p)]
    ensures PeerNotation(ip).Readable([PrintPeer(p)]) && PeerNotation(ip).ReadAll([PrintPeer(p)]) == [p]
  {
    PrintedEndpoint(ip, p.host, p.port);
    ParsePrintedPeer(ip, p);
    NormalOfOne(PeerNotation(ip), PeerLess(), PrintPeer(p), p);
  }

  lemma NormalOfOneKeeper(ip: IpParser, k: Endpoint)
    requires IpTexts(ip) && ip(k.host).Concrete? && PortInRange(k.port)
    ensures var keepers := NormalKeepers(ip, [PrintEndpoint(k)]); keepers != [] && KeeperNotation(ip).Readable(keepers)
  {
    PrintedEndpoint(ip, k.host, k.port);
    ParsePrintedEndpoint(ip, k, DEFAULT_KEEPER_CLIENT_PORT);
    Lawful(ip);
    var n := KeeperNotation(ip);
    assert n.parse(PrintEndpoint(k)) == Some(k);
    NormalSetKeepsMembers(n, EndpointLess(), [PrintEndpoint(k)]);
  }

  lemma GoesThrough(ip: IpParser, o: Options, w: World, next: Entry, e: Entry)
    requires Apply(EMPTY_ENTRY, o).Some? && Fill(Apply(EMPTY_ENTRY, o).value, w) == next
    requires InstallAccepts(ip, next, o, false) && next.adminPassword != "" && w.restOk
    requires e == Normalize(ip, next) && Validated(ip, e)
    ensures Install(ip, None, o, w) == Some(e)
  {
  }

  /** Cluster installs do get accepted: an ordinary first member is stored as a member of its cluster,
      with the peer it was given. */
  lemma MemberIsStored(ip: IpParser, host: string, listen: string, p: Peer, k: Endpoint, w: World)
    requires IpTexts(ip) && PlausibleMember(ip, host, listen, p, k, w)
    ensures var r := Install(ip, None, MemberFlags(host, listen, p, k), w);
            r.Some? && r.value.cluster == "c" && r.value.advertiseHost == host && r.value.peers == [PrintPeer(p)]
  {
    var o := MemberFlags(host, listen, p, k);
    MemberEntry(ip, host, listen, p, k, w);
    var next := Fill(Apply(EMPTY_ENTRY, o).value, w);
    NormalOfOnePeer(ip, p);
    NormalOfOneKeeper(ip, k);
    HostIsPlain(ip, host);
    TrimFixed(host);
    var e := Normalize(ip, next);
    assert e == next.(peers := [PrintPeer(p)], keepers := e.keepers);
    OnePeerIsValid(ip, e, p);
    GoesThrough(ip, o, w, next, e);
  }

  lemma OnePeerIsValid(ip: IpParser, e: Entry, p: Peer)
    requires e.peers == [PrintPeer(p)] && PeerNotation(ip).Readable(e.peers) && PeerNotation(ip).ReadAll(e.peers) == [p]
    requires (p.shard != e.shard || p.replica != e.replica) && p.host != e.advertiseHost
    ensures TopologyValid(ip, e)
  {
  }

  // --- what is always named and reachable ------------------------------------------------------------

  /** A first cluster member must be named in full: cluster, place, host, peers, Keeper endpoints,
      listen address and password. */
  lemma FirstMemberNamesAll(ip: IpParser, o: Options, w: World)
    requires Install(ip, None, o, w).Some? && Install(ip, None, o, w).value.cluster != ""
    ensures o.cluster.Some? && o.shard.Some? && o.replica.Some? && o.advertiseHost.Some? && o.peers.Some? &&
            o.keepers.Some? && o.listen.Some? && o.adminPassword.Some?
  {
    InstallIs(ip, None, o, w);
  }

  /** Peers can reach the address: all interfaces, or the advertised one. */
  predicate Reachable(ip: IpParser, e: Entry) {
    Clustered(e) ==> ip(e.listen).Wildcard? || (ip(e.listen).Concrete? && ip(e.listen) == ip(e.advertiseHost))
  }

  ghost predicate AllReachable(ip: IpParser, c: Config) {
    WellFormed(ip, c) && forall n :: n in c ==> Reachable(ip, c[n])
  }

  lemma ReachableStep(ip: IpParser, c: Config, ev: Event)
    requires IpTexts(ip) && AllReachable(ip, c)
    ensures AllReachable(ip, Step(ip, c, ev))
  {
    var was := Stored(c, ev.name);
    StepEntryKeepsIdentity(ip, was, ev);
    var now := StepEntry(ip, was, ev);
    ReachableEntry(ip, was, ev);
    UpdateHolds(c, ev.name, now, e => Settled(ip, e) && Reachable(ip, e), ev.name, e => false);
  }

  lemma ReachableEntry(ip: IpParser, was: Option<Entry>, ev: Event)
    requires was.Some? ==> Settled(ip, was.value) && Reachable(ip, was.value)
    ensures StepEntry(ip, was, ev).Some? ==> Reachable(ip, StepEntry(ip, was, ev).value)
  {
    if ev.InstallEvent? {
      if was.Some? { FillOfValidated(ip, was.value, ev.world); }
      if Install(ip, was, ev.options, ev.world).Some? { InstallIs(ip, was, ev.options, ev.world); }
    } else if was.Some? && !ev.Remove? {
      FillOfValidated(ip, was.value, ev.world);
      ConfigStepIs(ip, was.value, ev);
    }
  }

  /** In every reachable configuration, each cluster member listens where its peers can reach it. */
  lemma MembersAreReachable(ip: IpParser, evs: seq<Event>)
    requires IpTexts(ip)
    ensures var c := Run(Steps(ip), map[], evs); forall n :: n in c ==> Reachable(ip, c[n])
  {
    var ok := (c: Config, ev: Event) => true;
    forall c, ev | AllReachable(ip, c)
      ensures AllReachable(ip, Steps(ip)(c, ev))
    {
      ReachableStep(ip, c, ev);
    }
    AllOkFromEach(Steps(ip), ok, map[], evs, ev => true);
    RunKeeps(Steps(ip), ok, c => AllReachable(ip, c), map[], evs);
  }
}
