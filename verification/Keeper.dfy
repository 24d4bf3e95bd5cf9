/**
 The ClickHouse Keeper addon: the same shape as the ClickHouse entry, but with a comparison and
 a normalisation that fill a missing Raft port differently. The exact condition under which
 identity is fixed, and under which a repeated install is accepted, is proved here.
 */
module Keeper {
  import opened Text
  import opened Lists
  import opened Notations
  import opened Peers
  import HostPort
  import opened Runs
  import CH = ClickHouse

  const KEEPER_IMAGE := "docker.io/clickhouse/clickhouse-keeper:"
  const DEFAULT_RAFT_PORT := 9234

  datatype Entry = Entry(
    version: string, imageTag: string, listen: string, dataDir: string, serverId: int,
    advertiseHost: string, peers: seq<string>, clientPort: int, raftPort: int)

  const EMPTY_ENTRY := Entry("", "", "", "", 0, "", [], 0, 0)

  datatype Options = Options(
    version: Option<string>, listen: Option<string>, dataDir: Option<string>, serverId: Option<int>,
    advertiseHost: Option<string>, peers: Option<seq<string>>, clientPort: Option<int>, raftPort: Option<int>,
    cluster: bool)

  function ImageTag(v: string): Option<string> {
    if CH.ValidVersion(v) then Some(KEEPER_IMAGE + v) else None
  }

  function Apply(e: Entry, o: Options): Option<Entry> {
    var given := CH.Flag(o.version, e.version);
    var version := if given == "" then CH.DEFAULT_VERSION else given;
    match ImageTag(version)
    case None => None
    case Some(tag) =>
      Some(Entry(version, tag, CH.NonEmptyFlag(o.listen, e.listen), CH.NonEmptyFlag(o.dataDir, e.dataDir),
                 CH.Flag(o.serverId, e.serverId), CH.Flag(o.advertiseHost, e.advertiseHost),
                 CH.Flag(o.peers, e.peers), CH.Flag(o.clientPort, e.clientPort), CH.Flag(o.raftPort, e.raftPort)))
  }

  /** `ApplyDefaults`; the data directory's default path is the parameter. */
  function Fill(ip: IpParser, e: Entry, dataDir: string): Entry {
    var version := CH.Default(e.version, "", CH.DEFAULT_VERSION);
    var listen := CH.Default(e.listen, "", "127.0.0.1");
    e.(version := version,
       imageTag := if e.imageTag == "" && ImageTag(version).Some? then ImageTag(version).value else e.imageTag,
       listen := listen,
       advertiseHost := if e.advertiseHost == "" && !ip(listen).NotIp? && !ip(listen).Wildcard? then listen else e.advertiseHost,
       clientPort := CH.Default(e.clientPort, 0, CH.DEFAULT_KEEPER_CLIENT_PORT),
       raftPort := CH.Default(e.raftPort, 0, DEFAULT_RAFT_PORT),
       dataDir := CH.Default(e.dataDir, "", dataDir))
  }

  /** The notation the comparison reads with: a missing port is the default Raft port. */
  function Compared(ip: IpParser): Notation<KeeperPeer> {
    KeeperPeerNotation(ip, DEFAULT_RAFT_PORT)
  }

  /** The notation normalisation and the voter list read with: a missing port is the entry's own. */
  function Own(ip: IpParser, e: Entry): Notation<KeeperPeer> {
    KeeperPeerNotation(ip, e.raftPort)
  }

  ghost predicate IdentityAccepts(ip: IpParser, stored: Entry, next: Entry) {
    && next.serverId == stored.serverId && next.advertiseHost == stored.advertiseHost
    && next.clientPort == stored.clientPort && next.raftPort == stored.raftPort
    && SameMembers(Compared(ip).Canon(), next.peers, stored.peers)
  }

  predicate InstallAccepts(ip: IpParser, e: Entry, o: Options, present: bool) {
    && !o.cluster
    && (!present ==> o.serverId.Some? && o.advertiseHost.Some?)
    && !(e.peers != [] && ip(e.listen).Loopback?)
  }

  function Normalize(ip: IpParser, e: Entry): Entry {
    if e.peers != [] && Own(ip, e).Readable(e.peers)
    then e.(peers := Own(ip, e).Normal(KeeperPeerLess(), e.peers)) else e
  }

  predicate DistinctIds(ps: seq<KeeperPeer>) {
    forall i, j :: 0 <= i < j < |ps| ==> ps[i].id != ps[j].id
  }

  /** `ClickHouseKeeperVoters` succeeds: the members, this one included, have distinct ids and
      distinct hosts. */
  predicate VotersValid(ip: IpParser, e: Entry) {
    && e.serverId >= 1 && PortInRange(e.raftPort)
    && if e.peers == [] then !ip(e.advertiseHost).NotIp? && !ip(e.advertiseHost).Wildcard?
       else
         && ip(TrimSpace(e.advertiseHost)).Concrete? && Own(ip, e).Readable(e.peers)
         && var ps := Own(ip, e).ReadAll(e.peers);
         && (forall i :: 0 <= i < |ps| ==> ps[i].id != e.serverId && ps[i].host != e.advertiseHost)
         && DistinctIds(ps)
         && (forall i, j :: 0 <= i < j < |ps| ==> ps[i].host != ps[j].host)
  }

  predicate Validated(ip: IpParser, e: Entry) {
    && ImageTag(e.version) == Some(e.imageTag) && e.dataDir != "" && e.listen != "" && ip(e.listen) != NotIp
    && (e.peers != [] ==> !ip(e.listen).Loopback?)
    && e.advertiseHost != "" && PortInRange(e.clientPort) && e.clientPort != e.raftPort && VotersValid(ip, e)
  }

  ghost function Install(ip: IpParser, stored: Option<Entry>, o: Options, dataDir: string): Option<Entry> {
    match Apply(if stored.Some? then stored.value else EMPTY_ENTRY, o)
    case None => None
    case Some(applied) =>
      var next := Fill(ip, applied, dataDir);
      if stored.Some? && !IdentityAccepts(ip, stored.value, next) then None
      else if !InstallAccepts(ip, next, o, stored.Some?) then None
      else
        var entry := Normalize(ip, next);
        if Validated(ip, entry) then Some(entry) else None
  }

  // --- identity ---------------------------------------------------------------------------

  datatype Identity = Identity(serverId: int, host: string, clientPort: int, raftPort: int, voters: set<KeeperPeer>)

  function IdentityOf(ip: IpParser, e: Entry): Identity
    requires Validated(ip, e)
  {
    Identity(e.serverId, e.advertiseHost, e.clientPort, e.raftPort,
             if e.peers == [] then {} else Own(ip, e).Members(e.peers))
  }

  predicate AllExplicit(ip: IpParser, peers: seq<string>) {
    forall i :: 0 <= i < |peers| ==> ExplicitRaftPort(ip, peers[i])
  }

  /** A stored entry is valid and its peers are spelled with their ports. */
  ghost predicate Settled(ip: IpParser, e: Entry) {
    Validated(ip, e) && AllExplicit(ip, e.peers)
  }

  /** The condition an operator can check: both readings of the list give the same ports. */
  predicate PortsUnambiguous(ip: IpParser, raftPort: int, peers: Option<seq<string>>) {
    raftPort == DEFAULT_RAFT_PORT || (peers.Some? ==> AllExplicit(ip, peers.value))
  }

  /** With explicit ports the two notations read the same list. */
  lemma SameReading(ip: IpParser, peers: seq<string>, d1: int, d2: int)
    requires KeeperPeerNotation(ip, d1).Readable(peers)
    requires d1 == d2 || AllExplicit(ip, peers)
    ensures KeeperPeerNotation(ip, d2).Readable(peers)
    ensures KeeperPeerNotation(ip, d2).ReadAll(peers) == KeeperPeerNotation(ip, d1).ReadAll(peers)
  {
    forall i | 0 <= i < |peers|
      ensures ParseKeeperPeer(ip, peers[i], d2) == ParseKeeperPeer(ip, peers[i], d1) && ParseKeeperPeer(ip, peers[i], d1).Some?
    {
      assert KeeperPeerNotation(ip, d1).parse(peers[i]).Some?;
      DefaultPortMatters(ip, peers[i], d1, d2);
    }
  }

  lemma ReportedPortMatters(ps: seq<KeeperPeer>, qs: seq<KeeperPeer>, k: nat)
    requires k < |ps| && k < |qs| && ps[k].id == qs[k].id && ps[k].port != qs[k].port && DistinctIds(qs)
    ensures ToSet(ps) != ToSet(qs)
  {
    assert ps[k] in ToSet(ps);
    if ps[k] in ToSet(qs) {
      var j :| 0 <= j < |qs| && qs[j] == ps[k];
    }
  }

  /** Without them the readings denote different sets, as long as ids are distinct. */
  lemma DifferentReading(ip: IpParser, peers: seq<string>, d1: int, d2: int)
    requires KeeperPeerNotation(ip, d1).Readable(peers) && KeeperPeerNotation(ip, d2).Readable(peers)
    requires d1 != d2 && !AllExplicit(ip, peers) && PortInRange(d1) && PortInRange(d2)
    requires DistinctIds(KeeperPeerNotation(ip, d2).ReadAll(peers))
    ensures KeeperPeerNotation(ip, d1).Members(peers) != KeeperPeerNotation(ip, d2).Members(peers)
  {
    var k :| 0 <= k < |peers| && !ExplicitRaftPort(ip, peers[k]);
    var n1, n2 := KeeperPeerNotation(ip, d1), KeeperPeerNotation(ip, d2);
    assert n1.parse(peers[k]).Some?;
    DefaultPortMatters(ip, peers[k], d1, d2);
    ReportedPortMatters(n1.ReadAll(peers), n2.ReadAll(peers), k);
  }

  /** Printed peers carry their port. */
  lemma NormalIsExplicit(ip: IpParser, e: Entry)
    requires IpTexts(ip) && Own(ip, e).Readable(e.peers)
    ensures AllExplicit(ip, Own(ip, e).Normal(KeeperPeerLess(), e.peers))
    ensures Own(ip, e).Readable(Own(ip, e).Normal(KeeperPeerLess(), e.peers))
  {
    var n := Own(ip, e);
    KeeperPeerNotationLawful(ip, e.raftPort);
    n.NormalKeepsMembers(KeeperPeerLess(), e.peers);
    var out := n.Normal(KeeperPeerLess(), e.peers);
    var ps := SortBy(KeeperPeerLess(), n.ReadAll(e.peers));
    forall i | 0 <= i < |out|
      ensures ExplicitRaftPort(ip, out[i])
    {
      var p := ps[i];
      assert n.parse(out[i]) == Some(p) && out[i] == PrintKeeperPeer(p);
      PrintedEndpoint(ip, p.host, p.port);
      ParsePrintedKeeperPeer(ip, p, e.raftPort);
    }
  }

  /** What normalising does to a list the entry's own notation reads. */
  lemma NormalizeKeepsVoters(ip: IpParser, e: Entry)
    requires IpTexts(ip) && Validated(ip, Normalize(ip, e))
    ensures Own(ip, e).Readable(e.peers)
    ensures Settled(ip, Normalize(ip, e))
    ensures IdentityOf(ip, Normalize(ip, e))
         == Identity(e.serverId, e.advertiseHost, e.clientPort, e.raftPort, Own(ip, e).Members(e.peers))
    ensures DistinctIds(Own(ip, e).ReadAll(e.peers))
  {
    KeeperPeerNotationLawful(ip, e.raftPort);
    if e.peers != [] {
      assert Own(ip, e).Readable(e.peers);
      NormalIsExplicit(ip, e);
      Own(ip, e).NormalKeepsMembers(KeeperPeerLess(), e.peers);
      IdsOfPermutation(Own(ip, e).ReadAll(e.peers), SortBy(KeeperPeerLess(), Own(ip, e).ReadAll(e.peers)));
    }
  }

  /** A rearrangement of a list without repeated ids has none either. */
  lemma IdsOfPermutation(ps: seq<KeeperPeer>, qs: seq<KeeperPeer>)
    requires multiset(ps) == multiset(qs) && DistinctIds(qs)
    ensures DistinctIds(ps)
  {
    assert Distinct(qs);
    SameElements(ps, qs);
    forall i, j | 0 <= i < j < |ps|
      ensures ps[i].id != ps[j].id
    {
      assert ps[i] in ToSet(qs) && ps[j] in ToSet(qs);
      var a :| 0 <= a < |qs| && qs[a] == ps[i];
      var b :| 0 <= b < |qs| && qs[b] == ps[j];
      assert a != b;
    }
  }

  lemma StoredReadings(ip: IpParser, e: Entry)
    requires Settled(ip, e)
    ensures Compared(ip).Readable(e.peers) && Distinct(Compared(ip).ReadAll(e.peers))
    ensures Compared(ip).Members(e.peers) == IdentityOf(ip, e).voters
  {
    if e.peers != [] { SameReading(ip, e.peers, e.raftPort, DEFAULT_RAFT_PORT); }
  }

  /** The heart of it: a list the comparison accepts denotes the stored voters, once the entry
      reads it with its own port, exactly when its ports are unambiguous. */
  lemma AcceptedListExact(ip: IpParser, stored: Entry, peers: seq<string>)
    requires IpTexts(ip) && Settled(ip, stored)
    requires SameMembers(Compared(ip).Canon(), peers, stored.peers)
    requires Own(ip, stored).Readable(peers) && DistinctIds(Own(ip, stored).ReadAll(peers))
    ensures Own(ip, stored).Members(peers) == IdentityOf(ip, stored).voters <==>
            stored.raftPort == DEFAULT_RAFT_PORT || AllExplicit(ip, peers)
  {
    KeeperPeerNotationLawful(ip, DEFAULT_RAFT_PORT);
    Compared(ip).ComparisonDecidesAgreement(peers, stored.peers);
    StoredReadings(ip, stored);
    if stored.raftPort == DEFAULT_RAFT_PORT || AllExplicit(ip, peers) {
      SameReading(ip, peers, DEFAULT_RAFT_PORT, stored.raftPort);
    } else {
      DifferentReading(ip, peers, DEFAULT_RAFT_PORT, stored.raftPort);
    }
  }

  lemma ForcedFields(ip: IpParser, stored: Entry, o: Options, dataDir: string)
    requires Install(ip, Some(stored), o, dataDir).Some?
    ensures Apply(stored, o).Some?
    ensures var next := Fill(ip, Apply(stored, o).value, dataDir);
            && next.peers == CH.Flag(o.peers, stored.peers) && IdentityAccepts(ip, stored, next)
            && Install(ip, Some(stored), o, dataDir).value == Normalize(ip, next) && Validated(ip, Normalize(ip, next))
  {
    var next := Fill(ip, Apply(stored, o).value, dataDir);
    assert IdentityAccepts(ip, stored, next) && stored.raftPort == next.raftPort;
  }

  /** An accepted forced install keeps the identity exactly when the passed ports are
      unambiguous. */
  lemma ForcedInstallExact(ip: IpParser, stored: Entry, o: Options, dataDir: string)
    requires IpTexts(ip) && Settled(ip, stored)
    requires Install(ip, Some(stored), o, dataDir).Some?
    ensures Settled(ip, Install(ip, Some(stored), o, dataDir).value)
    ensures IdentityOf(ip, Install(ip, Some(stored), o, dataDir).value) == IdentityOf(ip, stored) <==>
            PortsUnambiguous(ip, stored.raftPort, o.peers)
  {
    ForcedFields(ip, stored, o, dataDir);
    var next := Fill(ip, Apply(stored, o).value, dataDir);
    NormalizeKeepsVoters(ip, next);
    AcceptedListExact(ip, stored, next.peers);
  }

  lemma RepeatedFields(ip: IpParser, o: Options, dataDir: string)
    requires Install(ip, None, o, dataDir).Some?
    ensures Apply(EMPTY_ENTRY, o).Some?
    ensures var first := Fill(ip, Apply(EMPTY_ENTRY, o).value, dataDir);
            var stored := Install(ip, None, o, dataDir).value;
            && first.peers == CH.Flag(o.peers, []) && stored == Normalize(ip, first) && Validated(ip, stored)
            && InstallAccepts(ip, first, o, false)
            && Apply(stored, o).Some? && Fill(ip, Apply(stored, o).value, dataDir) == first
  {
  }

  lemma RepeatedListExact(ip: IpParser, first: Entry, peers: Option<seq<string>>)
    requires IpTexts(ip) && Validated(ip, Normalize(ip, first)) && first.peers == CH.Flag(peers, [])
    ensures var stored := Normalize(ip, first);
            SameMembers(Compared(ip).Canon(), CH.Flag(peers, stored.peers), stored.peers) <==>
            PortsUnambiguous(ip, stored.raftPort, peers)
  {
    var stored := Normalize(ip, first);
    NormalizeKeepsVoters(ip, first);
    StoredReadings(ip, stored);
    KeeperPeerNotationLawful(ip, DEFAULT_RAFT_PORT);
    Compared(ip).ComparisonDecidesAgreement(CH.Flag(peers, stored.peers), stored.peers);
    if peers.Some? {
      if PortsUnambiguous(ip, stored.raftPort, peers) {
        SameReading(ip, first.peers, first.raftPort, DEFAULT_RAFT_PORT);
      } else if Compared(ip).Readable(first.peers) {
        DifferentReading(ip, first.peers, DEFAULT_RAFT_PORT, first.raftPort);
      }
    }
  }

  /** Forcing a first install again gives the stored entry back if and only if its ports are
      unambiguous, and is refused otherwise. */
  lemma RepeatInstallExact(ip: IpParser, o: Options, dataDir: string)
    requires IpTexts(ip) && Install(ip, None, o, dataDir).Some?
    ensures var stored := Install(ip, None, o, dataDir).value;
            && (Install(ip, Some(stored), o, dataDir) == Some(stored) <==> PortsUnambiguous(ip, stored.raftPort, o.peers))
            && (Install(ip, Some(stored), o, dataDir).Some? ==> Install(ip, Some(stored), o, dataDir) == Some(stored))
  {
    RepeatedFields(ip, o, dataDir);
    var first := Fill(ip, Apply(EMPTY_ENTRY, o).value, dataDir);
    RepeatedListExact(ip, first, o.peers);
    RepeatGoesThrough(ip, Normalize(ip, first), o, dataDir, first);
  }

  lemma RepeatGoesThrough(ip: IpParser, stored: Entry, o: Options, dataDir: string, first: Entry)
    requires Apply(stored, o).Some? && Fill(ip, Apply(stored, o).value, dataDir) == first
    requires stored == Normalize(ip, first) && Validated(ip, stored) && InstallAccepts(ip, first, o, false)
    ensures Install(ip, Some(stored), o, dataDir) ==
            if SameMembers(Compared(ip).Canon(), first.peers, stored.peers) then Some(stored) else None
  {
  }

  /** The unforced check: every flag that was passed already has the stored value. */
  ghost predicate NoOpAccepts(ip: IpParser, stored: Entry, o: Options) {
    && CH.Unchanged(o.serverId, stored.serverId) && CH.Unchanged(o.advertiseHost, stored.advertiseHost)
    && (o.peers.Some? ==> SameMembers(Compared(ip).Canon(), o.peers.value, stored.peers))
    && CH.Unchanged(o.clientPort, stored.clientPort) && CH.Unchanged(o.raftPort, stored.raftPort)
    && CH.Unchanged(o.listen, stored.listen) && CH.Unchanged(o.dataDir, stored.dataDir)
    && CH.Unchanged(o.version, stored.version)
  }

  /** No flag was passed with a value that defaults replace. */
  predicate NoZeroFlags(o: Options) {
    && CH.NotZero(o.advertiseHost, "") && CH.NotZero(o.listen, "") && CH.NotZero(o.dataDir, "") && CH.NotZero(o.version, "")
    && CH.NotZero(o.clientPort, 0) && CH.NotZero(o.raftPort, 0)
  }

  lemma RepeatedFlags(ip: IpParser, o: Options, dataDir: string)
    requires Install(ip, None, o, dataDir).Some?
    ensures var stored := Install(ip, None, o, dataDir).value;
            && CH.Unchanged(o.serverId, stored.serverId)
            && (CH.Unchanged(o.advertiseHost, stored.advertiseHost) <==> CH.NotZero(o.advertiseHost, ""))
            && (CH.Unchanged(o.clientPort, stored.clientPort) <==> CH.NotZero(o.clientPort, 0))
            && (CH.Unchanged(o.raftPort, stored.raftPort) <==> CH.NotZero(o.raftPort, 0))
            && (CH.Unchanged(o.listen, stored.listen) <==> CH.NotZero(o.listen, ""))
            && (CH.Unchanged(o.dataDir, stored.dataDir) <==> CH.NotZero(o.dataDir, ""))
            && (CH.Unchanged(o.version, stored.version) <==> CH.NotZero(o.version, ""))
  {
  }

  lemma RepeatedList(ip: IpParser, o: Options, dataDir: string)
    requires IpTexts(ip) && Install(ip, None, o, dataDir).Some? && o.peers.Some?
    ensures var stored := Install(ip, None, o, dataDir).value;
            SameMembers(Compared(ip).Canon(), o.peers.value, stored.peers) <==> PortsUnambiguous(ip, stored.raftPort, o.peers)
  {
    RepeatedFields(ip, o, dataDir);
    RepeatedListExact(ip, Fill(ip, Apply(EMPTY_ENTRY, o).value, dataDir), o.peers);
  }

  /** Typing a first install again, without --force, is accepted if and only if its ports are
      unambiguous and no flag was passed with a value that defaults replace. */
  lemma RepeatUnforcedExact(ip: IpParser, o: Options, dataDir: string)
    requires IpTexts(ip) && Install(ip, None, o, dataDir).Some?
    ensures var stored := Install(ip, None, o, dataDir).value;
            NoOpAccepts(ip, stored, o) <==> PortsUnambiguous(ip, stored.raftPort, o.peers) && NoZeroFlags(o)
  {
    RepeatedFlags(ip, o, dataDir);
    if o.peers.Some? { RepeatedList(ip, o, dataDir); }
  }

  lemma InstallIs(ip: IpParser, stored: Option<Entry>, o: Options, dataDir: string)
    requires Install(ip, stored, o, dataDir).Some?
    ensures var before := if stored.Some? then stored.value else EMPTY_ENTRY;
            && Apply(before, o).Some?
            && var next, r := Fill(ip, Apply(before, o).value, dataDir), Install(ip, stored, o, dataDir).value;
               && r == Normalize(ip, next) && Validated(ip, r) && r == next.(peers := r.peers)
               && next.peers == CH.Flag(o.peers, before.peers)
  {
  }

  lemma ScalarsTakeEffect(ip: IpParser, stored: Option<Entry>, o: Options, dataDir: string)
    requires Install(ip, stored, o, dataDir).Some?
    ensures var r := Install(ip, stored, o, dataDir).value;
            && CH.Unchanged(o.serverId, r.serverId)
            && (CH.Unchanged(o.advertiseHost, r.advertiseHost) <==> CH.NotZero(o.advertiseHost, ""))
            && (CH.Unchanged(o.clientPort, r.clientPort) <==> CH.NotZero(o.clientPort, 0))
            && (CH.Unchanged(o.raftPort, r.raftPort) <==> CH.NotZero(o.raftPort, 0))
            && (CH.Unchanged(o.listen, r.listen) <==> CH.NotZero(o.listen, ""))
            && (CH.Unchanged(o.dataDir, r.dataDir) <==> CH.NotZero(o.dataDir, ""))
            && (CH.Unchanged(o.version, r.version) <==> CH.NotZero(o.version, ""))
  {
    InstallIs(ip, stored, o, dataDir);
  }

  lemma PeersTakeEffect(ip: IpParser, stored: Option<Entry>, o: Options, dataDir: string)
    requires IpTexts(ip) && Install(ip, stored, o, dataDir).Some? && o.peers.Some?
    ensures var r := Install(ip, stored, o, dataDir).value;
            SameMembers(Compared(ip).Canon(), o.peers.value, r.peers) <==> PortsUnambiguous(ip, r.raftPort, o.peers)
  {
    InstallIs(ip, stored, o, dataDir);
    var before := if stored.Some? then stored.value else EMPTY_ENTRY;
    RepeatedListExact(ip, Fill(ip, Apply(before, o).value, dataDir), o.peers);
  }

  /** After every accepted first or forced install, the unforced check agrees that the entry has what
      was asked for, if and only if the ports are unambiguous and no flag was passed with a value
      that defaults replace. */
  lemma FlagsTakeEffect(ip: IpParser, stored: Option<Entry>, o: Options, dataDir: string)
    requires IpTexts(ip) && Install(ip, stored, o, dataDir).Some?
    ensures var r := Install(ip, stored, o, dataDir).value;
            NoOpAccepts(ip, r, o) <==> PortsUnambiguous(ip, r.raftPort, o.peers) && NoZeroFlags(o)
  {
    ScalarsTakeEffect(ip, stored, o, dataDir);
    if o.peers.Some? { PeersTakeEffect(ip, stored, o, dataDir); }
  }

  /** A forced install changes nothing it was not asked to. */
  lemma UnpassedStays(ip: IpParser, stored: Entry, o: Options, dataDir: string)
    requires IpTexts(ip) && Settled(ip, stored) && Install(ip, Some(stored), o, dataDir).Some?
    ensures var r := Install(ip, Some(stored), o, dataDir).value;
            && (o.serverId.None? ==> r.serverId == stored.serverId) && (o.advertiseHost.None? ==> r.advertiseHost == stored.advertiseHost)
            && (o.clientPort.None? ==> r.clientPort == stored.clientPort) && (o.raftPort.None? ==> r.raftPort == stored.raftPort)
            && (o.listen.None? ==> r.listen == stored.listen) && (o.dataDir.None? ==> r.dataDir == stored.dataDir)
            && (o.version.None? ==> r.version == stored.version)
            && (o.peers.None? ==> IdentityOf(ip, r) == IdentityOf(ip, stored))
  {
    InstallIs(ip, Some(stored), o, dataDir);
    if o.peers.None? { ForcedInstallExact(ip, stored, o, dataDir); }
  }

  /** A first member must be given its id and address, the ClickHouse cluster flag is refused, and a
      member with peers does not listen on the loopback address only. */
  lemma FirstMemberNamesAll(ip: IpParser, stored: Option<Entry>, o: Options, dataDir: string)
    requires Install(ip, stored, o, dataDir).Some?
    ensures !o.cluster && (stored.None? ==> o.serverId.Some? && o.advertiseHost.Some?)
    ensures var r := Install(ip, stored, o, dataDir).value; r.peers != [] ==> !ip(r.listen).Loopback?
  {
  }

  // --- the condition is needed -----------------------------------------------------------------

  /** A peer written without its port. */
  function Bare(p: KeeperPeer): string {
    HostPort.Itoa(p.id) + "@" + p.host
  }

  lemma BareReading(ip: IpParser, p: KeeperPeer, port: int)
    requires IpTexts(ip) && ip(p.host).Concrete? && 1 <= p.id <= HostPort.MAX_INT && PortInRange(port)
    ensures ParseKeeperPeer(ip, Bare(p), port) == Some(p.(port := port))
    ensures !ExplicitRaftPort(ip, Bare(p))
  {
    var s := Bare(p);
    HostIsPlain(ip, p.host);
    DigitsArePlain(HostPort.Itoa(p.id));
    assert s[0] == HostPort.Itoa(p.id)[0] && s[|s| - 1] == p.host[|p.host| - 1];
    TrimFixed(s);
    TrimFixed(p.host);
    CutAt(HostPort.Itoa(p.id), '@', p.host);
    NumbersReadBack(p.id);
  }

  /** A two-member Keeper whose own Raft port is not the default and whose peer is stored with
      the default one. */
  ghost predicate Exposed(ip: IpParser, stored: Entry, p: KeeperPeer) {
    && Settled(ip, stored) && stored.raftPort != DEFAULT_RAFT_PORT && !ip(stored.listen).Loopback?
    && stored.peers == [PrintKeeperPeer(p)] && p.port == DEFAULT_RAFT_PORT
    && ParseKeeperPeer(ip, PrintKeeperPeer(p), stored.raftPort) == Some(p)
  }

  function PassBare(p: KeeperPeer): Options {
    Options(None, None, None, None, None, Some([Bare(p)]), None, None, false)
  }

  lemma ReadOne<P>(n: Notation<P>, raw: string)
    requires n.parse(raw).Some?
    ensures n.Readable([raw]) && n.ReadAll([raw]) == [n.parse(raw).value]
  {
  }

  /** Two spellings of one member compare equal. */
  lemma OneMemberSame<P>(n: Notation<P>, a: string, b: string)
    requires n.Lawful() && n.parse(a).Some? && n.parse(a) == n.parse(b)
    ensures SameMembers(n.Canon(), [a], [b])
  {
    ReadOne(n, a);
    ReadOne(n, b);
    n.ComparisonDecidesAgreement([a], [b]);
  }

  lemma BareIsAccepted(ip: IpParser, stored: Entry, p: KeeperPeer)
    requires IpTexts(ip) && Exposed(ip, stored, p)
    ensures SameMembers(Compared(ip).Canon(), [Bare(p)], stored.peers)
  {
    KeeperPeerNotationLawful(ip, DEFAULT_RAFT_PORT);
    BareReading(ip, p, DEFAULT_RAFT_PORT);
    PrintedEndpoint(ip, p.host, p.port);
    ParsePrintedKeeperPeer(ip, p, DEFAULT_RAFT_PORT);
    OneMemberSame(Compared(ip), Bare(p), PrintKeeperPeer(p));
  }

  lemma NormalOfOne(ip: IpParser, e: Entry, raw: string, q: KeeperPeer)
    requires IpTexts(ip) && e.peers == [raw] && ParseKeeperPeer(ip, raw, e.raftPort) == Some(q)
    ensures Normalize(ip, e).peers == [PrintKeeperPeer(q)]
    ensures Own(ip, e).Readable(Normalize(ip, e).peers) && Own(ip, e).ReadAll(Normalize(ip, e).peers) == [q]
  {
    var n := Own(ip, e);
    KeeperPeerNotationLawful(ip, e.raftPort);
    ReadOne(n, raw);
    n.NormalKeepsMembers(KeeperPeerLess(), [raw]);
    assert SortBy(KeeperPeerLess(), [q]) == [q];
    assert n.PrintAll([q]) == [PrintKeeperPeer(q)];
  }

  lemma OneVoter(ip: IpParser, e: Entry, q: KeeperPeer)
    requires e.serverId >= 1 && PortInRange(e.raftPort) && ip(TrimSpace(e.advertiseHost)).Concrete?
    requires |e.peers| == 1 && Own(ip, e).Readable(e.peers) && Own(ip, e).ReadAll(e.peers) == [q]
    ensures VotersValid(ip, e) <==> q.id != e.serverId && q.host != e.advertiseHost
  {
    var ps := Own(ip, e).ReadAll(e.peers);
    assert |ps| == 1 && ps[0] == q;
  }

  lemma VotersDecide(ip: IpParser, a: Entry, b: Entry)
    requires Validated(ip, a) && b == a.(peers := b.peers) && !ip(a.listen).Loopback?
    ensures Validated(ip, b) <==> VotersValid(ip, b)
  {
  }

  lemma ExposedPeer(ip: IpParser, stored: Entry, p: KeeperPeer)
    requires Exposed(ip, stored, p)
    ensures p.id != stored.serverId && p.host != stored.advertiseHost
    ensures stored.serverId >= 1 && PortInRange(stored.raftPort) && ip(TrimSpace(stored.advertiseHost)).Concrete?
    ensures ip(p.host).Concrete? && 1 <= p.id <= HostPort.MAX_INT
  {
    ReadOne(Own(ip, stored), PrintKeeperPeer(p));
    OneVoter(ip, stored, p);
  }

  lemma BareIsValidated(ip: IpParser, stored: Entry, p: KeeperPeer)
    requires IpTexts(ip) && Exposed(ip, stored, p)
    ensures Validated(ip, Normalize(ip, stored.(peers := [Bare(p)])))
  {
    ExposedPeer(ip, stored, p);
    var e := stored.(peers := [Bare(p)]);
    BareReading(ip, p, e.raftPort);
    NormalOfOne(ip, e, Bare(p), p.(port := e.raftPort));
    OneVoter(ip, Normalize(ip, e), p.(port := e.raftPort));
    VotersDecide(ip, stored, Normalize(ip, e));
  }

  lemma InstallGoesThrough(ip: IpParser, stored: Entry, o: Options, next: Entry)
    requires Apply(stored, o).Some? && Fill(ip, Apply(stored, o).value, "") == next
    requires IdentityAccepts(ip, stored, next) && InstallAccepts(ip, next, o, true)
    requires Validated(ip, Normalize(ip, next))
    ensures Install(ip, Some(stored), o, "") == Some(Normalize(ip, next))
  {
  }

  lemma OnlyPeersPassed(ip: IpParser, stored: Entry, p: KeeperPeer)
    requires Validated(ip, stored)
    ensures Apply(stored, PassBare(p)).Some?
    ensures Fill(ip, Apply(stored, PassBare(p)).value, "") == stored.(peers := [Bare(p)])
  {
    FillOfValidated(ip, stored, "");
  }

  /** The condition is needed: passing such a peer again without its port is accepted, and it
      moves that voter to another port. */
  lemma AmbiguousPortMovesVoter(ip: IpParser, stored: Entry, p: KeeperPeer)
    requires IpTexts(ip) && Exposed(ip, stored, p)
    ensures Install(ip, Some(stored), PassBare(p), "").Some?
    ensures var now := Install(ip, Some(stored), PassBare(p), "").value;
            Validated(ip, now) && IdentityOf(ip, now) != IdentityOf(ip, stored)
  {
    OnlyPeersPassed(ip, stored, p);
    BareIsAccepted(ip, stored, p);
    BareIsValidated(ip, stored, p);
    InstallGoesThrough(ip, stored, PassBare(p), stored.(peers := [Bare(p)]));
    BareReading(ip, p, stored.raftPort);
    assert PassBare(p).peers.value[0] == Bare(p);
    ForcedInstallExact(ip, stored, PassBare(p), "");
  }

  /** A first install of a member at `host` with its own Raft port, and one peer at the default. */
  function FirstFlags(id: int, host: string, listen: string, raftPort: int, p: KeeperPeer): Options {
    Options(None, Some(listen), None, Some(id), Some(host), Some([PrintKeeperPeer(p)]), None, Some(raftPort), false)
  }

  /** Two different hosts and an address to listen on, as any machine has them. */
  predicate Plausible(ip: IpParser, id: int, host: string, listen: string, raftPort: int, p: KeeperPeer) {
    && id >= 1 && 1 <= p.id <= HostPort.MAX_INT && p.id != id
    && ip(host).Concrete? && ip(p.host).Concrete? && host != p.host
    && listen != "" && !ip(listen).NotIp? && !ip(listen).Loopback?
    && PortInRange(raftPort) && raftPort !in {DEFAULT_RAFT_PORT, CH.DEFAULT_KEEPER_CLIENT_PORT}
    && p.port == DEFAULT_RAFT_PORT
  }

  lemma FirstEntry(ip: IpParser, id: int, host: string, listen: string, raftPort: int, p: KeeperPeer, dataDir: string)
    requires IpTexts(ip) && Plausible(ip, id, host, listen, raftPort, p)
    ensures var o := FirstFlags(id, host, listen, raftPort, p);
            && Apply(EMPTY_ENTRY, o).Some?
            && var e := Fill(ip, Apply(EMPTY_ENTRY, o).value, dataDir);
               && e.serverId == id && e.advertiseHost == host && e.listen == listen && e.raftPort == raftPort
               && e.peers == [PrintKeeperPeer(p)] && e.dataDir == dataDir && ImageTag(e.version) == Some(e.imageTag)
               && e.clientPort == CH.DEFAULT_KEEPER_CLIENT_PORT && InstallAccepts(ip, e, o, false)
  {
    var o := FirstFlags(id, host, listen, raftPort, p);
    DefaultVersionIsValid();
    assert Apply(EMPTY_ENTRY, o).Some?;
  }

  lemma DefaultVersionIsValid()
    ensures CH.ValidVersion(CH.DEFAULT_VERSION)
  {
  }

  lemma FirstInstallIs(ip: IpParser, o: Options, dataDir: string, e: Entry)
    requires Apply(EMPTY_ENTRY, o).Some? && Fill(ip, Apply(EMPTY_ENTRY, o).value, dataDir) == e
    requires InstallAccepts(ip, e, o, false) && Validated(ip, Normalize(ip, e))
    ensures Install(ip, None, o, dataDir) == Some(Normalize(ip, e))
  {
  }

  /** Such an entry is not contrived: an ordinary first install stores it. */
  lemma ExposedIsReached(ip: IpParser, id: int, host: string, listen: string, raftPort: int, p: KeeperPeer, dataDir: string)
    requires IpTexts(ip) && Plausible(ip, id, host, listen, raftPort, p) && dataDir != ""
    ensures var o := FirstFlags(id, host, listen, raftPort, p);
            Install(ip, None, o, dataDir).Some? && Exposed(ip, Install(ip, None, o, dataDir).value, p)
  {
    var o := FirstFlags(id, host, listen, raftPort, p);
    FirstEntry(ip, id, host, listen, raftPort, p, dataDir);
    var e := Fill(ip, Apply(EMPTY_ENTRY, o).value, dataDir);
    PrintedEndpoint(ip, p.host, p.port);
    ParsePrintedKeeperPeer(ip, p, raftPort);
    NormalOfOne(ip, e, PrintKeeperPeer(p), p);
    HostIsPlain(ip, host);
    TrimFixed(host);
    assert Normalize(ip, e).peers == e.peers && Normalize(ip, e) == e;
    OneVoter(ip, e, p);
    FirstInstallIs(ip, o, dataDir, e);
    NormalizeKeepsVoters(ip, e);
  }

  // --- whole runs ------------------------------------------------------------------------------

  datatype Event =
    | InstallEvent(name: string, options: Options, force: bool, dataDir: string, ok: bool)
    | Remove(name: string, ok: bool)

  type Config = map<string, Entry>

  ghost function StepEntry(ip: IpParser, was: Option<Entry>, ev: Event): Option<Entry> {
    match ev
    case InstallEvent(_, o, force, dataDir, ok) =>
      var stored := if was.Some? then Some(Fill(ip, was.value, dataDir)) else None;
      if was.Some? && !force then was
      else
        var next := Install(ip, stored, o, dataDir);
        if next.Some? && ok then next else was
    case Remove(_, ok) => if ok then None else was
  }

  ghost function Step(ip: IpParser, c: Config, ev: Event): Config {
    Update(c, ev.name, StepEntry(ip, Stored(c, ev.name), ev))
  }

  ghost function Steps(ip: IpParser): (Config, Event) -> Config {
    (c, ev) => Step(ip, c, ev)
  }

  ghost predicate WellFormed(ip: IpParser, c: Config) {
    forall n :: n in c ==> Settled(ip, c[n])
  }

  ghost predicate Holds(ip: IpParser, n: string, id: Identity, c: Config) {
    WellFormed(ip, c) && n in c && IdentityOf(ip, c[n]) == id
  }

  /** Commands that neither remove `n` nor pass it ambiguous ports. */
  predicate Careful(ip: IpParser, n: string, c: Config, ev: Event) {
    && ev != Remove(n, true)
    && (ev.InstallEvent? && ev.name == n && n in c ==> PortsUnambiguous(ip, c[n].raftPort, ev.options.peers))
  }

  lemma FreshInstallSettled(ip: IpParser, o: Options, dataDir: string)
    requires IpTexts(ip) && Install(ip, None, o, dataDir).Some?
    ensures Settled(ip, Install(ip, None, o, dataDir).value)
  {
    NormalizeKeepsVoters(ip, Fill(ip, Apply(EMPTY_ENTRY, o).value, dataDir));
  }

  lemma FillOfValidated(ip: IpParser, e: Entry, dataDir: string)
    requires Validated(ip, e)
    ensures Fill(ip, e, dataDir) == e
  {
  }

  lemma StepEntrySettled(ip: IpParser, was: Option<Entry>, ev: Event)
    requires IpTexts(ip) && (was.Some? ==> Settled(ip, was.value))
    ensures var now := StepEntry(ip, was, ev);
            && (now.Some? ==> Settled(ip, now.value))
            && (was.Some? && !(ev.Remove? && ev.ok)
                && (ev.InstallEvent? ==> PortsUnambiguous(ip, was.value.raftPort, ev.options.peers)) ==>
                  now.Some? && IdentityOf(ip, now.value) == IdentityOf(ip, was.value))
  {
    if ev.InstallEvent? {
      if was.Some? { FillOfValidated(ip, was.value, ev.dataDir); }
      if (was.None? || ev.force) && Install(ip, was, ev.options, ev.dataDir).Some? {
        if was.Some? { ForcedInstallExact(ip, was.value, ev.options, ev.dataDir); }
        else { FreshInstallSettled(ip, ev.options, ev.dataDir); }
      }
    }
  }

  lemma StepHolds(ip: IpParser, n: string, id: Identity, c: Config, ev: Event)
    requires IpTexts(ip) && Holds(ip, n, id, c) && Careful(ip, n, c, ev)
    ensures Holds(ip, n, id, Step(ip, c, ev))
  {
    StepEntrySettled(ip, Stored(c, ev.name), ev);
    var now := StepEntry(ip, Stored(c, ev.name), ev);
    UpdateHolds(c, ev.name, now, e => Settled(ip, e), n, e => Settled(ip, e) && IdentityOf(ip, e) == id);
  }

  /** Every configuration the commands reach holds only validated entries whose peers are spelled
      with their ports. */
  lemma ReachableWellFormed(ip: IpParser, evs: seq<Event>)
    requires IpTexts(ip)
    ensures WellFormed(ip, Run(Steps(ip), map[], evs))
  {
    var ok := (c: Config, ev: Event) => true;
    forall c, ev | WellFormed(ip, c)
      ensures WellFormed(ip, Steps(ip)(c, ev))
    {
      StepEntrySettled(ip, Stored(c, ev.name), ev);
      UpdateHolds(c, ev.name, StepEntry(ip, Stored(c, ev.name), ev), e => Settled(ip, e), ev.name, e => false);
    }
    AllOkFromEach(Steps(ip), ok, map[], evs, ev => true);
    RunKeeps(Steps(ip), ok, c => WellFormed(ip, c), map[], evs);
  }

  /** Over every run that does not remove the entry or pass it ambiguous ports, its identity
      is fixed. */
  lemma IdentityFixed(ip: IpParser, c: Config, evs: seq<Event>, n: string)
    requires IpTexts(ip) && WellFormed(ip, c) && n in c
    requires AllOk(Steps(ip), (c: Config, ev: Event) => Careful(ip, n, c, ev), c, evs)
    ensures Holds(ip, n, IdentityOf(ip, c[n]), Run(Steps(ip), c, evs))
  {
    var id := IdentityOf(ip, c[n]);
    var ok := (c: Config, ev: Event) => Careful(ip, n, c, ev);
    forall c, ev | Holds(ip, n, id, c) && ok(c, ev)
      ensures Holds(ip, n, id, Steps(ip)(c, ev))
    {
      StepHolds(ip, n, id, c, ev);
    }
    RunKeeps(Steps(ip), ok, c => Holds(ip, n, id, c), c, evs);
  }

  /** The run that needs the condition: that first install, and then the same peer passed without
      its port. The second command is accepted and the voter set has changed. */
  lemma AmbiguousRun(ip: IpParser, id: int, host: string, listen: string, raftPort: int, p: KeeperPeer, dataDir: string)
    requires IpTexts(ip) && Plausible(ip, id, host, listen, raftPort, p) && dataDir != ""
    ensures var first := InstallEvent("k", FirstFlags(id, host, listen, raftPort, p), false, dataDir, true);
            var again := InstallEvent("k", PassBare(p), true, "", true);
            var before, after := Run(Steps(ip), map[], [first]), Run(Steps(ip), map[], [first, again]);
            && "k" in before && "k" in after && Validated(ip, before["k"]) && Validated(ip, after["k"])
            && IdentityOf(ip, after["k"]) != IdentityOf(ip, before["k"])
  {
    var first := InstallEvent("k", FirstFlags(id, host, listen, raftPort, p), false, dataDir, true);
    var again := InstallEvent("k", PassBare(p), true, "", true);
    ExposedIsReached(ip, id, host, listen, raftPort, p, dataDir);
    var stored := Install(ip, None, first.options, dataDir).value;
    AmbiguousPortMovesVoter(ip, stored, p);
    StepsOnOne(ip, first, again, stored, Install(ip, Some(stored), PassBare(p), "").value);
    RunOfOne(Steps(ip), (c: Config, ev: Event) => true, map[], first);
    RunOfTwo(Steps(ip), (c: Config, ev: Event) => true, map[], first, again);
  }

  lemma StepsOnOne(ip: IpParser, first: Event, again: Event, stored: Entry, next: Entry)
    requires first.InstallEvent? && first.name == "k" && first.ok && Install(ip, None, first.options, first.dataDir) == Some(stored)
    requires again.InstallEvent? && again.name == "k" && again.ok && again.force && Validated(ip, stored)
    requires Install(ip, Some(stored), again.options, again.dataDir) == Some(next)
    ensures Step(ip, map[], first) == map["k" := stored]
    ensures Step(ip, map["k" := stored], again) == map["k" := next]
  {
    FillOfValidated(ip, stored, again.dataDir);
    var c: Config := map["k" := stored];
    assert Stored(c, "k") == Some(stored) && StepEntry(ip, Some(stored), again) == Some(next);
    assert c["k" := next] == map["k" := next];
  }
}
