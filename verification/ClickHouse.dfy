/**
 The ClickHouse addon's stored entries and the commands that change them: applying install
 flags, the two checks that guard an installed instance, list normalisation, and the install,
 config set, config unset and remove commands as steps over the stored map.
 */
module ClickHouse {
  import opened Text
  import opened Lists
  import opened Notations
  import opened Peers
  import opened Runs

  const DEFAULT_VERSION := "26.8.36.3"
  const SERVER_IMAGE := "docker.io/clickhouse/clickhouse-server:"
  const DEFAULT_INTERSERVER_PORT := 9009
  const DEFAULT_KEEPER_CLIENT_PORT := 9181

  datatype Entry = Entry(
    version: string, imageTag: string, listen: string, httpPort: int, tcpPort: int, dataDir: string,
    adminUser: string, adminPassword: string, cluster: string, shard: int, replica: int,
    advertiseHost: string, peers: seq<string>, keepers: seq<string>, interserverPort: int,
    settings: map<string, string>)

  const EMPTY_ENTRY := Entry("", "", "", 0, 0, "", "", "", "", 0, 0, "", [], [], 0, map[])

  /** The install flags; `None` is a flag the operator did not pass. */
  datatype Options = Options(
    version: Option<string>, adminPassword: Option<string>, adminUser: Option<string>,
    listen: Option<string>, httpPort: Option<int>, tcpPort: Option<int>, dataDir: Option<string>,
    cluster: Option<string>, shard: Option<int>, replica: Option<int>, advertiseHost: Option<string>,
    peers: Option<seq<string>>, keepers: Option<seq<string>>, interserverPort: Option<int>,
    configOptions: Option<seq<string>>)

  predicate Clustered(e: Entry) {
    e.cluster != ""
  }

  // --- flags -----------------------------------------------------------------------

  predicate TagStart(c: char) {
    'A' <= c <= 'Z' || 'a' <= c <= 'z' || '0' <= c <= '9' || c == '_'
  }

  predicate TagChar(c: char) {
    TagStart(c) || c == '.' || c == '-'
  }

  predicate ValidVersion(v: string) {
    1 <= |v| <= 128 && TagStart(v[0]) && forall i :: 0 <= i < |v| ==> TagChar(v[i])
  }

  function ImageTag(v: string): Option<string> {
    if ValidVersion(v) then Some(SERVER_IMAGE + v) else None
  }

  function Flag<T>(flag: Option<T>, stored: T): T {
    if flag.Some? then flag.value else stored
  }

  /** A text flag that is ignored when it is passed empty. */
  function NonEmptyFlag(flag: Option<string>, stored: string): string {
    if flag.Some? && flag.value != "" then flag.value else stored
  }

  /** `KEY=VALUE` pairs; a later pair for the same key wins. */
  function ParseOptions(options: seq<string>): Option<map<string, string>> {
    if options == [] then Some(map[])
    else
      var cut := Cut(options[|options| - 1], '=');
      match ParseOptions(options[..|options| - 1])
      case None => None
      case Some(m) =>
        if !cut.found || TrimSpace(cut.before) == "" then None
        else Some(m[TrimSpace(cut.before) := cut.after])
  }

  function Apply(e: Entry, o: Options): Option<Entry> {
    var given := Flag(o.version, e.version);
    var version := if given == "" then DEFAULT_VERSION else given;
    match ImageTag(version)
    case None => None
    case Some(tag) =>
      var settings := if o.configOptions.None? then Some(e.settings) else ParseOptions(o.configOptions.value);
      if settings.None? then None
      else Some(Entry(
        version, tag, NonEmptyFlag(o.listen, e.listen), Flag(o.httpPort, e.httpPort),
        Flag(o.tcpPort, e.tcpPort), NonEmptyFlag(o.dataDir, e.dataDir),
        NonEmptyFlag(o.adminUser, e.adminUser), Flag(o.adminPassword, e.adminPassword),
        Flag(o.cluster, e.cluster), Flag(o.shard, e.shard), Flag(o.replica, e.replica),
        Flag(o.advertiseHost, e.advertiseHost), Flag(o.peers, e.peers), Flag(o.keepers, e.keepers),
        Flag(o.interserverPort, e.interserverPort), settings.value))
  }

  // --- checks ------------------------------------------------------------------------

  function PeerCanon(ip: IpParser): string -> Option<string> {
    PeerNotation(ip).Canon()
  }

  function KeeperNotation(ip: IpParser): Notation<Endpoint> {
    EndpointNotation(ip, DEFAULT_KEEPER_CLIENT_PORT)
  }

  function KeeperCanon(ip: IpParser): string -> Option<string> {
    KeeperNotation(ip).Canon()
  }

  /** Go's map lookup: an absent key reads as the empty text. */
  function Lookup(m: map<string, string>, k: string): string {
    if k in m then m[k] else ""
  }

  ghost predicate SettingsEqual(a: map<string, string>, b: map<string, string>) {
    |a| == |b| && forall k :: k in a ==> Lookup(b, k) == a[k]
  }

  predicate Unchanged<T(==)>(flag: Option<T>, stored: T) {
    flag.Some? ==> flag.value == stored
  }

  /** The flag was not passed with the value that stands for "unset". */
  predicate NotZero<T(==)>(flag: Option<T>, zero: T) {
    flag.Some? ==> flag.value != zero
  }

  /** The unforced check: every flag that was passed already has the stored value. */
  ghost predicate NoOpAccepts(ip: IpParser, stored: Entry, o: Options) {
    && Unchanged(o.cluster, stored.cluster) && Unchanged(o.shard, stored.shard)
    && Unchanged(o.replica, stored.replica) && Unchanged(o.advertiseHost, stored.advertiseHost)
    && Unchanged(o.interserverPort, stored.interserverPort) && Unchanged(o.tcpPort, stored.tcpPort)
    && Unchanged(o.httpPort, stored.httpPort) && Unchanged(o.listen, stored.listen)
    && Unchanged(o.dataDir, stored.dataDir) && Unchanged(o.adminUser, stored.adminUser)
    && Unchanged(o.adminPassword, stored.adminPassword) && Unchanged(o.version, stored.version)
    && (o.peers.Some? ==> SameMembers(PeerCanon(ip), o.peers.value, stored.peers))
    && (o.keepers.Some? ==> SameMembers(KeeperCanon(ip), o.keepers.value, stored.keepers))
    && (o.configOptions.Some? ==>
          var requested := ParseOptions(o.configOptions.value);
          requested.Some? && SettingsEqual(requested.value, stored.settings))
  }

  /** The check that `--force` does not lift. */
  ghost predicate TopologyAccepts(ip: IpParser, stored: Entry, next: Entry) {
    && next.cluster == stored.cluster
    && (Clustered(stored) ==>
      && next.shard == stored.shard && next.replica == stored.replica
      && next.advertiseHost == stored.advertiseHost && next.tcpPort == stored.tcpPort
      && next.interserverPort == stored.interserverPort
      && SameMembers(PeerCanon(ip), next.peers, stored.peers)
      && SameMembers(KeeperCanon(ip), next.keepers, stored.keepers))
  }

  /** Which cluster flags go with which mode, and what a fresh cluster install must name. */
  predicate InstallAccepts(ip: IpParser, e: Entry, o: Options, present: bool) {
    if !Clustered(e) then
      && o.peers.None? && e.peers == [] && o.shard.None? && o.replica.None? && e.shard == 0 && e.replica == 0
      && o.keepers.None? && e.keepers == [] && o.advertiseHost.None? && e.advertiseHost == ""
      && o.interserverPort.None? && e.interserverPort == 0
    else
      && e.peers != [] && e.keepers != []
      && (!present ==> o.cluster.Some? && o.shard.Some? && o.replica.Some? && o.advertiseHost.Some? &&
                       o.peers.Some? && o.keepers.Some? && o.listen.Some? && o.adminPassword.Some?)
      && (o.adminPassword.Some? || e.adminPassword != "")
      && (ip(e.listen).Wildcard? || (ip(e.listen).Concrete? && ip(e.listen) == ip(e.advertiseHost)))
  }

  // --- normalisation --------------------------------------------------------------------

  function NormalPeers(ip: IpParser, peers: seq<string>): seq<string> {
    if peers != [] && PeerNotation(ip).Readable(peers) then PeerNotation(ip).Normal(PeerLess(), peers) else peers
  }

  function NormalKeepers(ip: IpParser, keepers: seq<string>): seq<string> {
    if keepers != [] && KeeperNotation(ip).Readable(keepers)
    then NormalSet(KeeperNotation(ip), EndpointLess(), keepers) else keepers
  }

  function Normalize(ip: IpParser, e: Entry): Entry {
    if !Clustered(e) then e
    else e.(peers := NormalPeers(ip, e.peers), keepers := NormalKeepers(ip, e.keepers))
  }

  // --- whole commands --------------------------------------------------------------------

  /** What a command meets outside the entry: the ports, path and password that defaults and
      generation supply, and whether everything else it needs succeeds. */
  datatype World = World(httpPort: nat, tcpPort: nat, dataDir: string, password: string, restOk: bool)

  function Default<T(==)>(value: T, unset: T, default: T): T {
    if value == unset then default else value
  }

  /** `ApplyDefaults`: only unset fields change. */
  function Fill(e: Entry, w: World): Entry {
    var version := Default(e.version, "", DEFAULT_VERSION);
    e.(version := version,
       imageTag := if e.imageTag == "" && ImageTag(version).Some? then ImageTag(version).value else e.imageTag,
       listen := Default(e.listen, "", "127.0.0.1"),
       interserverPort := if Clustered(e) then Default(e.interserverPort, 0, DEFAULT_INTERSERVER_PORT) else e.interserverPort,
       adminUser := Default(e.adminUser, "", "admin"),
       dataDir := Default(e.dataDir, "", w.dataDir),
       httpPort := Default(e.httpPort, 0, w.httpPort),
       tcpPort := Default(e.tcpPort, 0, w.tcpPort))
  }

  /** No two members, this one included, share a shard and replica or an endpoint. */
  predicate TopologyValid(ip: IpParser, e: Entry) {
    && e.peers != [] && PeerNotation(ip).Readable(e.peers)
    && var ps := PeerNotation(ip).ReadAll(e.peers);
    && (forall i :: 0 <= i < |ps| ==>
          && (ps[i].shard != e.shard || ps[i].replica != e.replica)
          && (ps[i].host != e.advertiseHost || ps[i].port != e.tcpPort))
    && (forall i, j :: 0 <= i < j < |ps| ==>
          && (ps[i].shard != ps[j].shard || ps[i].replica != ps[j].replica)
          && (ps[i].host != ps[j].host || ps[i].port != ps[j].port))
  }

  /** The part of `Config.Validate` that concerns one entry's identity. */
  predicate Validated(ip: IpParser, e: Entry) {
    && ImageTag(e.version) == Some(e.imageTag)
    && e.dataDir != "" && ip(e.listen) != NotIp && e.adminUser != "" && e.adminPassword != ""
    && PortInRange(e.httpPort) && PortInRange(e.tcpPort) && e.listen != ""
    && if Clustered(e) then
         && e.shard >= 1 && e.replica >= 1 && ip(TrimSpace(e.advertiseHost)).Concrete?
         && PortInRange(e.interserverPort) && TopologyValid(ip, e)
         && e.keepers != [] && KeeperNotation(ip).Readable(e.keepers)
       else
         && e.shard == 0 && e.replica == 0 && e.advertiseHost == "" && e.peers == [] && e.keepers == []
         && e.interserverPort == 0
  }

  /** A fresh or forced install of one entry: the new entry, or `None` when it is refused. */
  ghost function Install(ip: IpParser, stored: Option<Entry>, o: Options, w: World): Option<Entry> {
    match Apply(if stored.Some? then stored.value else EMPTY_ENTRY, o)
    case None => None
    case Some(applied) =>
      var next := Fill(applied, w);
      if stored.Some? && !TopologyAccepts(ip, stored.value, next) then None
      else if !InstallAccepts(ip, next, o, stored.Some?) then None
      else
        var normal := Normalize(ip, next);
        var entry := normal.(adminPassword := Default(normal.adminPassword, "", w.password));
        if Validated(ip, entry) && w.restOk then Some(entry) else None
  }

  datatype Event =
    | InstallEvent(name: string, options: Options, force: bool, world: World)
    | ConfigSet(name: string, args: seq<string>, world: World)
    | ConfigUnset(name: string, keys: seq<string>, world: World)
    | Remove(name: string, ok: bool)

  type Config = map<string, Entry>

  /** What a command makes of the entry it names. A refused or failing command leaves it. */
  ghost function StepEntry(ip: IpParser, was: Option<Entry>, ev: Event): Option<Entry> {
    match ev
    case InstallEvent(_, o, force, w) =>
      var stored := if was.Some? then Some(Fill(was.value, w)) else None;
      if was.Some? && !force then was
      else
        var next := Install(ip, stored, o, w);
        if next.Some? then next else was
    case ConfigSet(_, args, w) =>
      if was.None? || !w.restOk || ParseOptions(args).None? then was
      else var e := Fill(was.value, w); Some(e.(settings := e.settings + ParseOptions(args).value))
    case ConfigUnset(_, keys, w) =>
      if was.None? || !w.restOk || !(forall k :: k in keys ==> k in was.value.settings) || !Distinct(keys) then was
      else var e := Fill(was.value, w); Some(e.(settings := e.settings - ToSet(keys)))
    case Remove(_, ok) =>
      if ok then None else was
  }

  ghost function Step(ip: IpParser, c: Config, ev: Event): Config {
    Update(c, ev.name, StepEntry(ip, Stored(c, ev.name), ev))
  }

  ghost function Steps(ip: IpParser): (Config, Event) -> Config {
    (c, ev) => Step(ip, c, ev)
  }

  // --- identity ----------------------------------------------------------------------------

  /** What the rest of a cluster holds of a member: its place, its endpoint, and its sets of
      peers and Keeper endpoints. */
  datatype Identity =
    | SingleNode
    | Member(cluster: string, shard: int, replica: int, host: string, tcpPort: int, interserverPort: int,
             peers: set<Peer>, keepers: set<Endpoint>)

  function IdentityOf(ip: IpParser, e: Entry): Identity
    requires Validated(ip, e)
  {
    if !Clustered(e) then SingleNode
    else Member(e.cluster, e.shard, e.replica, e.advertiseHost, e.tcpPort, e.interserverPort,
                PeerNotation(ip).Members(e.peers), KeeperNotation(ip).Members(e.keepers))
  }

  /** A stored entry passed validation and its Keeper list has no repeats. */
  ghost predicate Settled(ip: IpParser, e: Entry) {
    Validated(ip, e) && (Clustered(e) ==> Distinct(KeeperNotation(ip).ReadAll(e.keepers)))
  }

  ghost predicate WellFormed(ip: IpParser, c: Config) {
    forall n :: n in c ==> Settled(ip, c[n])
  }

  lemma Lawful(ip: IpParser)
    requires IpTexts(ip)
    ensures PeerNotation(ip).Lawful() && KeeperNotation(ip).Lawful()
  {
    PeerNotationLawful(ip);
    EndpointNotationLawful(ip, DEFAULT_KEEPER_CLIENT_PORT);
  }

  lemma FillOfValidated(ip: IpParser, e: Entry, w: World)
    requires Validated(ip, e)
    ensures Fill(e, w) == e
  {
  }

  lemma PeersDistinct(ip: IpParser, e: Entry)
    requires TopologyValid(ip, e)
    ensures Distinct(PeerNotation(ip).ReadAll(e.peers))
  {
  }

  /** Normalising a readable entry keeps its member sets and settles its Keeper list. */
  lemma NormalizeKeepsMembers(ip: IpParser, e: Entry)
    requires PeerNotation(ip).Lawful() && KeeperNotation(ip).Lawful() && Clustered(e)
    ensures PeerNotation(ip).Readable(e.peers) <==> PeerNotation(ip).Readable(Normalize(ip, e).peers)
    ensures KeeperNotation(ip).Readable(e.keepers) <==> KeeperNotation(ip).Readable(Normalize(ip, e).keepers)
    ensures PeerNotation(ip).Readable(e.peers) ==>
              PeerNotation(ip).Members(Normalize(ip, e).peers) == PeerNotation(ip).Members(e.peers)
    ensures KeeperNotation(ip).Readable(e.keepers) ==>
              && KeeperNotation(ip).Members(Normalize(ip, e).keepers) == KeeperNotation(ip).Members(e.keepers)
              && Distinct(KeeperNotation(ip).ReadAll(Normalize(ip, e).keepers))
  {
    if PeerNotation(ip).Readable(e.peers) { PeerNotation(ip).NormalKeepsMembers(PeerLess(), e.peers); }
    if KeeperNotation(ip).Readable(e.keepers) { NormalSetKeepsMembers(KeeperNotation(ip), EndpointLess(), e.keepers); }
  }

  /** The check `--force` does not lift accepts exactly the same identity, spelled in any
      way and any order but without repeats. */
  lemma TopologyCheckExact(ip: IpParser, stored: Entry, next: Entry)
    requires IpTexts(ip) && Settled(ip, stored)
    ensures TopologyAccepts(ip, stored, next) <==>
      && next.cluster == stored.cluster
      && (Clustered(stored) ==>
        && next.shard == stored.shard && next.replica == stored.replica
        && next.advertiseHost == stored.advertiseHost && next.tcpPort == stored.tcpPort
        && next.interserverPort == stored.interserverPort
        && PeerNotation(ip).Readable(next.peers) && Distinct(PeerNotation(ip).ReadAll(next.peers))
        && PeerNotation(ip).Members(next.peers) == PeerNotation(ip).Members(stored.peers)
        && KeeperNotation(ip).Readable(next.keepers) && Distinct(KeeperNotation(ip).ReadAll(next.keepers))
        && KeeperNotation(ip).Members(next.keepers) == KeeperNotation(ip).Members(stored.keepers))
  {
    Lawful(ip);
    if Clustered(stored) {
      PeersDistinct(ip, stored);
      PeerNotation(ip).ComparisonDecidesAgreement(next.peers, stored.peers);
      KeeperNotation(ip).ComparisonDecidesAgreement(next.keepers, stored.keepers);
    }
  }

  /** A forced install either is refused or keeps the identity of the entry it replaces. */
  lemma InstallKeepsIdentity(ip: IpParser, stored: Option<Entry>, o: Options, w: World)
    requires IpTexts(ip) && (stored.Some? ==> Settled(ip, stored.value))
    requires Install(ip, stored, o, w).Some?
    ensures Settled(ip, Install(ip, stored, o, w).value)
    ensures stored.Some? ==> IdentityOf(ip, Install(ip, stored, o, w).value) == IdentityOf(ip, stored.value)
  {
    var next := Fill(Apply(if stored.Some? then stored.value else EMPTY_ENTRY, o).value, w);
    Lawful(ip);
    if Clustered(next) { NormalizeKeepsMembers(ip, next); }
    if stored.Some? { TopologyCheckExact(ip, stored.value, next); }
  }

  /** Settings are no part of what is validated or of the identity. */
  lemma SettingsKeepIdentity(ip: IpParser, e: Entry, settings: map<string, string>)
    requires Settled(ip, e)
    ensures Settled(ip, e.(settings := settings)) && IdentityOf(ip, e.(settings := settings)) == IdentityOf(ip, e)
  {
  }

  lemma InstallStepKeepsIdentity(ip: IpParser, was: Option<Entry>, ev: Event)
    requires IpTexts(ip) && (was.Some? ==> Settled(ip, was.value)) && ev.InstallEvent?
    ensures var now := StepEntry(ip, was, ev);
            && (now.Some? ==> Settled(ip, now.value))
            && (was.Some? ==> now.Some? && IdentityOf(ip, now.value) == IdentityOf(ip, was.value))
  {
    if was.Some? { FillOfValidated(ip, was.value, ev.world); }
    if (was.None? || ev.force) && Install(ip, was, ev.options, ev.world).Some? {
      InstallKeepsIdentity(ip, was, ev.options, ev.world);
    }
  }

  /** A config command on an entry that defaults leave alone changes its settings only. */
  lemma ConfigStepIs(ip: IpParser, was: Entry, ev: Event)
    requires (ev.ConfigSet? || ev.ConfigUnset?) && Fill(was, ev.world) == was
    ensures var now := StepEntry(ip, Some(was), ev); now.Some? && now.value == was.(settings := now.value.settings)
  {
  }

  lemma ConfigStepKeepsIdentity(ip: IpParser, was: Entry, ev: Event)
    requires Settled(ip, was) && (ev.ConfigSet? || ev.ConfigUnset?)
    ensures var now := StepEntry(ip, Some(was), ev);
            now.Some? && Settled(ip, now.value) && IdentityOf(ip, now.value) == IdentityOf(ip, was)
  {
    FillOfValidated(ip, was, ev.world);
    ConfigStepIs(ip, was, ev);
    SettingsKeepIdentity(ip, was, StepEntry(ip, Some(was), ev).value.settings);
  }

  lemma StepEntryKeepsIdentity(ip: IpParser, was: Option<Entry>, ev: Event)
    requires IpTexts(ip) && (was.Some? ==> Settled(ip, was.value))
    ensures var now := StepEntry(ip, was, ev);
            && (now.Some? ==> Settled(ip, now.value))
            && (was.Some? && !(ev.Remove? && ev.ok) ==>
                  now.Some? && IdentityOf(ip, now.value) == IdentityOf(ip, was.value))
  {
    if ev.InstallEvent? {
      InstallStepKeepsIdentity(ip, was, ev);
    } else if was.Some? && !ev.Remove? {
      ConfigStepKeepsIdentity(ip, was.value, ev);
    }
  }

  /** Entry `n` is stored with identity `id`, in a well-formed configuration. */
  ghost predicate Holds(ip: IpParser, n: string, id: Identity, c: Config) {
    WellFormed(ip, c) && n in c && IdentityOf(ip, c[n]) == id
  }

  lemma StepHolds(ip: IpParser, n: string, id: Identity, c: Config, ev: Event)
    requires IpTexts(ip) && Holds(ip, n, id, c) && ev != Remove(n, true)
    ensures Holds(ip, n, id, Step(ip, c, ev))
  {
    StepEntryKeepsIdentity(ip, Stored(c, ev.name), ev);
    var now := StepEntry(ip, Stored(c, ev.name), ev);
    UpdateHolds(c, ev.name, now, e => Settled(ip, e), n, e => Settled(ip, e) && IdentityOf(ip, e) == id);
  }

  /** From any stored entry until it is removed, no sequence of commands on any entries
      changes its identity. */
  lemma IdentityFixed(ip: IpParser, c: Config, evs: seq<Event>, n: string)
    requires IpTexts(ip) && WellFormed(ip, c)
    requires n in c && Remove(n, true) !in evs
    ensures Holds(ip, n, IdentityOf(ip, c[n]), Run(Steps(ip), c, evs))
  {
    var id := IdentityOf(ip, c[n]);
    var ok := (c: Config, ev: Event) => ev != Remove(n, true);
    forall c, ev | Holds(ip, n, id, c) && ok(c, ev)
      ensures Holds(ip, n, id, Steps(ip)(c, ev))
    {
      StepHolds(ip, n, id, c, ev);
    }
    AllOkFromEach(Steps(ip), ok, c, evs, ev => ev != Remove(n, true));
    RunKeeps(Steps(ip), ok, c => Holds(ip, n, id, c), c, evs);
  }

  lemma StepWellFormed(ip: IpParser, c: Config, ev: Event)
    requires IpTexts(ip) && WellFormed(ip, c)
    ensures WellFormed(ip, Step(ip, c, ev))
  {
    StepEntryKeepsIdentity(ip, Stored(c, ev.name), ev);
    UpdateHolds(c, ev.name, StepEntry(ip, Stored(c, ev.name), ev), e => Settled(ip, e), ev.name, e => false);
  }

  /** Every configuration reached from an empty one is well formed, so `IdentityFixed` applies
      from the first install of an entry. */
  lemma ReachableWellFormed(ip: IpParser, evs: seq<Event>)
    requires IpTexts(ip)
    ensures WellFormed(ip, Run(Steps(ip), map[], evs))
  {
    var ok := (c: Config, ev: Event) => true;
    forall c, ev | WellFormed(ip, c)
      ensures WellFormed(ip, Steps(ip)(c, ev))
    {
      StepWellFormed(ip, c, ev);
    }
    AllOkFromEach(Steps(ip), ok, map[], evs, ev => true);
    RunKeeps(Steps(ip), ok, c => WellFormed(ip, c), map[], evs);
  }

  // --- the no-op check against the applier ---------------------------------------------------

  /** The comparison of settings means equality exactly when no requested empty value hides a
      missing key. */
  lemma SettingsEqualExact(a: map<string, string>, b: map<string, string>)
    ensures a == b <==> SettingsEqual(a, b) && forall k :: k in a && a[k] == "" ==> k in b
  {
    if SettingsEqual(a, b) && forall k :: k in a && a[k] == "" ==> k in b {
      assert a.Keys <= b.Keys;
      SubsetOfSameSize(a.Keys, b.Keys);
    }
  }

  /** The condition is needed: a requested empty value passes for a different stored key. */
  lemma SettingsEqualIsFooled()
    ensures var a, b := map["x" := ""], map["y" := "1"];
            SettingsEqual(a, b) && a != b
  {
    var a, b := map["x" := ""], map["y" := "1"];
    assert "x" in a && "x" !in b;
  }

  /** What the operator asked for is what is stored, up to the order and spelling of lists. */
  ghost predicate SameUpToSpelling(ip: IpParser, a: Entry, b: Entry) {
    && a == b.(peers := a.peers, keepers := a.keepers)
    && (a.peers == b.peers || PeerNotation(ip).Agree(a.peers, b.peers))
    && (a.keepers == b.keepers || KeeperNotation(ip).Agree(a.keepers, b.keepers))
  }

  /** When the unforced check accepts and the same flags can be applied, applying them gives the
      stored entry back, exactly when no requested empty setting hides a missing key. */
  lemma NoOpCheckSound(ip: IpParser, stored: Entry, o: Options)
    requires IpTexts(ip) && ImageTag(stored.version) == Some(stored.imageTag)
    requires NoOpAccepts(ip, stored, o) && Apply(stored, o).Some?
    ensures SameUpToSpelling(ip, Apply(stored, o).value, stored) <==>
      (o.configOptions.Some? ==>
        var requested := ParseOptions(o.configOptions.value).value;
        forall k :: k in requested && requested[k] == "" ==> k in stored.settings)
  {
    Lawful(ip);
    if o.peers.Some? { PeerNotation(ip).ComparisonDecidesAgreement(o.peers.value, stored.peers); }
    if o.keepers.Some? { KeeperNotation(ip).ComparisonDecidesAgreement(o.keepers.value, stored.keepers); }
    if o.configOptions.Some? {
      SettingsEqualExact(ParseOptions(o.configOptions.value).value, stored.settings);
    }
  }

  const ASKS_EMPTY := Options(None, None, None, None, None, None, None, None, None, None, None, None, None, None, Some(["x="]))

  lemma EmptyOptionParses()
    ensures ParseOptions(["x="]) == Some(map["x" := ""])
  {
    CutAt("x", '=', "");
    assert "x" + ['='] + "" == "x=";
    assert TrimSpace("x") == "x";
    assert ["x="][..0] == [];
    assert ParseOptions(["x="][..0]) == Some(map[]);
  }

  /** The command is fooled too: asked for the one empty setting `x`, it reports an entry that has
      only `y` as already installed with these flags, though applying them would change it. */
  lemma NoOpCheckIsFooled(ip: IpParser, stored: Entry)
    requires stored.settings == map["y" := "1"] && ValidVersion(stored.version)
    ensures NoOpAccepts(ip, stored, ASKS_EMPTY)
    ensures Apply(stored, ASKS_EMPTY).Some? && Apply(stored, ASKS_EMPTY).value.settings == map["x" := ""] != stored.settings
  {
    EmptyOptionParses();
    SettingsEqualIsFooled();
  }

  /** Forcing flags that the unforced check accepts is never refused by the topology check. */
  lemma NoOpImpliesTopology(ip: IpParser, stored: Entry, o: Options, w: World)
    requires IpTexts(ip) && Settled(ip, stored)
    requires NoOpAccepts(ip, stored, o) && Apply(stored, o).Some?
    ensures TopologyAccepts(ip, stored, Fill(Apply(stored, o).value, w))
  {
    var applied := Apply(stored, o).value;
    assert applied.cluster == stored.cluster && applied.shard == stored.shard && applied.replica == stored.replica;
    assert applied.advertiseHost == stored.advertiseHost && applied.tcpPort == stored.tcpPort;
    assert applied.interserverPort == stored.interserverPort;
    assert applied.peers == Flag(o.peers, stored.peers) && applied.keepers == Flag(o.keepers, stored.keepers);
    if Clustered(stored) { ListsStillAgree(ip, stored, o); }
    AcceptedAfterFill(ip, stored, applied, w);
  }

  lemma AcceptedAfterFill(ip: IpParser, stored: Entry, applied: Entry, w: World)
    requires Validated(ip, stored) && TopologyAccepts(ip, stored, applied)
    ensures TopologyAccepts(ip, stored, Fill(applied, w))
  {
  }

  lemma ListsStillAgree(ip: IpParser, stored: Entry, o: Options)
    requires IpTexts(ip) && Settled(ip, stored) && Clustered(stored)
    requires o.peers.Some? ==> SameMembers(PeerCanon(ip), o.peers.value, stored.peers)
    requires o.keepers.Some? ==> SameMembers(KeeperCanon(ip), o.keepers.value, stored.keepers)
    ensures SameMembers(PeerCanon(ip), Flag(o.peers, stored.peers), stored.peers)
    ensures SameMembers(KeeperCanon(ip), Flag(o.keepers, stored.keepers), stored.keepers)
  {
    Lawful(ip);
    PeersDistinct(ip, stored);
    PeerNotation(ip).ComparisonDecidesAgreement(stored.peers, stored.peers);
    KeeperNotation(ip).ComparisonDecidesAgreement(stored.keepers, stored.keepers);
  }

  // --- normalisation is stable ------------------------------------------------------------------

  lemma PeerOrder()
    ensures StrictWeakOrder(PeerLess())
  {
  }

  lemma EndpointOrder()
    ensures StrictWeakOrder(EndpointLess())
  {
    var less := EndpointLess();
    forall a, b | less(a, b)
      ensures !less(b, a)
    {
      LessTrichotomy(a.host, b.host);
    }
    forall a, b, c | !less(b, a) && !less(c, b)
      ensures !less(c, a)
    {
      LessTrichotomy(a.host, b.host);
      LessTrichotomy(b.host, c.host);
      LessTrichotomy(a.host, c.host);
      if Less(a.host, b.host) && Less(b.host, c.host) { LessTransitive(a.host, b.host, c.host); }
    }
  }

  lemma PeersStable(ip: IpParser, peers: seq<string>)
    requires IpTexts(ip)
    ensures NormalPeers(ip, NormalPeers(ip, peers)) == NormalPeers(ip, peers)
    ensures PeerNotation(ip).Readable(peers) ==>
              && PeerNotation(ip).Readable(NormalPeers(ip, peers))
              && Sorted(PeerLess(), PeerNotation(ip).ReadAll(NormalPeers(ip, peers)))
  {
    Lawful(ip);
    PeerOrder();
    var n, less := PeerNotation(ip), PeerLess();
    if n.Readable(peers) {
      NormalIdempotent(n, less, peers);
      n.NormalKeepsMembers(less, peers);
      SortSorts(less, n.ReadAll(peers));
    }
  }

  lemma KeepersStable(ip: IpParser, keepers: seq<string>)
    requires IpTexts(ip)
    ensures NormalKeepers(ip, NormalKeepers(ip, keepers)) == NormalKeepers(ip, keepers)
    ensures KeeperNotation(ip).Readable(keepers) ==>
              && KeeperNotation(ip).Readable(NormalKeepers(ip, keepers))
              && Sorted(EndpointLess(), KeeperNotation(ip).ReadAll(NormalKeepers(ip, keepers)))
  {
    Lawful(ip);
    EndpointOrder();
    var n, less := KeeperNotation(ip), EndpointLess();
    if n.Readable(keepers) {
      NormalSetIdempotent(n, less, keepers);
      NormalSetKeepsMembers(n, less, keepers);
      SortSorts(less, Dedup(n.ReadAll(keepers)));
    }
  }

  /** A normalised entry normalises to itself, and its lists are in order. */
  lemma NormalizeStable(ip: IpParser, e: Entry)
    requires IpTexts(ip)
    ensures Normalize(ip, Normalize(ip, e)) == Normalize(ip, e)
    ensures Clustered(e) && PeerNotation(ip).Readable(e.peers) ==>
              var peers := Normalize(ip, e).peers;
              PeerNotation(ip).Readable(peers) && Sorted(PeerLess(), PeerNotation(ip).ReadAll(peers))
    ensures Clustered(e) && KeeperNotation(ip).Readable(e.keepers) ==>
              var keepers := Normalize(ip, e).keepers;
              KeeperNotation(ip).Readable(keepers) && Sorted(EndpointLess(), KeeperNotation(ip).ReadAll(keepers))
  {
    PeersStable(ip, e.peers);
    KeepersStable(ip, e.keepers);
  }
}
