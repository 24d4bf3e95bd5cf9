/**
 Garage clusters: several hosts, each running its own `pg addon install garage`, assemble one
 ring. A host's install discovers the node's identity, connects the known peers, stages and
 applies a layout role, and, once enough nodes are assigned, seeds key, bucket and grant. Any
 step may fail, and the recovery is to run the same install again.

 The shared ring and each host's stored entry are one state; every answer a host gets from its
 Garage node is one event, so a run is any interleaving of the hosts' installs.
 */
module Garage {
  import opened Text
  import opened HostPort

  // --- the ring -------------------------------------------------------------------------

  /** One addon entry of one host; entries of the same name share a key and a bucket. */
  datatype Id = Id(host: string, name: string)

  datatype Role = Role(zone: string, capacity: int)

  /** A key of the ring, with who created it, how many assigned nodes that host had counted, the
      replication factor it compared them to, and whether it could read the answer. */
  datatype Key = Key(name: string, id: string, secret: string, minter: Id, observed: int, needed: int, read: bool)

  datatype Grant = Grant(bucket: string, key: string)

  datatype Ring = Ring(
    version: nat, staged: map<string, Role>, roles: map<string, Role>,
    minted: seq<Key>, buckets: set<string>, grants: set<Grant>)

  const EMPTY_RING := Ring(0, map[], map[], [], {}, {})

  /** `layout assign`: a role the node already has leaves nothing staged for it. */
  function Assigned(ring: Ring, node: string, role: Role): Ring {
    if node in ring.roles && ring.roles[node] == role
    then ring.(staged := ring.staged - {node})
    else ring.(staged := ring.staged[node := role])
  }

  /** `layout apply`. */
  function Committed(ring: Ring): Ring {
    ring.(version := ring.version + 1, roles := ring.roles + ring.staged, staged := map[])
  }

  predicate EnoughToCommit(ring: Ring, factor: int) {
    |ring.roles.Keys + ring.staged.Keys| >= factor
  }

  /** The first key of that name in `key list`, or the empty text. */
  function KeyIdByName(minted: seq<Key>, name: string): (id: string)
    ensures id != "" ==> exists k :: k in minted && k.name == name && k.id == id
    ensures id == "" ==> forall k :: k in minted && k.id != "" ==> k.name != name
  {
    if minted == [] then ""
    else if minted[0].name == name && minted[0].id != "" then
      assert minted[0] in minted;
      minted[0].id
    else
      assert forall k :: k in minted[1..] ==> k in minted;
      assert forall k :: k in minted ==> k == minted[0] || k in minted[1..];
      KeyIdByName(minted[1..], name)
  }

  // --- the entry a host stores --------------------------------------------------------------

  datatype Entry = Entry(
    cluster: string, advertiseHost: string, rpcPort: nat, zone: string, capacity: int, factor: int,
    peers: seq<string>, rpcSecret: string, nodeId: string, rootUser: string, rootPassword: string)

  const EMPTY_ENTRY := Entry("", "", 0, "", 0, 0, [], "", "", "", "")

  predicate HasRole(gc: Entry) {
    gc.zone != "" && gc.capacity > 0
  }

  function RoleOf(gc: Entry): Role {
    Role(gc.zone, gc.capacity)
  }

  function PublicAddr(gc: Entry): string {
    if gc.advertiseHost == "" then "" else JoinHostPort(gc.advertiseHost, Itoa(gc.rpcPort))
  }

  /** The node's answer to `node id`, completed to an address peers can dial. */
  function NodeId(gc: Entry, answer: string): string {
    if '@' !in answer && PublicAddr(gc) != "" then answer + "@" + PublicAddr(gc) else answer
  }

  /** The node column of a layout: the identity without its address. */
  function NodeKey(nodeId: string): string {
    Cut(nodeId, '@').before
  }

  // --- the cluster part of an install, one answer at a time ------------------------------------

  datatype Outcome = Pending | Seeded | ByPeer | Failed

  datatype Stage =
    | Identify
    | Connect(next: string, rest: seq<string>)
    | Assign
    | Show
    | Apply(version: nat)
    | Count
    | Seed(observed: int)
    | MakeBucket(key: string, existed: bool)
    | Allow(key: string, existed: bool)
    | Finished(outcome: Outcome)

  /** A running install; `dialled` is the history of the peers it connected. */
  datatype Work = Work(stage: Stage, gc: Entry, dialled: seq<string>)

  /** What the node answers. `Lost` stands for a command that took effect although the host saw an
      error, and `Unread` for a key that was created although its text could not be read. */
  datatype Reply =
    | Refused
    | Done
    | Lost
    | Node(text: string)
    | Healthy(count: nat)
    | Minted(key: string, secret: string)
    | Unread(key: string, secret: string)

  function Others(peers: seq<string>, self: string): seq<string> {
    if peers == [] then []
    else if peers[0] == self then Others(peers[1..], self)
    else [peers[0]] + Others(peers[1..], self)
  }

  function AfterConnecting(gc: Entry): Stage {
    if HasRole(gc) then Assign else Count
  }

  function Connecting(gc: Entry, rest: seq<string>): Stage {
    if rest == [] then AfterConnecting(gc) else Connect(rest[0], rest[1..])
  }

  function Stop(w: Work): Work {
    w.(stage := Finished(Failed))
  }

  function Effect(reply: Reply, before: Ring, after: Ring): Ring {
    if reply.Done? || reply.Lost? then after else before
  }

  function Next(reply: Reply, w: Work, stage: Stage): Work {
    if reply.Done? then w.(stage := stage) else Stop(w)
  }

  /** One answer of the node moves one host's install and, possibly, the ring. */
  function Turn(id: Id, w: Work, ring: Ring, reply: Reply): (Ring, Work) {
    match w.stage
    case Identify =>
      if reply.Node? && reply.text != "" then
        var gc := w.gc.(nodeId := NodeId(w.gc, reply.text));
        (ring, Work(Connecting(gc, Others(gc.peers, gc.nodeId)), gc, []))
      else (ring, Stop(w))
    case Connect(next, rest) =>
      (ring, Next(reply, if reply.Done? then w.(dialled := w.dialled + [next]) else w, Connecting(w.gc, rest)))
    case Assign =>
      (Effect(reply, ring, Assigned(ring, NodeKey(w.gc.nodeId), RoleOf(w.gc))), Next(reply, w, Show))
    case Show =>
      (ring, Next(reply, w, if ring.staged == map[] then Count else Apply(ring.version)))
    case Apply(version) =>
      if version != ring.version then (ring, Stop(w))
      else if !EnoughToCommit(ring, w.gc.factor) then (ring, Next(reply, w, Count))
      else (Effect(reply, ring, Committed(ring)), Next(reply, w, Count))
    case Count =>
      if !reply.Healthy? then (ring, Stop(w))
      else if reply.count < w.gc.factor then (ring, w.(stage := Finished(Pending)))
      else (ring, w.(stage := Seed(reply.count)))
    case Seed(observed) =>
      var key := KeyIdByName(ring.minted, id.name);
      if key != "" then
        (ring, Next(reply, w.(gc := if w.gc.rootUser == "" && reply.Done? then w.gc.(rootUser := key) else w.gc),
                    MakeBucket(key, true)))
      else if reply.Minted? then
        (ring.(minted := ring.minted + [Key(id.name, reply.key, reply.secret, id, observed, w.gc.factor, true)]),
         w.(stage := MakeBucket(reply.key, false), gc := w.gc.(rootUser := reply.key, rootPassword := reply.secret)))
      else if reply.Unread? then
        (ring.(minted := ring.minted + [Key(id.name, reply.key, reply.secret, id, observed, w.gc.factor, false)]), Stop(w))
      else (ring, Stop(w))
    case MakeBucket(key, existed) =>
      (Effect(reply, ring, ring.(buckets := ring.buckets + {id.name})), Next(reply, w, Allow(key, existed)))
    case Allow(key, existed) =>
      (Effect(reply, ring, ring.(grants := ring.grants + {Grant(id.name, key)})),
       Next(reply, w, Finished(if existed then ByPeer else Seeded)))
    case Finished(_) => (ring, w)
  }

  // --- the part of an install before that --------------------------------------------------------

  /** Absent flags are empty, as in the command. */
  datatype Flags = Flags(
    cluster: string, advertiseHost: string, zone: string, capacity: int, factor: int,
    peers: seq<string>, rpcSecret: string, rootUser: string, rootPassword: string)

  /** `appendPeers`. */
  function AppendPeers(existing: seq<string>, added: seq<string>): seq<string> {
    if added == [] then existing
    else
      var out := AppendPeers(existing, added[..|added| - 1]);
      if added[|added| - 1] in out then out else out + [added[|added| - 1]]
  }

  function Or(flag: string, stored: string): string {
    if flag != "" then flag else stored
  }

  function OrInt(flag: int, stored: int): int {
    if flag != 0 then flag else stored
  }

  predicate FlagsAccepted(f: Flags) {
    f.cluster == "" ==> f.rpcSecret == "" && f.peers == [] && f.zone == "" && f.capacity == 0
  }

  const MIN_ACCESS_KEY := 8
  const MIN_SECRET_KEY := 16

  /** `ValidateGarageCluster`. */
  predicate Valid(gc: Entry) {
    if gc.cluster == "" then
      && gc.factor <= 1
      && (gc.rootUser == "" || |gc.rootUser| >= MIN_ACCESS_KEY)
      && (gc.rootPassword == "" || |gc.rootPassword| >= MIN_SECRET_KEY)
    else
      && gc.advertiseHost != ""
      && (gc.rpcSecret == "" ==> gc.peers == [])
      && (gc.capacity > 0 ==> gc.zone != "")
  }

  function Merged(gc: Entry, f: Flags): Option<Entry> {
    if !FlagsAccepted(f) then None
    else if f.cluster != "" && gc.cluster != "" && gc.cluster != f.cluster then None
    else if f.rpcSecret != "" && gc.rpcSecret != "" && gc.rpcSecret != f.rpcSecret then None
    else
      var merged := Entry(
        Or(f.cluster, gc.cluster), Or(f.advertiseHost, gc.advertiseHost), gc.rpcPort, Or(f.zone, gc.zone),
        OrInt(f.capacity, gc.capacity), OrInt(f.factor, gc.factor), AppendPeers(gc.peers, f.peers),
        Or(f.rpcSecret, gc.rpcSecret), gc.nodeId, Or(f.rootUser, gc.rootUser), Or(f.rootPassword, gc.rootPassword));
      if Valid(merged) then Some(merged) else None
  }

  /** Values chosen for the host: a port from the pool and freshly generated secrets. */
  datatype Chosen = Chosen(rpcPort: nat, accessKey: string, secretKey: string, rpcSecret: string)

  /** Defaults, and the secrets generated when a container is created. */
  function Prepared(gc: Entry, creates: bool, c: Chosen): Entry {
    var d := gc.(factor := if gc.factor == 0 then 1 else gc.factor,
                 rpcPort := if gc.rpcPort == 0 then c.rpcPort else gc.rpcPort);
    if !creates then d
    else
      var keyed := if d.cluster != "" then d
                   else d.(rootUser := Or(d.rootUser, c.accessKey), rootPassword := Or(d.rootPassword, c.secretKey));
      keyed.(rpcSecret := Or(keyed.rpcSecret, c.rpcSecret))
  }

  // --- all hosts together -----------------------------------------------------------------------

  datatype State = State(ring: Ring, stored: map<Id, Entry>, live: map<Id, Work>)

  const START := State(EMPTY_RING, map[], map[])

  /** `Advance` on a finished install is its final save; `Kill` ends a process, or loses its final
      save, so that nothing of the cluster part is stored. */
  datatype Event =
    | Begin(id: Id, flags: Flags, creates: bool, chosen: Chosen)
    | Advance(id: Id, reply: Reply)
    | Kill(id: Id)

  function StoredOrNew(s: State, id: Id): Entry {
    if id in s.stored then s.stored[id] else EMPTY_ENTRY
  }

  function Step(s: State, e: Event): State {
    match e
    case Begin(id, f, creates, chosen) =>
      if id in s.live then s
      else
        var merged := Merged(StoredOrNew(s, id), f);
        if merged.None? then s
        else
          var gc := Prepared(merged.value, creates, chosen);
          s.(stored := s.stored[id := gc],
             live := if gc.cluster == "" then s.live else s.live[id := Work(Identify, gc, [])])
    case Advance(id, reply) =>
      if id !in s.live then s
      else if s.live[id].stage.Finished? then
        s.(stored := s.stored[id := s.live[id].gc], live := s.live - {id})
      else
        var (ring, w) := Turn(id, s.live[id], s.ring, reply);
        s.(ring := ring, live := s.live[id := w])
    case Kill(id) => s.(live := s.live - {id})
  }
}
