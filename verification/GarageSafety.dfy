/**
 What holds of a Garage ring after any interleaving of installs, however they fail: one key per
 name, created only after enough nodes were seen in the layout, and granted to nobody else.
 */
module GarageSafety {
  import opened Lists
  import opened Runs
  import opened Garage

  // --- what is said of the ring -----------------------------------------------------------------

  ghost predicate HasKey(ring: Ring, name: string, id: string) {
    exists k :: k in ring.minted && k.name == name && k.id == id
  }

  /** At most one key was ever created for a name. */
  ghost predicate OneKeyPerName(ring: Ring) {
    forall i, j :: 0 <= i < j < |ring.minted| ==> ring.minted[i].name != ring.minted[j].name
  }

  /** A key was created only by a host that had counted its replication factor, all of them nodes
      of the layout. */
  ghost predicate KeysAfterQuorum(ring: Ring) {
    forall k :: k in ring.minted ==> k.needed <= k.observed <= |ring.roles|
  }

  /** A bucket is granted to the key of its own name and no other. */
  ghost predicate GrantsToTheKey(ring: Ring) {
    forall g :: g in ring.grants ==> HasKey(ring, g.bucket, g.key)
  }

  ghost predicate Safe(ring: Ring) {
    OneKeyPerName(ring) && KeysAfterQuorum(ring) && GrantsToTheKey(ring)
  }

  /** Key, bucket and grant are all there. */
  ghost predicate IsSeeded(ring: Ring, name: string) {
    name in ring.buckets && exists id :: HasKey(ring, name, id) && Grant(name, id) in ring.grants
  }

  // --- what the outside world may answer -------------------------------------------------------

  ghost predicate SecretInUse(s: State, secret: string) {
    || (exists k :: k in s.ring.minted && k.secret == secret)
    || (exists i :: i in s.stored && s.stored[i].rootPassword == secret)
    || (exists i :: i in s.live && s.live[i].gc.rootPassword == secret)
  }

  /** A node counts only nodes of the layout, and created secrets are new and not empty. */
  ghost predicate Honest(s: State, e: Event) {
    match e
    case Begin(_, _, _, c) => c.secretKey != "" && !SecretInUse(s, c.secretKey)
    case Advance(_, Healthy(n)) => n <= |s.ring.roles|
    case Advance(_, Minted(k, secret)) => k != "" && secret != "" && !SecretInUse(s, secret)
    case Advance(_, Unread(k, secret)) => k != "" && secret != "" && !SecretInUse(s, secret)
    case _ => true
  }

  // --- the invariant ---------------------------------------------------------------------------

  ghost predicate Grows(before: Ring, after: Ring) {
    && before.roles.Keys <= after.roles.Keys
    && before.minted <= after.minted
    && before.buckets <= after.buckets
    && before.grants <= after.grants
  }

  ghost predicate RingOk(ring: Ring) {
    Safe(ring) && forall k :: k in ring.minted ==> k.id != ""
  }

  ghost predicate WorkOk(id: Id, w: Work, ring: Ring) {
    match w.stage
    case Seed(n) => w.gc.factor <= n <= |ring.roles|
    case MakeBucket(k, _) => HasKey(ring, id.name, k)
    case Allow(k, _) => HasKey(ring, id.name, k) && id.name in ring.buckets
    case Finished(o) => o.Seeded? || o.ByPeer? ==> IsSeeded(ring, id.name)
    case _ => true
  }

  ghost predicate Inv(s: State) {
    RingOk(s.ring) && forall i :: i in s.live ==> WorkOk(i, s.live[i], s.ring)
  }

  lemma RolesGrow(before: Ring, after: Ring)
    requires before.roles.Keys <= after.roles.Keys
    ensures |before.roles| <= |after.roles|
  {
    SubsetSize(before.roles.Keys, after.roles.Keys);
  }

  lemma KeyStays(before: Ring, after: Ring, name: string, id: string)
    requires Grows(before, after) && HasKey(before, name, id)
    ensures HasKey(after, name, id)
  {
    var k :| k in before.minted && k.name == name && k.id == id;
    assert k in after.minted;
  }

  /** What a host relies on stays true whatever the other hosts do. */
  lemma WorkStaysOk(id: Id, w: Work, before: Ring, after: Ring)
    requires Grows(before, after) && WorkOk(id, w, before)
    ensures WorkOk(id, w, after)
  {
    RolesGrow(before, after);
    match w.stage
    case MakeBucket(k, _) => KeyStays(before, after, id.name, k);
    case Allow(k, _) => KeyStays(before, after, id.name, k);
    case Finished(_) =>
      if IsSeeded(before, id.name) { SeedingStays(before, after, id.name); }
    case _ =>
  }

  lemma SeedingStays(before: Ring, after: Ring, name: string)
    requires Grows(before, after) && IsSeeded(before, name)
    ensures IsSeeded(after, name)
  {
    var id :| HasKey(before, name, id) && Grant(name, id) in before.grants;
    KeyStays(before, after, name, id);
  }

  lemma SafeWithRoles(before: Ring, after: Ring)
    requires RingOk(before) && before.roles.Keys <= after.roles.Keys
    requires after.minted == before.minted && after.buckets == before.buckets && after.grants == before.grants
    ensures RingOk(after) && Grows(before, after)
  {
    RolesGrow(before, after);
    forall g | g in after.grants
      ensures HasKey(after, g.bucket, g.key)
    {
      assert HasKey(before, g.bucket, g.key);
    }
  }

  lemma SafeWithKey(before: Ring, k: Key)
    requires RingOk(before) && k.id != "" && k.needed <= k.observed <= |before.roles|
    requires KeyIdByName(before.minted, k.name) == ""
    ensures var after := before.(minted := before.minted + [k]);
            RingOk(after) && Grows(before, after) && HasKey(after, k.name, k.id)
  {
    var after := before.(minted := before.minted + [k]);
    assert k in after.minted;
    assert Grows(before, after);
    forall i, j | 0 <= i < j < |after.minted|
      ensures after.minted[i].name != after.minted[j].name
    {
      if j == |before.minted| { assert before.minted[i] in before.minted; }
    }
    forall g | g in after.grants
      ensures HasKey(after, g.bucket, g.key)
    {
      KeyStays(before, after, g.bucket, g.key);
    }
  }

  lemma SafeWithGrant(before: Ring, name: string, key: string)
    requires RingOk(before) && HasKey(before, name, key) && name in before.buckets
    ensures var after := before.(grants := before.grants + {Grant(name, key)});
            RingOk(after) && Grows(before, after) && IsSeeded(after, name)
  {
    var after := before.(grants := before.grants + {Grant(name, key)});
    forall n, k | HasKey(before, n, k)
      ensures HasKey(after, n, k)
    {
      KeyStays(before, after, n, k);
    }
  }

  lemma SafeWithBucket(before: Ring, name: string)
    requires RingOk(before)
    ensures var after := before.(buckets := before.buckets + {name});
            RingOk(after) && Grows(before, after)
  {
    var after := before.(buckets := before.buckets + {name});
    forall n, k | HasKey(before, n, k)
      ensures HasKey(after, n, k)
    {
      KeyStays(before, after, n, k);
    }
  }

  lemma AssignKeeps(s: State, id: Id, reply: Reply)
    requires Inv(s) && id in s.live && s.live[id].stage.Assign?
    ensures var (ring, w) := Turn(id, s.live[id], s.ring, reply);
            RingOk(ring) && Grows(s.ring, ring) && WorkOk(id, w, ring)
  {
    var gc := s.live[id].gc;
    SafeWithRoles(s.ring, Assigned(s.ring, NodeKey(gc.nodeId), RoleOf(gc)));
    SafeWithRoles(s.ring, s.ring);
  }

  lemma ApplyKeeps(s: State, id: Id, reply: Reply)
    requires Inv(s) && id in s.live && s.live[id].stage.Apply?
    ensures var (ring, w) := Turn(id, s.live[id], s.ring, reply);
            RingOk(ring) && Grows(s.ring, ring) && WorkOk(id, w, ring)
  {
    SafeWithRoles(s.ring, Committed(s.ring));
    SafeWithRoles(s.ring, s.ring);
    var (ring, w) := Turn(id, s.live[id], s.ring, reply);
    assert ring == s.ring || ring == Committed(s.ring);
    assert w.stage == Count || w.stage == Finished(Failed);
  }

  lemma BucketKeeps(s: State, id: Id, reply: Reply)
    requires Inv(s) && id in s.live && s.live[id].stage.MakeBucket?
    ensures var (ring, w) := Turn(id, s.live[id], s.ring, reply);
            RingOk(ring) && Grows(s.ring, ring) && WorkOk(id, w, ring)
  {
    var w, ring := s.live[id], s.ring;
    assert WorkOk(id, w, ring);
    SafeWithBucket(ring, id.name);
    KeyStays(ring, ring.(buckets := ring.buckets + {id.name}), id.name, w.stage.key);
  }

  lemma AllowKeeps(s: State, id: Id, reply: Reply)
    requires Inv(s) && id in s.live && s.live[id].stage.Allow?
    ensures var (ring, w) := Turn(id, s.live[id], s.ring, reply);
            RingOk(ring) && Grows(s.ring, ring) && WorkOk(id, w, ring)
  {
    var w, ring := s.live[id], s.ring;
    assert WorkOk(id, w, ring);
    SafeWithGrant(ring, id.name, w.stage.key);
  }

  lemma ReadingKeeps(s: State, id: Id, reply: Reply)
    requires Inv(s) && id in s.live && Honest(s, Advance(id, reply))
    requires var stage := s.live[id].stage;
             stage.Identify? || stage.Connect? || stage.Show? || stage.Count? || stage.Finished?
    ensures var (ring, w) := Turn(id, s.live[id], s.ring, reply); ring == s.ring && WorkOk(id, w, ring)
  {
    assert WorkOk(id, s.live[id], s.ring);
  }

  /** One answer keeps the ring safe, only adds to it, and leaves the host's own reliances true. */
  lemma TurnKeeps(s: State, id: Id, reply: Reply)
    requires Inv(s) && id in s.live && Honest(s, Advance(id, reply))
    ensures var (ring, w) := Turn(id, s.live[id], s.ring, reply);
            RingOk(ring) && Grows(s.ring, ring) && WorkOk(id, w, ring)
  {
    match s.live[id].stage
    case Assign => AssignKeeps(s, id, reply);
    case Apply(_) => ApplyKeeps(s, id, reply);
    case Seed(observed) => SeedKeeps(s, id, reply, observed);
    case MakeBucket(_, _) => BucketKeeps(s, id, reply);
    case Allow(_, _) => AllowKeeps(s, id, reply);
    case _ => ReadingKeeps(s, id, reply);
  }

  lemma SeedKeeps(s: State, id: Id, reply: Reply, observed: int)
    requires Inv(s) && id in s.live && Honest(s, Advance(id, reply)) && s.live[id].stage == Seed(observed)
    ensures var (ring, w) := Turn(id, s.live[id], s.ring, reply);
            RingOk(ring) && Grows(s.ring, ring) && WorkOk(id, w, ring)
  {
    var w, ring := s.live[id], s.ring;
    assert WorkOk(id, w, ring);
    if KeyIdByName(ring.minted, id.name) == "" {
      if reply.Minted? {
        SafeWithKey(ring, Key(id.name, reply.key, reply.secret, id, observed, w.gc.factor, true));
      } else if reply.Unread? {
        SafeWithKey(ring, Key(id.name, reply.key, reply.secret, id, observed, w.gc.factor, false));
      }
    }
  }

  lemma StepKeeps(s: State, e: Event)
    requires Inv(s) && Honest(s, e)
    ensures Inv(Step(s, e)) && Grows(s.ring, Step(s, e).ring)
  {
    if e.Advance? && e.id in s.live && !s.live[e.id].stage.Finished? {
      TurnKeeps(s, e.id, e.reply);
      var next := Step(s, e);
      forall i | i in next.live
        ensures WorkOk(i, next.live[i], next.ring)
      {
        if i != e.id { WorkStaysOk(i, s.live[i], s.ring, next.ring); }
      }
    }
  }

  // --- over whole runs -----------------------------------------------------------------------

  ghost predicate Reaches(s: State, evs: seq<Event>, t: State) {
    AllOk(Step, Honest, s, evs) && t == Run(Step, s, evs)
  }

  lemma InvInductive()
    ensures Preserved(Step, Honest, Inv)
  {
    forall s, e | Inv(s) && Honest(s, e)
      ensures Inv(Step(s, e))
    {
      StepKeeps(s, e);
    }
  }

  lemma ReachableInv(evs: seq<Event>, t: State)
    requires Reaches(START, evs, t)
    ensures Inv(t)
  {
    InvInductive();
    RunKeeps(Step, Honest, Inv, START, evs);
  }

  /** Every interleaving of installs, failing anywhere, leaves a safe ring. */
  lemma AlwaysSafe(evs: seq<Event>, t: State)
    requires Reaches(START, evs, t)
    ensures OneKeyPerName(t.ring) && KeysAfterQuorum(t.ring) && GrantsToTheKey(t.ring)
  {
    ReachableInv(evs, t);
  }

  /** Every install of the run works with one replication factor. */
  ghost predicate Shares(factor: int, s: State, e: Event) {
    && Honest(s, e)
    && (e.Begin? ==>
          var merged := Merged(StoredOrNew(s, e.id), e.flags);
          merged.Some? ==> Prepared(merged.value, e.creates, e.chosen).factor == factor)
  }

  ghost predicate UsesFactor(factor: int, s: State) {
    && Inv(s)
    && (forall k :: k in s.ring.minted ==> k.needed == factor)
    && (forall i :: i in s.live ==> s.live[i].gc.factor == factor)
  }

  lemma TurnFields(id: Id, w: Work, ring: Ring, reply: Reply)
    ensures var gc := Turn(id, w, ring, reply).1.gc;
            gc == w.gc.(nodeId := gc.nodeId, rootUser := gc.rootUser, rootPassword := gc.rootPassword)
  {
  }

  lemma TurnKeys(id: Id, w: Work, ring: Ring, reply: Reply)
    ensures forall k :: k in Turn(id, w, ring, reply).0.minted ==> k in ring.minted || k.needed == w.gc.factor
  {
  }

  lemma TurnEntry(id: Id, w: Work, ring: Ring, reply: Reply)
    ensures var gc := Turn(id, w, ring, reply).1.gc;
            gc == w.gc.(nodeId := gc.nodeId, rootUser := gc.rootUser, rootPassword := gc.rootPassword)
    ensures forall k :: k in Turn(id, w, ring, reply).0.minted ==> k in ring.minted || k.needed == w.gc.factor
  {
    TurnFields(id, w, ring, reply);
    TurnKeys(id, w, ring, reply);
  }

  lemma FactorStep(factor: int, s: State, e: Event)
    requires UsesFactor(factor, s) && Shares(factor, s, e)
    ensures UsesFactor(factor, Step(s, e))
  {
    StepKeeps(s, e);
    if e.Advance? && e.id in s.live {
      TurnEntry(e.id, s.live[e.id], s.ring, e.reply);
    }
  }

  /** With one shared replication factor, no key exists before that many nodes are in the layout. */
  lemma NoKeyBeforeQuorum(factor: int, evs: seq<Event>)
    requires AllOk(Step, (s, e) => Shares(factor, s, e), START, evs)
    ensures var ring := Run(Step, START, evs).ring; ring.minted != [] ==> |ring.roles| >= factor
  {
    var ok, inv := (s, e) => Shares(factor, s, e), s => UsesFactor(factor, s);
    forall s, e | inv(s) && ok(s, e)
      ensures inv(Step(s, e))
    {
      FactorStep(factor, s, e);
    }
    RunKeeps(Step, ok, inv, START, evs);
    var ring := Run(Step, START, evs).ring;
    assert ring.minted != [] ==> ring.minted[0] in ring.minted;
  }

  lemma {:induction false} RunGrows(s: State, evs: seq<Event>)
    requires Inv(s) && AllOk(Step, Honest, s, evs)
    ensures Inv(Run(Step, s, evs)) && Grows(s.ring, Run(Step, s, evs).ring)
    decreases |evs|
  {
    if evs != [] {
      StepKeeps(s, evs[0]);
      RunGrows(Step(s, evs[0]), evs[1..]);
    }
  }

  /** An install that reports success left key, bucket and grant in the ring, and nothing any host
      does afterwards takes them away. */
  lemma SuccessIsLasting(evs: seq<Event>, s: State, id: Id, more: seq<Event>, t: State)
    requires Reaches(START, evs, s) && Reaches(s, more, t)
    requires id in s.live && (s.live[id].stage == Finished(Seeded) || s.live[id].stage == Finished(ByPeer))
    ensures IsSeeded(s.ring, id.name) && IsSeeded(t.ring, id.name)
  {
    ReachableInv(evs, s);
    assert WorkOk(id, s.live[id], s.ring);
    RunGrows(s, more);
    SeedingStays(s.ring, t.ring, id.name);
  }

  // --- the layout lock ---------------------------------------------------------------------------

  lemma {:induction false} OthersKeepIt(s: State, id: Id, evs: seq<Event>)
    requires id in s.live && forall e :: e in evs ==> e.id != id
    ensures var t := Run(Step, s, evs); id in t.live && t.live[id] == s.live[id] && s.ring.version <= t.ring.version
    decreases |evs|
  {
    if evs != [] {
      assert evs[0] in evs;
      OthersKeepIt(Step(s, evs[0]), id, evs[1..]);
    }
  }

  /** The version is an optimistic lock: a host that read it, and then saw any other host's layout
      committed first, fails without touching the ring, whatever its node answers. */
  lemma LostRaceFails(s: State, id: Id, e: Event, evs: seq<Event>, reply: Reply)
    requires id in s.live && s.live[id].stage == Apply(s.ring.version)
    requires e.id != id && Step(s, e).ring.version > s.ring.version
    requires forall e :: e in evs ==> e.id != id
    ensures var t := Run(Step, Step(s, e), evs);
            && Step(t, Advance(id, reply)).ring == t.ring
            && id in Step(t, Advance(id, reply)).live
            && Step(t, Advance(id, reply)).live[id] == s.live[id].(stage := Finished(Failed))
  {
    OthersKeepIt(Step(s, e), id, evs);
  }
}
