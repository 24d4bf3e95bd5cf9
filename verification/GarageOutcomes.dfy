/**
 What the results of an install mean to the operator: which of the outcomes tells what about key and
 credentials, what a committed layout had, and the address an identity is completed with.
 */
module GarageOutcomes {
  import opened Text
  import opened HostPort
  import Peers
  import opened Runs
  import opened Garage
  import opened GarageSafety
  import opened GarageRecovery

  // --- committing a layout ------------------------------------------------------------------------

  /** The layout changes only by a commit: one version up, nothing left staged, every staged role
      taken over, and at least as many nodes with a role as the committing host's replication
      factor. */
  lemma CommitsAtQuorum(s: State, e: Event)
    requires Step(s, e).ring.roles != s.ring.roles || Step(s, e).ring.version != s.ring.version
    ensures e.Advance? && e.id in s.live
    ensures var r := Step(s, e).ring;
            && r.version == s.ring.version + 1 && r.staged == map[]
            && |r.roles| >= s.live[e.id].gc.factor
            && (forall n :: n in s.ring.staged ==> n in r.roles && r.roles[n] == s.ring.staged[n])
            && (forall n :: n in s.ring.roles && n !in s.ring.staged ==> n in r.roles && r.roles[n] == s.ring.roles[n])
            && (forall n :: n in r.roles ==> n in s.ring.roles || n in s.ring.staged)
  {
    var r := Step(s, e).ring;
    CommitTurn(e.id, s.live[e.id], s.ring, e.reply);
    assert r.roles.Keys == s.ring.roles.Keys + s.ring.staged.Keys;
  }

  lemma ApplyCommits(id: Id, w: Work, ring: Ring, reply: Reply)
    requires w.stage.Apply? && Turn(id, w, ring, reply).0 != ring
    ensures Turn(id, w, ring, reply).0 == Committed(ring) && |ring.roles.Keys + ring.staged.Keys| >= w.gc.factor
  {
  }

  lemma OthersDoNotCommit(id: Id, w: Work, ring: Ring, reply: Reply)
    requires !w.stage.Apply?
    ensures Turn(id, w, ring, reply).0.roles == ring.roles && Turn(id, w, ring, reply).0.version == ring.version
  {
  }

  lemma CommitTurn(id: Id, w: Work, ring: Ring, reply: Reply)
    requires Turn(id, w, ring, reply).0.roles != ring.roles || Turn(id, w, ring, reply).0.version != ring.version
    ensures Turn(id, w, ring, reply).0 == Committed(ring) && |ring.roles.Keys + ring.staged.Keys| >= w.gc.factor
  {
    if w.stage.Apply? {
      ApplyCommits(id, w, ring, reply);
    } else {
      OthersDoNotCommit(id, w, ring, reply);
    }
  }

  // --- the role a node gets -------------------------------------------------------------------------

  /** The entry asks for a role: a zone, and a capacity. */
  predicate AsksRole(gc: Entry) {
    gc.zone != "" && gc.capacity > 0
  }

  ghost predicate LaysOutWithRole(s: State) {
    forall i :: i in s.live && (s.live[i].stage.Assign? || s.live[i].stage.Show? || s.live[i].stage.Apply?) ==> AsksRole(s.live[i].gc)
  }

  lemma RoleTurn(id: Id, w: Work, ring: Ring, reply: Reply)
    requires w.stage.Assign? || w.stage.Show? || w.stage.Apply? ==> AsksRole(w.gc)
    ensures var v := Turn(id, w, ring, reply).1;
            v.stage.Assign? || v.stage.Show? || v.stage.Apply? ==> AsksRole(v.gc)
  {
    TurnEntry(id, w, ring, reply);
  }

  lemma RoleStep(s: State, e: Event)
    requires LaysOutWithRole(s)
    ensures LaysOutWithRole(Step(s, e))
  {
    if e.Advance? && e.id in s.live { RoleTurn(e.id, s.live[e.id], s.ring, e.reply); }
  }

  /** Over every run, an install touches the layout only if its entry asks for a role, and what it
      stages is that role for its own node and nothing else. */
  lemma OnlyOwnRoleIsStaged(evs: seq<Event>, e: Event)
    ensures var s := Run(Step, START, evs);
            Step(s, e).ring.staged != s.ring.staged || Step(s, e).ring.roles != s.ring.roles ==>
              && e.Advance? && e.id in s.live && AsksRole(s.live[e.id].gc)
              && var gc, t := s.live[e.id].gc, Step(s, e).ring;
                 forall n :: n in t.staged && !(n in s.ring.staged && s.ring.staged[n] == t.staged[n]) ==>
                   n == Cut(gc.nodeId, '@').before && t.staged[n] == Role(gc.zone, gc.capacity)
  {
    var ok := (s: State, e: Event) => true;
    forall s, e | LaysOutWithRole(s)
      ensures LaysOutWithRole(Step(s, e))
    {
      RoleStep(s, e);
    }
    AllOkFromEach(Step, ok, START, evs, e => true);
    RunKeeps(Step, ok, LaysOutWithRole, START, evs);
    var s := Run(Step, START, evs);
    if e.Advance? && e.id in s.live { StagedTurn(e.id, s.live[e.id], s.ring, e.reply); }
  }

  lemma StagedTurn(id: Id, w: Work, ring: Ring, reply: Reply)
    ensures var t := Turn(id, w, ring, reply).0;
            && (t.staged != ring.staged || t.roles != ring.roles ==> w.stage.Assign? || w.stage.Apply?)
            && forall n :: n in t.staged && !(n in ring.staged && ring.staged[n] == t.staged[n]) ==>
                 n == Cut(w.gc.nodeId, '@').before && t.staged[n] == Role(w.gc.zone, w.gc.capacity)
  {
    if !w.stage.Assign? && !w.stage.Apply? { LayoutUntouched(id, w, ring, reply); }
  }

  lemma LayoutUntouched(id: Id, w: Work, ring: Ring, reply: Reply)
    requires !w.stage.Assign? && !w.stage.Apply?
    ensures Turn(id, w, ring, reply).0.staged == ring.staged && Turn(id, w, ring, reply).0.roles == ring.roles
  {
  }

  /** A complete re-run gives its node the zone and capacity of its entry, and leaves nothing staged. */
  lemma RerunGivesRole(node: Id -> string, s: State, id: Id, evs: seq<Event>)
    requires Inv(s) && id in s.live && s.live[id].stage.Identify? && |s.ring.roles| >= s.live[id].gc.factor
    requires AllOk(Step, (s, e) => ByItself(node, id, s, e), s, evs)
    requires id !in Run(Step, s, evs).live
    ensures var t := Run(Step, s, evs);
            id in t.stored && (AsksRole(t.stored[id]) ==>
              && t.ring.staged == map[] && node(id) in t.ring.roles
              && t.ring.roles[node(id)] == Role(t.stored[id].zone, t.stored[id].capacity))
  {
    var ok, inv := (s, e) => ByItself(node, id, s, e), s => AloneInv(node, id, s);
    forall s, e | inv(s) && ok(s, e)
      ensures inv(Step(s, e))
    {
      AloneStep(node, id, s, e);
    }
    RunKeeps(Step, ok, inv, s, evs);
  }

  // --- what the outcome says -----------------------------------------------------------------------

  /** The entry holds a key of its own name that this host created. */
  ghost predicate Owns(ring: Ring, id: Id, gc: Entry) {
    exists k :: k in ring.minted && k.minter == id && k.name == id.name && gc.rootUser == k.id && gc.rootPassword == k.secret
  }

  /** The entry kept its password, and its user if it had one; else it learnt the public key id. */
  ghost predicate Learnt(ring: Ring, id: Id, before: Entry, gc: Entry) {
    && gc.rootPassword == before.rootPassword
    && if before.rootUser != "" then gc.rootUser == before.rootUser else HasKey(ring, id.name, gc.rootUser)
  }

  ghost predicate Tells(id: Id, w: Work, before: Entry, ring: Ring) {
    match w.stage
    case MakeBucket(_, existed) => if existed then Learnt(ring, id, before, w.gc) else Owns(ring, id, w.gc)
    case Allow(_, existed) => if existed then Learnt(ring, id, before, w.gc) else Owns(ring, id, w.gc)
    case Finished(Seeded) => Owns(ring, id, w.gc)
    case Finished(ByPeer) => Learnt(ring, id, before, w.gc)
    case Finished(Failed) => true
    case _ => w.gc.rootUser == before.rootUser && w.gc.rootPassword == before.rootPassword
  }

  lemma TellsStays(id: Id, w: Work, before: Entry, a: Ring, b: Ring)
    requires Tells(id, w, before, a) && Grows(a, b)
    ensures Tells(id, w, before, b)
  {
    if HasKey(a, id.name, w.gc.rootUser) { KeyStays(a, b, id.name, w.gc.rootUser); }
    if Owns(a, id, w.gc) { OwnsStays(id, w.gc, a, b); }
  }

  lemma OwnsStays(id: Id, gc: Entry, a: Ring, b: Ring)
    requires Owns(a, id, gc) && Grows(a, b)
    ensures Owns(b, id, gc)
  {
    var k :| k in a.minted && k.minter == id && k.name == id.name && gc.rootUser == k.id && gc.rootPassword == k.secret;
    assert k in b.minted;
  }

  lemma TellsSeed(id: Id, w: Work, before: Entry, ring: Ring, reply: Reply)
    requires Tells(id, w, before, ring) && w.stage.Seed?
    ensures var (r, v) := Turn(id, w, ring, reply); Tells(id, v, before, r)
  {
    var (r, v) := Turn(id, w, ring, reply);
    if KeyIdByName(ring.minted, id.name) == "" && reply.Minted? {
      var k := Key(id.name, reply.key, reply.secret, id, w.stage.observed, w.gc.factor, true);
      assert r.minted == ring.minted + [k] && k in r.minted;
    }
  }

  lemma TellsGrant(id: Id, w: Work, before: Entry, ring: Ring, reply: Reply)
    requires Tells(id, w, before, ring) && (w.stage.MakeBucket? || w.stage.Allow?)
    ensures var (r, v) := Turn(id, w, ring, reply); Tells(id, v, before, r)
  {
    var (r, v) := Turn(id, w, ring, reply);
    assert r.minted == ring.minted && v.gc == w.gc;
    assert Owns(ring, id, w.gc) ==> Owns(r, id, w.gc);
    assert HasKey(ring, id.name, w.gc.rootUser) ==> HasKey(r, id.name, w.gc.rootUser);
  }

  lemma TellsTurn(id: Id, w: Work, before: Entry, ring: Ring, reply: Reply)
    requires Tells(id, w, before, ring)
    ensures var (r, v) := Turn(id, w, ring, reply); Tells(id, v, before, r)
  {
    match w.stage
    case Seed(_) => TellsSeed(id, w, before, ring, reply);
    case MakeBucket(_, _) => TellsGrant(id, w, before, ring, reply);
    case Allow(_, _) => TellsGrant(id, w, before, ring, reply);
    case _ =>
  }

  ghost predicate AllTell(s: State) {
    Inv(s) && forall i :: i in s.live ==> i in s.stored && Tells(i, s.live[i], s.stored[i], s.ring)
  }

  lemma AdvanceTells(s: State, e: Event)
    requires AllTell(s) && Honest(s, e) && e.Advance? && e.id in s.live && !s.live[e.id].stage.Finished?
    ensures AllTell(Step(s, e))
  {
    StepKeeps(s, e);
    TellsTurn(e.id, s.live[e.id], s.stored[e.id], s.ring, e.reply);
    var t := Step(s, e);
    forall i | i in t.live
      ensures i in t.stored && Tells(i, t.live[i], t.stored[i], t.ring)
    {
      if i != e.id { TellsStays(i, s.live[i], s.stored[i], s.ring, t.ring); }
    }
  }

  lemma TellsStep(s: State, e: Event)
    requires AllTell(s) && Honest(s, e)
    ensures AllTell(Step(s, e))
  {
    StepKeeps(s, e);
    if e.Advance? && e.id in s.live && !s.live[e.id].stage.Finished? { AdvanceTells(s, e); }
  }

  /** Over every interleaving. "Seeded" means that this host created the key and its entry holds both
      halves. "By peer" means that the entry kept its password, and that it has a user: its own, or
      the id of the ring's key if it had none. "Pending" means that the credentials are as stored. */
  lemma OutcomesTell(evs: seq<Event>, t: State, i: Id)
    requires Reaches(START, evs, t) && i in t.live
    ensures i in t.stored
    ensures t.live[i].stage == Finished(Seeded) ==> Owns(t.ring, i, t.live[i].gc)
    ensures t.live[i].stage == Finished(ByPeer) ==> Learnt(t.ring, i, t.stored[i], t.live[i].gc)
    ensures t.live[i].stage == Finished(Pending) ==>
              t.live[i].gc.rootUser == t.stored[i].rootUser && t.live[i].gc.rootPassword == t.stored[i].rootPassword
  {
    forall s, e | AllTell(s) && Honest(s, e)
      ensures AllTell(Step(s, e))
    {
      TellsStep(s, e);
    }
    RunKeeps(Step, Honest, AllTell, START, evs);
    assert Tells(i, t.live[i], t.stored[i], t.ring);
  }

  // --- the identity ---------------------------------------------------------------------------------

  /** An identity the node printed without an address is completed by the one peers dial: the
      advertised host and the RPC port read back from it. One with an address is kept. */
  lemma IdentityHasAddress(gc: Entry, answer: string)
    requires gc.advertiseHost != "" && PlainHost(gc.advertiseHost)
    ensures '@' in answer ==> NodeId(gc, answer) == answer
    ensures '@' !in answer ==>
              && Cut(NodeId(gc, answer), '@').before == answer
              && SplitHostPort(Cut(NodeId(gc, answer), '@').after) == Some(HostAndPort(gc.advertiseHost, Itoa(gc.rpcPort)))
  {
    var addr := JoinHostPort(gc.advertiseHost, Itoa(gc.rpcPort));
    if '@' !in answer {
      CutAt(answer, '@', addr);
      assert answer + ['@'] + addr == NodeId(gc, answer);
      Peers.DigitsArePlain(Itoa(gc.rpcPort));
      SplitOfJoinHostPort(gc.advertiseHost, Itoa(gc.rpcPort));
    }
  }
}
