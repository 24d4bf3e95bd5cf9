/**
 "Run the same install again": once enough nodes are in the layout, whatever earlier installs
 failed at, one install that is answered to its end leaves key, bucket and grant; and when that is
 so, installs change nothing more.
 */
module GarageRecovery {
  import opened Lists
  import opened Runs
  import opened Garage
  import opened GarageSafety

  // --- an install that is answered ---------------------------------------------------------------

  /** The node does what it is asked, sees every node of the layout as healthy, and the layout
      version is still the one the host read. */
  ghost predicate Answers(w: Work, ring: Ring, name: string, reply: Reply) {
    match w.stage
    case Identify => reply.Node? && reply.text != ""
    case Apply(version) => reply.Done? && version == ring.version
    case Count => reply == Healthy(|ring.roles|)
    case Seed(_) => if KeyIdByName(ring.minted, name) == "" then reply.Minted? else reply.Done?
    case Finished(_) => true
    case _ => reply.Done?
  }

  /** The other hosts do as they like; `id`'s install is neither killed nor left unanswered. */
  ghost predicate Obliging(id: Id, s: State, e: Event) {
    && Honest(s, e)
    && (e.id == id ==> e.Advance? && (id in s.live ==> Answers(s.live[id], s.ring, id.name, e.reply)))
  }

  function Rank(w: Work): nat {
    match w.stage
    case Identify => 8 + |w.gc.peers|
    case Connect(_, rest) => 8 + |rest|
    case Assign => 7
    case Show => 6
    case Apply(_) => 5
    case Count => 4
    case Seed(_) => 3
    case MakeBucket(_, _) => 2
    case Allow(_, _) => 1
    case Finished(_) => 0
  }

  function Remaining(s: State, id: Id): nat {
    if id in s.live then Rank(s.live[id]) + 1 else 0
  }

  function Turns(evs: seq<Event>, id: Id): nat {
    if evs == [] then 0 else (if evs[0].Advance? && evs[0].id == id then 1 else 0) + Turns(evs[1..], id)
  }

  ghost predicate OnTrack(id: Id, s: State) {
    && Inv(s)
    && if id in s.live then
         && |s.ring.roles| >= s.live[id].gc.factor
         && s.live[id].stage != Finished(Failed) && s.live[id].stage != Finished(Pending)
       else id in s.stored && IsSeeded(s.ring, id.name)
  }

  lemma {:induction false} OthersShorter(peers: seq<string>, self: string)
    ensures |Others(peers, self)| <= |peers|
  {
    if peers != [] { OthersShorter(peers[1..], self); }
  }

  /** Every turn, answered or not, brings an install closer to its end. */
  lemma RankDrops(id: Id, w: Work, ring: Ring, reply: Reply)
    requires !w.stage.Finished?
    ensures Rank(Turn(id, w, ring, reply).1) < Rank(w)
  {
    if w.stage.Identify? && reply.Node? {
      OthersShorter(w.gc.peers, NodeId(w.gc, reply.text));
    }
  }

  lemma AnsweredTurn(id: Id, w: Work, ring: Ring, reply: Reply)
    requires !w.stage.Finished? && Answers(w, ring, id.name, reply) && |ring.roles| >= w.gc.factor
    ensures var v := Turn(id, w, ring, reply).1; v.stage != Finished(Failed) && v.stage != Finished(Pending)
  {
  }

  lemma OwnTurn(id: Id, s: State, e: Event)
    requires OnTrack(id, s) && Obliging(id, s, e) && id in s.live && e.id == id
    ensures OnTrack(id, Step(s, e)) && Remaining(Step(s, e), id) < Remaining(s, id)
  {
    StepKeeps(s, e);
    RolesGrow(s.ring, Step(s, e).ring);
    assert WorkOk(id, s.live[id], s.ring);
    if !s.live[id].stage.Finished? {
      AnsweredTurn(id, s.live[id], s.ring, e.reply);
      RankDrops(id, s.live[id], s.ring, e.reply);
      TurnEntry(id, s.live[id], s.ring, e.reply);
    }
  }

  lemma OthersTurn(id: Id, s: State, e: Event)
    requires OnTrack(id, s) && Obliging(id, s, e) && (id !in s.live || e.id != id)
    ensures OnTrack(id, Step(s, e)) && Remaining(Step(s, e), id) == Remaining(s, id)
  {
    StepKeeps(s, e);
    RolesGrow(s.ring, Step(s, e).ring);
    if id !in s.live { SeedingStays(s.ring, Step(s, e).ring, id.name); }
  }

  lemma StaysOnTrack(id: Id, s: State, e: Event)
    requires OnTrack(id, s) && Obliging(id, s, e)
    ensures OnTrack(id, Step(s, e))
    ensures Remaining(Step(s, e), id) <= Remaining(s, id)
    ensures e.id == id && id in s.live ==> Remaining(Step(s, e), id) < Remaining(s, id)
  {
    if e.id == id && id in s.live { OwnTurn(id, s, e); } else { OthersTurn(id, s, e); }
  }

  lemma {:induction false} AnsweredToTheEnd(id: Id, s: State, evs: seq<Event>)
    requires OnTrack(id, s) && AllOk(Step, (s, e) => Obliging(id, s, e), s, evs)
    requires Turns(evs, id) >= Remaining(s, id)
    ensures OnTrack(id, Run(Step, s, evs)) && id !in Run(Step, s, evs).live
    decreases |evs|
  {
    if evs != [] {
      StaysOnTrack(id, s, evs[0]);
      AnsweredToTheEnd(id, Step(s, evs[0]), evs[1..]);
    }
  }

  /** Recovery. After any history of installs and failures on any hosts, a host whose install is
      accepted while its replication factor is assigned, and whose node then answers, finishes in
      a bounded number of turns with key, bucket and grant in the ring, even while other hosts
      install (and fail) at the same time. */
  lemma RerunRecovers(history: seq<Event>, s: State, start: Event, evs: seq<Event>)
    requires Reaches(START, history, s)
    requires start.Begin? && Honest(s, start) && start.id !in s.live && start.id in Step(s, start).live
    requires |s.ring.roles| >= Step(s, start).live[start.id].gc.factor
    requires AllOk(Step, (s, e) => Obliging(start.id, s, e), Step(s, start), evs)
    requires Turns(evs, start.id) >= 9 + |Step(s, start).live[start.id].gc.peers|
    ensures var t := Run(Step, Step(s, start), evs);
            start.id !in t.live && start.id in t.stored && IsSeeded(t.ring, start.id.name)
  {
    ReachableInv(history, s);
    StepKeeps(s, start);
    AnsweredToTheEnd(start.id, Step(s, start), evs);
  }

  // --- when nothing is left to do -----------------------------------------------------------------

  /** The ring is as this member's install would leave it. */
  ghost predicate Settled(ring: Ring, node: string, gc: Entry, name: string) {
    && (HasRole(gc) ==> ring.staged == map[] && node in ring.roles && ring.roles[node] == RoleOf(gc))
    && IsSeeded(ring, name)
  }

  ghost predicate WorkSettled(ring: Ring, node: string, w: Work, name: string) {
    && Settled(ring, node, w.gc, name)
    && (!w.stage.Identify? && !w.stage.Finished? ==> NodeKey(w.gc.nodeId) == node)
    && (w.stage.Assign? || w.stage.Show? ==> HasRole(w.gc))
    && !w.stage.Apply?
  }

  /** Everyone in `who` is settled, and each keeps its node identity. */
  ghost predicate Quiet(node: Id -> string, who: set<Id>, s: State) {
    && Inv(s)
    && (forall i :: i in who ==> i in s.stored && Settled(s.ring, node(i), s.stored[i], i.name))
    && (forall i :: i in who && i in s.live ==> WorkSettled(s.ring, node(i), s.live[i], i.name))
  }

  /** Members of `who` run installs that repeat their zone and capacity, or leave them out; the
      nodes answer anything or fail, but a node keeps its identity. */
  ghost predicate Repeats(node: Id -> string, who: set<Id>, s: State, e: Event) {
    && Honest(s, e) && e.id in who
    && (e.Begin? ==>
          var gc := StoredOrNew(s, e.id);
          e.flags.zone in {"", gc.zone} && e.flags.capacity in {0, gc.capacity})
    && (e.Advance? && e.reply.Node? ==> NodeKey(e.reply.text) == node(e.id))
  }

  lemma NodeKeyOfNodeId(gc: Entry, answer: string)
    ensures NodeKey(NodeId(gc, answer)) == NodeKey(answer)
  {
    if '@' !in answer && PublicAddr(gc) != "" {
      Text.CutAt(answer, '@', PublicAddr(gc));
      assert answer + ['@'] + PublicAddr(gc) == NodeId(gc, answer);
    }
  }

  lemma OneId(ring: Ring, name: string, a: string, b: string)
    requires OneKeyPerName(ring) && HasKey(ring, name, a) && HasKey(ring, name, b)
    ensures a == b
  {
  }

  lemma SettledReading(id: Id, w: Work, ring: Ring, node: string, reply: Reply)
    requires WorkSettled(ring, node, w, id.name) && (reply.Node? ==> NodeKey(reply.text) == node)
    requires w.stage.Identify? || w.stage.Connect? || w.stage.Show? || w.stage.Count? || w.stage.Finished?
    ensures Turn(id, w, ring, reply).0 == ring && WorkSettled(ring, node, Turn(id, w, ring, reply).1, id.name)
  {
    if w.stage.Identify? && reply.Node? { NodeKeyOfNodeId(w.gc, reply.text); }
  }

  lemma SettledAssign(id: Id, w: Work, ring: Ring, node: string, reply: Reply)
    requires WorkSettled(ring, node, w, id.name) && w.stage.Assign?
    ensures Turn(id, w, ring, reply).0 == ring && WorkSettled(ring, node, Turn(id, w, ring, reply).1, id.name)
  {
    assert Assigned(ring, node, RoleOf(w.gc)) == ring;
  }

  lemma SettledSeed(id: Id, w: Work, ring: Ring, node: string, reply: Reply)
    requires RingOk(ring) && WorkSettled(ring, node, w, id.name) && w.stage.Seed?
    ensures Turn(id, w, ring, reply).0 == ring && WorkSettled(ring, node, Turn(id, w, ring, reply).1, id.name)
  {
    assert KeyIdByName(ring.minted, id.name) != "";
  }

  lemma SettledGrant(id: Id, w: Work, ring: Ring, node: string, reply: Reply)
    requires RingOk(ring) && WorkOk(id, w, ring) && WorkSettled(ring, node, w, id.name)
    requires w.stage.MakeBucket? || w.stage.Allow?
    ensures Turn(id, w, ring, reply).0 == ring && WorkSettled(ring, node, Turn(id, w, ring, reply).1, id.name)
  {
    var key :| HasKey(ring, id.name, key) && Grant(id.name, key) in ring.grants;
    OneId(ring, id.name, w.stage.key, key);
    assert ring.buckets + {id.name} == ring.buckets;
    assert ring.grants + {Grant(id.name, key)} == ring.grants;
  }

  lemma SettledTurn(id: Id, w: Work, ring: Ring, node: string, reply: Reply)
    requires RingOk(ring) && WorkOk(id, w, ring) && WorkSettled(ring, node, w, id.name)
    requires reply.Node? ==> NodeKey(reply.text) == node
    ensures Turn(id, w, ring, reply).0 == ring
    ensures WorkSettled(ring, node, Turn(id, w, ring, reply).1, id.name)
  {
    match w.stage
    case Assign => SettledAssign(id, w, ring, node, reply);
    case Seed(_) => SettledSeed(id, w, ring, node, reply);
    case MakeBucket(_, _) => SettledGrant(id, w, ring, node, reply);
    case Allow(_, _) => SettledGrant(id, w, ring, node, reply);
    case _ => SettledReading(id, w, ring, node, reply);
  }

  lemma SettledInstall(ring: Ring, node: string, gc: Entry, name: string, f: Flags, creates: bool, c: Chosen)
    requires Settled(ring, node, gc, name) && Merged(gc, f).Some?
    requires f.zone in {"", gc.zone} && f.capacity in {0, gc.capacity}
    ensures Settled(ring, node, Prepared(Merged(gc, f).value, creates, c), name)
  {
  }

  lemma QuietBegin(node: Id -> string, who: set<Id>, s: State, e: Event)
    requires Quiet(node, who, s) && Repeats(node, who, s, e) && e.Begin?
    ensures Quiet(node, who, Step(s, e)) && Step(s, e).ring == s.ring
  {
    StepKeeps(s, e);
    if e.id !in s.live && Merged(s.stored[e.id], e.flags).Some? {
      SettledInstall(s.ring, node(e.id), s.stored[e.id], e.id.name, e.flags, e.creates, e.chosen);
    }
  }

  lemma QuietAdvance(node: Id -> string, who: set<Id>, s: State, e: Event)
    requires Quiet(node, who, s) && Repeats(node, who, s, e) && e.Advance?
    ensures Quiet(node, who, Step(s, e)) && Step(s, e).ring == s.ring
  {
    StepKeeps(s, e);
    if e.id in s.live && !s.live[e.id].stage.Finished? {
      SettledTurn(e.id, s.live[e.id], s.ring, node(e.id), e.reply);
    }
  }

  lemma QuietStep(node: Id -> string, who: set<Id>, s: State, e: Event)
    requires Quiet(node, who, s) && Repeats(node, who, s, e)
    ensures Quiet(node, who, Step(s, e)) && Step(s, e).ring == s.ring
  {
    match e
    case Begin(_, _, _, _) => QuietBegin(node, who, s, e);
    case Advance(_, _) => QuietAdvance(node, who, s, e);
    case Kill(_) =>
  }

  /** Once a set of members is settled, no interleaving of their installs, complete or failing,
      changes the ring at all. */
  lemma {:induction false} SettledRingStays(node: Id -> string, who: set<Id>, s: State, evs: seq<Event>)
    requires Quiet(node, who, s) && AllOk(Step, (s, e) => Repeats(node, who, s, e), s, evs)
    ensures Run(Step, s, evs).ring == s.ring
    decreases |evs|
  {
    if evs != [] {
      QuietStep(node, who, s, evs[0]);
      SettledRingStays(node, who, Step(s, evs[0]), evs[1..]);
    }
  }

  // --- and how it comes to that --------------------------------------------------------------------

  ghost predicate RoleWritten(ring: Ring, node: string, role: Role) {
    if node in ring.staged then ring.staged[node] == role else node in ring.roles && ring.roles[node] == role
  }

  /** How far an install that has the ring to itself has brought the layout. */
  ghost predicate Alone(node: string, w: Work, ring: Ring) {
    && |ring.roles| >= w.gc.factor
    && (!w.stage.Identify? ==> NodeKey(w.gc.nodeId) == node)
    && match w.stage
       case Identify => true
       case Connect(_, _) => true
       case Assign => HasRole(w.gc)
       case Show => HasRole(w.gc) && RoleWritten(ring, node, RoleOf(w.gc))
       case Apply(version) => HasRole(w.gc) && RoleWritten(ring, node, RoleOf(w.gc)) && version == ring.version
       case _ => HasRole(w.gc) ==> ring.staged == map[] && node in ring.roles && ring.roles[node] == RoleOf(w.gc)
  }

  lemma AloneLayout(id: Id, w: Work, ring: Ring, node: string, reply: Reply)
    requires Alone(node, w, ring) && Answers(w, ring, id.name, reply) && (w.stage.Assign? || w.stage.Show?)
    ensures var (r, v) := Turn(id, w, ring, reply); Alone(node, v, r)
  {
    var r := Turn(id, w, ring, reply).0;
    assert r.roles == ring.roles;
  }

  lemma AloneApply(id: Id, w: Work, ring: Ring, node: string, reply: Reply)
    requires Alone(node, w, ring) && Answers(w, ring, id.name, reply) && w.stage.Apply?
    ensures var (r, v) := Turn(id, w, ring, reply); Alone(node, v, r)
  {
    SubsetSize(ring.roles.Keys, ring.roles.Keys + ring.staged.Keys);
    assert EnoughToCommit(ring, w.gc.factor);
    RolesGrow(ring, Committed(ring));
  }

  lemma AloneAfter(id: Id, w: Work, ring: Ring, node: string, reply: Reply)
    requires Alone(node, w, ring) && Answers(w, ring, id.name, reply)
    requires w.stage.Count? || w.stage.Seed? || w.stage.MakeBucket? || w.stage.Allow? || w.stage.Finished?
    ensures var (r, v) := Turn(id, w, ring, reply); Alone(node, v, r)
  {
    TurnEntry(id, w, ring, reply);
    var (r, v) := Turn(id, w, ring, reply);
    assert r.roles == ring.roles && r.staged == ring.staged && v.gc.nodeId == w.gc.nodeId;
  }

  lemma AloneBefore(id: Id, w: Work, ring: Ring, node: string, reply: Reply)
    requires Alone(node, w, ring) && Answers(w, ring, id.name, reply) && (w.stage.Identify? || w.stage.Connect?)
    requires reply.Node? ==> NodeKey(reply.text) == node
    ensures var (r, v) := Turn(id, w, ring, reply); r == ring && |ring.roles| >= v.gc.factor && NodeKey(v.gc.nodeId) == node
    ensures var (r, v) := Turn(id, w, ring, reply); v.stage.Connect? || (v.stage.Assign? && HasRole(v.gc)) || (v.stage.Count? && !HasRole(v.gc))
  {
    if w.stage.Identify? { NodeKeyOfNodeId(w.gc, reply.text); }
  }

  lemma AloneTurn(id: Id, w: Work, ring: Ring, node: string, reply: Reply)
    requires Alone(node, w, ring) && Answers(w, ring, id.name, reply)
    requires reply.Node? ==> NodeKey(reply.text) == node
    ensures var (r, v) := Turn(id, w, ring, reply); Alone(node, v, r)
  {
    match w.stage
    case Identify => AloneBefore(id, w, ring, node, reply);
    case Connect(_, _) => AloneBefore(id, w, ring, node, reply);
    case Assign => AloneLayout(id, w, ring, node, reply);
    case Show => AloneLayout(id, w, ring, node, reply);
    case Apply(_) => AloneApply(id, w, ring, node, reply);
    case _ => AloneAfter(id, w, ring, node, reply);
  }

  ghost predicate ByItself(node: Id -> string, id: Id, s: State, e: Event) {
    && Obliging(id, s, e) && e.id == id
    && (e.reply.Node? ==> NodeKey(e.reply.text) == node(id))
  }

  ghost predicate AloneInv(node: Id -> string, id: Id, s: State) {
    && OnTrack(id, s)
    && if id in s.live then Alone(node(id), s.live[id], s.ring)
       else Settled(s.ring, node(id), s.stored[id], id.name)
  }

  lemma AloneStep(node: Id -> string, id: Id, s: State, e: Event)
    requires AloneInv(node, id, s) && ByItself(node, id, s, e)
    ensures AloneInv(node, id, Step(s, e))
  {
    StaysOnTrack(id, s, e);
    StepKeeps(s, e);
    if id in s.live && !s.live[id].stage.Finished? {
      AloneTurn(id, s.live[id], s.ring, node(id), e.reply);
    }
  }

  /** A complete re-run settles its member, so every further install of it, answered or failing,
      leaves the ring exactly as it is. */
  lemma RerunIsIdempotent(node: Id -> string, s: State, id: Id, first: seq<Event>, again: seq<Event>)
    requires Inv(s) && id in s.live && s.live[id].stage.Identify? && |s.ring.roles| >= s.live[id].gc.factor
    requires AllOk(Step, (s, e) => ByItself(node, id, s, e), s, first)
    requires id !in Run(Step, s, first).live
    requires AllOk(Step, (s, e) => Repeats(node, {id}, s, e), Run(Step, s, first), again)
    ensures Run(Step, Run(Step, s, first), again).ring == Run(Step, s, first).ring
  {
    var ok, inv := (s, e) => ByItself(node, id, s, e), s => AloneInv(node, id, s);
    forall s, e | inv(s) && ok(s, e)
      ensures inv(Step(s, e))
    {
      AloneStep(node, id, s, e);
    }
    RunKeeps(Step, ok, inv, s, first);
    SettledRingStays(node, {id}, Run(Step, s, first), again);
  }
}
