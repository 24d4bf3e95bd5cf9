/**
 "The last install seeds": members join one after the other, in any order and with any failures in
 between; each leaves its node staged or assigned, and the one whose node completes the
 replication factor commits the layout and seeds the cluster by itself.
 */
module GarageAssembly {
  import opened Lists
  import opened Runs
  import opened Garage
  import opened GarageSafety
  import opened GarageRecovery

  /** The nodes whose role the ring has been told, committed or not. */
  function Known(ring: Ring): set<string> {
    ring.roles.Keys + ring.staged.Keys
  }

  // --- what is known stays known -----------------------------------------------------------------

  lemma AssignedKnown(ring: Ring, node: string, role: Role)
    ensures Known(Assigned(ring, node, role)) == Known(ring) + {node}
  {
  }

  lemma CommittedKnown(ring: Ring)
    ensures Known(Committed(ring)) == Known(ring)
  {
  }

  /** Only assigning and committing touch the layout. */
  lemma LayoutStays(id: Id, w: Work, ring: Ring, reply: Reply)
    requires !w.stage.Assign? && !w.stage.Apply?
    ensures var r := Turn(id, w, ring, reply).0; r.roles == ring.roles && r.staged == ring.staged
  {
  }

  lemma AssignTurn(id: Id, w: Work, ring: Ring, reply: Reply)
    requires w.stage.Assign?
    ensures Turn(id, w, ring, reply).0 == Effect(reply, ring, Assigned(ring, NodeKey(w.gc.nodeId), RoleOf(w.gc)))
  {
  }

  lemma ApplyTurn(id: Id, w: Work, ring: Ring, reply: Reply)
    requires w.stage.Apply?
    ensures Known(Turn(id, w, ring, reply).0) == Known(ring)
  {
    CommittedKnown(ring);
    assert Turn(id, w, ring, reply).0 in {ring, Committed(ring)};
  }

  lemma TurnKnown(id: Id, w: Work, ring: Ring, reply: Reply)
    ensures Known(ring) <= Known(Turn(id, w, ring, reply).0)
    ensures w.stage.Assign? && (reply.Done? || reply.Lost?) ==>
              NodeKey(w.gc.nodeId) in Known(Turn(id, w, ring, reply).0)
  {
    if w.stage.Assign? {
      AssignTurn(id, w, ring, reply);
      AssignedKnown(ring, NodeKey(w.gc.nodeId), RoleOf(w.gc));
    } else if w.stage.Apply? {
      ApplyTurn(id, w, ring, reply);
    } else {
      LayoutStays(id, w, ring, reply);
    }
  }

  /** A node that was told stays staged or assigned through every interleaving and every failure. */
  lemma {:induction false} KnownStays(s: State, evs: seq<Event>)
    ensures Known(s.ring) <= Known(Run(Step, s, evs).ring)
    decreases |evs|
  {
    if evs != [] {
      StepKnown(s, evs[0]);
      KnownStays(Step(s, evs[0]), evs[1..]);
    }
  }

  /** In particular the node of a member whose role was staged once, even if its install was told
      to wait, failed, or was killed afterwards. */
  lemma StagedOnceIsKnown(s: State, id: Id, reply: Reply, evs: seq<Event>)
    requires id in s.live && s.live[id].stage.Assign? && (reply.Done? || reply.Lost?)
    ensures NodeKey(s.live[id].gc.nodeId) in Known(Run(Step, Step(s, Advance(id, reply)), evs).ring)
  {
    TurnKnown(id, s.live[id], s.ring, reply);
    KnownStays(Step(s, Advance(id, reply)), evs);
  }

  // --- the install that completes the replication factor -------------------------------------------

  predicate Completes(ring: Ring, node: string, factor: int) {
    |Known(ring) + {node}| >= factor
  }

  /** How an install comes to the seeding, whatever the other hosts do meanwhile. */
  ghost predicate Coming(node: string, w: Work, ring: Ring) {
    && (!w.stage.Identify? && !w.stage.Finished? ==> NodeKey(w.gc.nodeId) == node)
    && match w.stage
       case Identify => HasRole(w.gc) && Completes(ring, node, w.gc.factor)
       case Connect(_, _) => HasRole(w.gc) && Completes(ring, node, w.gc.factor)
       case Assign => HasRole(w.gc) && Completes(ring, node, w.gc.factor)
       case Show => |Known(ring)| >= w.gc.factor
       case Apply(_) => |Known(ring)| >= w.gc.factor
       case Finished(o) => (o.Seeded? || o.ByPeer?) && |ring.roles| >= w.gc.factor
       case _ => |ring.roles| >= w.gc.factor
  }

  lemma ComingBefore(id: Id, w: Work, ring: Ring, node: string, reply: Reply)
    requires Coming(node, w, ring) && Answers(w, ring, id.name, reply) && (w.stage.Identify? || w.stage.Connect?)
    requires reply.Node? ==> NodeKey(reply.text) == node
    ensures var (r, v) := Turn(id, w, ring, reply); Coming(node, v, r)
  {
    if w.stage.Identify? { NodeKeyOfNodeId(w.gc, reply.text); }
  }

  lemma ComingAssign(id: Id, w: Work, ring: Ring, node: string, reply: Reply)
    requires Coming(node, w, ring) && Answers(w, ring, id.name, reply) && w.stage.Assign?
    ensures var (r, v) := Turn(id, w, ring, reply); Coming(node, v, r)
  {
    TurnKnown(id, w, ring, reply);
    SubsetSize(Known(ring) + {node}, Known(Turn(id, w, ring, reply).0));
  }

  lemma ComingApply(id: Id, w: Work, ring: Ring, node: string, reply: Reply)
    requires Coming(node, w, ring) && Answers(w, ring, id.name, reply) && (w.stage.Show? || w.stage.Apply?)
    ensures var (r, v) := Turn(id, w, ring, reply); Coming(node, v, r)
  {
    if w.stage.Show? {
      assert ring.staged == map[] ==> Known(ring) == ring.roles.Keys;
    } else {
      assert EnoughToCommit(ring, w.gc.factor);
      assert Committed(ring).roles.Keys == Known(ring);
    }
  }

  lemma ComingAfter(id: Id, w: Work, ring: Ring, node: string, reply: Reply)
    requires Coming(node, w, ring) && Answers(w, ring, id.name, reply)
    requires w.stage.Count? || w.stage.Seed? || w.stage.MakeBucket? || w.stage.Allow?
    ensures var (r, v) := Turn(id, w, ring, reply); Coming(node, v, r)
  {
    TurnEntry(id, w, ring, reply);
    var (r, v) := Turn(id, w, ring, reply);
    assert r.roles == ring.roles && v.gc.nodeId == w.gc.nodeId;
  }

  lemma ComingTurn(id: Id, w: Work, ring: Ring, node: string, reply: Reply)
    requires Coming(node, w, ring) && Answers(w, ring, id.name, reply) && !w.stage.Finished?
    requires reply.Node? ==> NodeKey(reply.text) == node
    ensures var (r, v) := Turn(id, w, ring, reply); Coming(node, v, r)
  {
    match w.stage
    case Identify => ComingBefore(id, w, ring, node, reply);
    case Connect(_, _) => ComingBefore(id, w, ring, node, reply);
    case Assign => ComingAssign(id, w, ring, node, reply);
    case Show => ComingApply(id, w, ring, node, reply);
    case Apply(_) => ComingApply(id, w, ring, node, reply);
    case _ => ComingAfter(id, w, ring, node, reply);
  }

  /** What the install relies on stays true when the ring only learns more. */
  lemma ComingStays(node: string, w: Work, before: Ring, after: Ring)
    requires Coming(node, w, before) && Known(before) <= Known(after) && before.roles.Keys <= after.roles.Keys
    ensures Coming(node, w, after)
  {
    SubsetSize(Known(before), Known(after));
    SubsetSize(Known(before) + {node}, Known(after) + {node});
    RolesGrow(before, after);
  }

  ghost predicate ComingInv(node: Id -> string, id: Id, s: State) {
    && Inv(s)
    && if id in s.live then Coming(node(id), s.live[id], s.ring)
       else id in s.stored && |s.ring.roles| >= s.stored[id].factor && IsSeeded(s.ring, id.name)
  }

  /** The other hosts do as they like; `id`'s install is answered, and its node keeps its identity. */
  ghost predicate Answered(node: Id -> string, id: Id, s: State, e: Event) {
    && Obliging(id, s, e)
    && (e.id == id && e.reply.Node? ==> NodeKey(e.reply.text) == node(id))
  }

  lemma OwnComing(node: Id -> string, id: Id, s: State, e: Event)
    requires ComingInv(node, id, s) && Answered(node, id, s, e) && e.id == id && id in s.live
    ensures ComingInv(node, id, Step(s, e)) && Remaining(Step(s, e), id) < Remaining(s, id)
  {
    StepKeeps(s, e);
    assert WorkOk(id, s.live[id], s.ring);
    if !s.live[id].stage.Finished? {
      ComingTurn(id, s.live[id], s.ring, node(id), e.reply);
      RankDrops(id, s.live[id], s.ring, e.reply);
    }
  }

  /** A step of another host, or one that meets no running install, leaves this one's entry. */
  lemma OthersLeave(id: Id, s: State, e: Event)
    requires e.id != id || (id !in s.live && e.Advance?)
    ensures var t := Step(s, e);
            && (id in t.live <==> id in s.live) && (id in s.live ==> t.live[id] == s.live[id])
            && (id in s.stored ==> id in t.stored && t.stored[id] == s.stored[id])
  {
  }

  lemma StepKnown(s: State, e: Event)
    ensures Known(s.ring) <= Known(Step(s, e).ring)
  {
    if e.Advance? && e.id in s.live { TurnKnown(e.id, s.live[e.id], s.ring, e.reply); }
  }

  lemma OthersComing(node: Id -> string, id: Id, s: State, e: Event)
    requires ComingInv(node, id, s) && Answered(node, id, s, e) && (e.id != id || id !in s.live)
    ensures ComingInv(node, id, Step(s, e)) && Remaining(Step(s, e), id) == Remaining(s, id)
  {
    StepKeeps(s, e);
    OthersLeave(id, s, e);
    StepKnown(s, e);
    var after := Step(s, e).ring;
    if id in s.live {
      ComingStays(node(id), s.live[id], s.ring, after);
    } else {
      SeedingStays(s.ring, after, id.name);
      RolesGrow(s.ring, after);
    }
  }

  lemma {:induction false} ComingRun(node: Id -> string, id: Id, s: State, evs: seq<Event>)
    requires ComingInv(node, id, s) && AllOk(Step, (s, e) => Answered(node, id, s, e), s, evs)
    requires Turns(evs, id) >= Remaining(s, id)
    ensures ComingInv(node, id, Run(Step, s, evs)) && id !in Run(Step, s, evs).live
    decreases |evs|
  {
    if evs != [] {
      if evs[0].id == id && id in s.live { OwnComing(node, id, s, evs[0]); } else { OthersComing(node, id, s, evs[0]); }
      ComingRun(node, id, Step(s, evs[0]), evs[1..]);
    }
  }

  /** After any history, an accepted install with a role whose node brings the known nodes to the
      replication factor, and whose node answers, finishes in a bounded number of turns with the
      layout committed and key, bucket and grant in the ring, even while other hosts install and
      fail at the same time: no earlier member has to be run again. */
  lemma LastInstallSeeds(node: Id -> string, history: seq<Event>, s: State, start: Event, evs: seq<Event>)
    requires Reaches(START, history, s)
    requires start.Begin? && Honest(s, start) && start.id !in s.live && start.id in Step(s, start).live
    requires var gc := Step(s, start).live[start.id].gc;
             HasRole(gc) && Completes(s.ring, node(start.id), gc.factor)
    requires AllOk(Step, (s, e) => Answered(node, start.id, s, e), Step(s, start), evs)
    requires Turns(evs, start.id) >= 9 + |Step(s, start).live[start.id].gc.peers|
    ensures var t := Run(Step, Step(s, start), evs);
            && start.id !in t.live && start.id in t.stored
            && |t.ring.roles| >= t.stored[start.id].factor && IsSeeded(t.ring, start.id.name)
  {
    ReachableInv(history, s);
    StepKeeps(s, start);
    ComingRun(node, start.id, Step(s, start), evs);
  }
}
