/**
 A whole group settles: when every member of a set has completed one re-run, in any order and after
 any history, no further install of any of them, complete or failing, changes the ring.
 */
module GarageGroup {
  import opened Runs
  import opened Garage
  import opened GarageSafety
  import opened GarageRecovery
  import opened GarageAssembly

  /** One complete re-run: the install and the answers it gets. */
  datatype Round = Round(start: Event, evs: seq<Event>)

  ghost function After(s: State, r: Round): State {
    Run(Step, Step(s, r.start), r.evs)
  }

  /** The install is accepted while its replication factor is assigned, its node answers, and it
      runs to its final save. */
  ghost predicate Completed(node: Id -> string, s: State, r: Round) {
    var id := r.start.id;
    && r.start.Begin? && Honest(s, r.start) && id !in s.live && id in Step(s, r.start).live
    && |s.ring.roles| >= Step(s, r.start).live[id].gc.factor
    && AllOk(Step, (s, e) => ByItself(node, id, s, e), Step(s, r.start), r.evs)
    && id !in After(s, r).live
  }

  ghost predicate AllCompleted(node: Id -> string, s: State, rs: seq<Round>)
    decreases |rs|
  {
    rs == [] || (Completed(node, s, rs[0]) && AllCompleted(node, After(s, rs[0]), rs[1..]))
  }

  ghost function AfterAll(s: State, rs: seq<Round>): State
    decreases |rs|
  {
    if rs == [] then s else AfterAll(After(s, rs[0]), rs[1..])
  }

  function Members(rs: seq<Round>): set<Id> {
    if rs == [] then {} else {rs[0].start.id} + Members(rs[1..])
  }

  /** Different members are different nodes. */
  predicate DistinctNodes(node: Id -> string, who: set<Id>) {
    forall i, j :: i in who && j in who && i != j ==> node(i) != node(j)
  }

  ghost predicate GroupSettled(node: Id -> string, who: set<Id>, s: State) {
    && Inv(s)
    && forall i :: i in who ==> i !in s.live && i in s.stored && Settled(s.ring, node(i), s.stored[i], i.name)
  }

  // --- what one round does not touch --------------------------------------------------------------

  predicate RolesKept(before: Ring, after: Ring, node: string) {
    forall n :: n in before.roles && n != node ==> n in after.roles && after.roles[n] == before.roles[n]
  }

  predicate OnlyStages(ring: Ring, node: string) {
    forall n :: n in ring.staged ==> n == node
  }

  lemma FrameTurn(id: Id, w: Work, ring: Ring, reply: Reply, node: string)
    requires OnlyStages(ring, node) && (w.stage.Assign? ==> NodeKey(w.gc.nodeId) == node)
    ensures var r := Turn(id, w, ring, reply).0; OnlyStages(r, node) && RolesKept(ring, r, node)
    ensures var r := Turn(id, w, ring, reply).0; !w.stage.Assign? && ring.staged == map[] ==> r.staged == map[]
  {
    if w.stage.Assign? {
      AssignTurn(id, w, ring, reply);
    } else if w.stage.Apply? {
      assert Turn(id, w, ring, reply).0 in {ring, Committed(ring)};
    } else {
      LayoutStays(id, w, ring, reply);
    }
  }

  ghost predicate HasNoRole(id: Id, s: State) {
    if id in s.live then !HasRole(s.live[id].gc) else id in s.stored && !HasRole(s.stored[id])
  }

  /** What `id`, running by itself since `s`, left alone: other members' entries, and, if nothing
      was staged, other nodes' roles. */
  ghost predicate Framed(node: string, id: Id, s: State, t: State) {
    && (forall i :: i != id ==> (i in t.live <==> i in s.live))
    && (forall i :: i != id && i in s.stored ==> i in t.stored && t.stored[i] == s.stored[i])
    && (s.ring.staged == map[] ==>
          && OnlyStages(t.ring, node) && RolesKept(s.ring, t.ring, node)
          && (HasNoRole(id, t) ==> t.ring.staged == map[]))
  }

  lemma FramedTurn(node: Id -> string, id: Id, s: State, t: State, e: Event)
    requires AloneInv(node, id, t) && Framed(node(id), id, s, t) && e.Advance? && e.id == id
    requires id in t.live && !t.live[id].stage.Finished? && s.ring.staged == map[]
    ensures var u := Step(t, e);
            OnlyStages(u.ring, node(id)) && RolesKept(s.ring, u.ring, node(id)) && (HasNoRole(id, u) ==> u.ring.staged == map[])
  {
    FrameTurn(id, t.live[id], t.ring, e.reply, node(id));
    TurnEntry(id, t.live[id], t.ring, e.reply);
  }

  lemma FramedStep(node: Id -> string, id: Id, s: State, t: State, e: Event)
    requires AloneInv(node, id, t) && Framed(node(id), id, s, t) && ByItself(node, id, t, e)
    ensures Framed(node(id), id, s, Step(t, e))
  {
    if s.ring.staged == map[] && id in t.live && !t.live[id].stage.Finished? { FramedTurn(node, id, s, t, e); }
  }

  lemma {:induction false} FramedRun(node: Id -> string, id: Id, s: State, t: State, evs: seq<Event>)
    requires AloneInv(node, id, t) && Framed(node(id), id, s, t)
    requires AllOk(Step, (s, e) => ByItself(node, id, s, e), t, evs)
    ensures AloneInv(node, id, Run(Step, t, evs)) && Framed(node(id), id, s, Run(Step, t, evs))
    ensures Grows(t.ring, Run(Step, t, evs).ring)
    decreases |evs|
  {
    if evs != [] {
      AloneStep(node, id, t, evs[0]);
      FramedStep(node, id, s, t, evs[0]);
      StepKeeps(t, evs[0]);
      FramedRun(node, id, s, Step(t, evs[0]), evs[1..]);
    }
  }

  // --- one round after the other -------------------------------------------------------------------

  lemma StaysSettled(node: Id -> string, id: Id, s: State, t: State, i: Id)
    requires i != id && node(i) != node(id) && i in s.stored && i !in s.live
    requires Settled(s.ring, node(i), s.stored[i], i.name)
    requires Framed(node(id), id, s, t) && Grows(s.ring, t.ring)
    requires id in t.stored && id !in t.live && Settled(t.ring, node(id), t.stored[id], id.name)
    ensures i !in t.live && i in t.stored && Settled(t.ring, node(i), t.stored[i], i.name)
  {
    SeedingStays(s.ring, t.ring, i.name);
  }

  lemma RoundBegins(node: Id -> string, s: State, r: Round)
    requires Inv(s) && Completed(node, s, r)
    ensures var id, t := r.start.id, Step(s, r.start);
            t.ring == s.ring && AloneInv(node, id, t) && Framed(node(id), id, s, t)
  {
    StepKeeps(s, r.start);
  }

  lemma AllStaySettled(node: Id -> string, who: set<Id>, id: Id, s: State, t: State)
    requires GroupSettled(node, who, s) && Inv(t) && DistinctNodes(node, who + {id})
    requires Framed(node(id), id, s, t) && Grows(s.ring, t.ring)
    requires id in t.stored && id !in t.live && Settled(t.ring, node(id), t.stored[id], id.name)
    ensures GroupSettled(node, who + {id}, t)
  {
    forall i | i in who && i != id
      ensures i !in t.live && i in t.stored && Settled(t.ring, node(i), t.stored[i], i.name)
    {
      StaysSettled(node, id, s, t, i);
    }
  }

  lemma RoundSettles(node: Id -> string, who: set<Id>, s: State, r: Round)
    requires GroupSettled(node, who, s) && Completed(node, s, r) && DistinctNodes(node, who + {r.start.id})
    ensures GroupSettled(node, who + {r.start.id}, After(s, r))
  {
    RoundBegins(node, s, r);
    FramedRun(node, r.start.id, s, Step(s, r.start), r.evs);
    AllStaySettled(node, who, r.start.id, s, After(s, r));
  }

  lemma {:induction false} RoundsSettle(node: Id -> string, who: set<Id>, s: State, rs: seq<Round>)
    requires GroupSettled(node, who, s) && AllCompleted(node, s, rs) && DistinctNodes(node, who + Members(rs))
    ensures GroupSettled(node, who + Members(rs), AfterAll(s, rs))
    decreases |rs|
  {
    if rs == [] {
      assert who + Members(rs) == who;
    } else {
      RoundSettles(node, who, s, rs[0]);
      assert who + {rs[0].start.id} + Members(rs[1..]) == who + Members(rs);
      RoundsSettle(node, who + {rs[0].start.id}, After(s, rs[0]), rs[1..]);
    }
  }

  /** After any history: once each member of a group has completed one re-run, every interleaving of
      their further installs, complete or failing anywhere, leaves the ring exactly as it is. */
  lemma GroupIsIdempotent(node: Id -> string, history: seq<Event>, s: State, rs: seq<Round>, again: seq<Event>)
    requires Reaches(START, history, s)
    requires AllCompleted(node, s, rs) && DistinctNodes(node, Members(rs))
    requires AllOk(Step, (s, e) => Repeats(node, Members(rs), s, e), AfterAll(s, rs), again)
    ensures Quiet(node, Members(rs), AfterAll(s, rs))
    ensures Run(Step, AfterAll(s, rs), again).ring == AfterAll(s, rs).ring
  {
    ReachableInv(history, s);
    assert {} + Members(rs) == Members(rs);
    RoundsSettle(node, {}, s, rs);
    SettledRingStays(node, Members(rs), AfterAll(s, rs), again);
  }
}
