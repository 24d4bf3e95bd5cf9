/**
 What a Garage member's stored entry keeps: its cluster, its shared RPC secret, its peers, and an
 identity that other hosts can dial.
 */
module GarageIdentity {
  import opened Lists
  import opened Runs
  import opened Garage
  import opened GarageSafety

  // --- merging peers --------------------------------------------------------------------------

  /** The stored peers come first and in place, the set is the union, and nothing is added twice. */
  lemma {:induction false} PeersMerge(existing: seq<string>, added: seq<string>)
    ensures existing <= AppendPeers(existing, added)
    ensures ToSet(AppendPeers(existing, added)) == ToSet(existing) + ToSet(added)
    ensures Distinct(existing) ==> Distinct(AppendPeers(existing, added))
  {
    if added != [] {
      var init, last := added[..|added| - 1], added[|added| - 1];
      PeersMerge(existing, init);
      TakeNext(added, |added| - 1);
      TakeAll(added);
      ToSetSnoc(init, last);
      var out := AppendPeers(existing, init);
      assert last in out <==> last in ToSet(out);
      ToSetSnoc(out, last);
    }
  }

  /** Passing the same peers again adds nothing. */
  lemma {:induction false} PeersMergeAgain(existing: seq<string>, added: seq<string>)
    requires ToSet(added) <= ToSet(existing)
    ensures AppendPeers(existing, added) == existing
  {
    if added != [] {
      var init, last := added[..|added| - 1], added[|added| - 1];
      TakeNext(added, |added| - 1);
      TakeAll(added);
      ToSetSnoc(init, last);
      PeersMergeAgain(existing, init);
      assert last in ToSet(added) && last in ToSet(existing);
    }
  }

  // --- the role of an install -------------------------------------------------------------------

  datatype InstallRole = Single | Bootstrap | Join

  /** `garageInstallRole`. */
  function RoleOfInstall(cluster: string, peers: seq<string>): InstallRole {
    if cluster == "" then Single else if |peers| > 0 then Join else Bootstrap
  }

  predicate RoleReached(a: InstallRole, b: InstallRole) {
    a == b || a.Single? || b.Join?
  }

  // --- over whole runs ------------------------------------------------------------------------------

  /** What may not change between two stored forms of one member. */
  ghost predicate Continues(a: Entry, b: Entry) {
    && (a.cluster != "" ==> b.cluster == a.cluster)
    && (a.rpcSecret != "" ==> b.rpcSecret == a.rpcSecret)
    && a.peers <= b.peers
    && RoleReached(RoleOfInstall(a.cluster, a.peers), RoleOfInstall(b.cluster, b.peers))
  }

  ghost predicate Dialable(gc: Entry) {
    gc.nodeId == "" || '@' in gc.nodeId
  }

  /** What is known of every stored entry. */
  ghost predicate EntryOk(gc: Entry) {
    && (gc.cluster != "" ==> gc.advertiseHost != "")
    && (gc.cluster != "" && gc.peers != [] ==> gc.rpcSecret != "")
    && Dialable(gc)
  }

  ghost predicate SameMember(a: Entry, b: Entry) {
    && a.cluster == b.cluster && a.rpcSecret == b.rpcSecret && a.peers == b.peers
  }

  ghost predicate IdentityInv(s: State) {
    && (forall i :: i in s.stored ==> EntryOk(s.stored[i]))
    && (forall i :: i in s.live ==> i in s.stored && EntryOk(s.live[i].gc) && SameMember(s.live[i].gc, s.stored[i]))
    && (forall i :: i in s.live ==> s.live[i].gc.cluster != "")
  }

  lemma PrepareContinues(gc: Entry, f: Flags, creates: bool, c: Chosen)
    requires EntryOk(gc) && Merged(gc, f).Some?
    ensures EntryOk(Prepared(Merged(gc, f).value, creates, c)) && Continues(gc, Prepared(Merged(gc, f).value, creates, c))
  {
    PeersMerge(gc.peers, f.peers);
    var merged := Merged(gc, f).value;
    assert f.peers == [] ==> AppendPeers(gc.peers, f.peers) == gc.peers;
  }

  lemma TurnDialable(id: Id, w: Work, ring: Ring, reply: Reply)
    requires EntryOk(w.gc) && w.gc.cluster != ""
    ensures EntryOk(Turn(id, w, ring, reply).1.gc) && SameMember(w.gc, Turn(id, w, ring, reply).1.gc)
  {
    TurnEntry(id, w, ring, reply);
    if w.stage.Identify? && reply.Node? {
      assert PublicAddr(w.gc) != "";
      var text := NodeId(w.gc, reply.text);
      if '@' !in reply.text {
        assert text[|reply.text|] == '@';
      }
    }
  }

  ghost predicate Kept(s: State, t: State) {
    IdentityInv(t) && forall i :: i in s.stored ==> i in t.stored && Continues(s.stored[i], t.stored[i])
  }

  lemma StoredInv(s: State, id: Id, gc: Entry, live: map<Id, Work>)
    requires IdentityInv(s) && EntryOk(gc)
    requires forall i :: i in live && i != id ==> i in s.live && live[i] == s.live[i]
    requires id in live ==> live[id].gc == gc && gc.cluster != ""
    ensures IdentityInv(s.(stored := s.stored[id := gc], live := live))
  {
    var t := s.(stored := s.stored[id := gc], live := live);
    forall i | i in t.live
      ensures i in t.stored && EntryOk(t.live[i].gc) && SameMember(t.live[i].gc, t.stored[i]) && t.live[i].gc.cluster != ""
    {
      assert i != id ==> i in s.live && t.live[i] == s.live[i] && t.stored[i] == s.stored[i];
    }
  }

  lemma Stored(s: State, id: Id, gc: Entry, live: map<Id, Work>)
    requires IdentityInv(s) && EntryOk(gc) && Continues(StoredOrNew(s, id), gc)
    requires forall i :: i in live && i != id ==> i in s.live && live[i] == s.live[i]
    requires id in live ==> live[id].gc == gc && gc.cluster != ""
    ensures Kept(s, s.(stored := s.stored[id := gc], live := live))
  {
    StoredInv(s, id, gc, live);
  }

  lemma Worked(s: State, id: Id, ring: Ring, w: Work)
    requires IdentityInv(s) && id in s.live && EntryOk(w.gc) && SameMember(s.live[id].gc, w.gc)
    ensures Kept(s, s.(ring := ring, live := s.live[id := w]))
  {
  }

  lemma BeginStep(s: State, e: Event)
    requires IdentityInv(s) && e.Begin?
    ensures Kept(s, Step(s, e))
  {
    var merged := Merged(StoredOrNew(s, e.id), e.flags);
    if e.id !in s.live && merged.Some? {
      PrepareContinues(StoredOrNew(s, e.id), e.flags, e.creates, e.chosen);
      var gc := Prepared(merged.value, e.creates, e.chosen);
      Stored(s, e.id, gc, if gc.cluster == "" then s.live else s.live[e.id := Work(Identify, gc, [])]);
    }
  }

  lemma AdvanceStep(s: State, e: Event)
    requires IdentityInv(s) && e.Advance?
    ensures Kept(s, Step(s, e))
  {
    if e.id in s.live {
      if s.live[e.id].stage.Finished? {
        Stored(s, e.id, s.live[e.id].gc, s.live - {e.id});
      } else {
        TurnDialable(e.id, s.live[e.id], s.ring, e.reply);
        var (ring, w) := Turn(e.id, s.live[e.id], s.ring, e.reply);
        Worked(s, e.id, ring, w);
      }
    }
  }

  lemma IdentityStep(s: State, e: Event)
    requires IdentityInv(s)
    ensures Kept(s, Step(s, e))
  {
    match e
    case Begin(_, _, _, _) => BeginStep(s, e);
    case Advance(_, _) => AdvanceStep(s, e);
    case Kill(_) =>
  }

  lemma ContinuesOn(a: Entry, b: Entry, c: Entry)
    requires Continues(a, b) && Continues(b, c)
    ensures Continues(a, c)
  {
  }

  /** From any reachable state on, whatever the hosts are asked and however their nodes answer: a
      member's cluster name and RPC secret are fixed once set, its peers are only added to, its
      role only moves from single-node to bootstrap to join, and the identity it stores can always
      be dialled. */
  lemma {:induction false} IdentityFixed(s: State, evs: seq<Event>)
    requires IdentityInv(s)
    ensures var t := Run(Step, s, evs);
            && IdentityInv(t)
            && forall i :: i in s.stored ==> i in t.stored && Continues(s.stored[i], t.stored[i])
    decreases |evs|
  {
    if evs != [] {
      var next := Step(s, evs[0]);
      IdentityStep(s, evs[0]);
      IdentityFixed(next, evs[1..]);
      var t := Run(Step, s, evs);
      forall i | i in s.stored
        ensures i in t.stored && Continues(s.stored[i], t.stored[i])
      {
        ContinuesOn(s.stored[i], next.stored[i], t.stored[i]);
      }
    }
  }

  // --- what an install accepts and stores -----------------------------------------------------------

  /** The flags agree with the stored entry and with each other, and name what the mode needs. */
  predicate Acceptable(gc: Entry, f: Flags) {
    && (f.cluster != "" || (f.rpcSecret == "" && f.peers == [] && f.zone == "" && f.capacity == 0))
    && (f.cluster == "" || gc.cluster in {"", f.cluster})
    && (f.rpcSecret == "" || gc.rpcSecret in {"", f.rpcSecret})
    && if f.cluster == "" && gc.cluster == "" then
         && (if f.factor == 0 then gc.factor <= 1 else f.factor <= 1)
         && LongEnough(f.rootUser, gc.rootUser, 8) && LongEnough(f.rootPassword, gc.rootPassword, 16)
       else
         && (f.advertiseHost != "" || gc.advertiseHost != "")
         && (f.rpcSecret != "" || gc.rpcSecret != "" || (f.peers == [] && gc.peers == []))
         && ((if f.capacity == 0 then gc.capacity > 0 else f.capacity > 0) ==> f.zone != "" || gc.zone != "")
  }

  /** A credential that is passed, or else stored, has at least this length; none is fine. */
  predicate LongEnough(flag: string, stored: string, least: nat) {
    (flag != "" ==> |flag| >= least) && (flag == "" && stored != "" ==> |stored| >= least)
  }

  lemma NoPeersAtAll(existing: seq<string>, added: seq<string>)
    ensures AppendPeers(existing, added) == [] <==> existing == [] && added == []
  {
    PeersMerge(existing, added);
    assert added != [] ==> added[0] in ToSet(added) && added[0] in ToSet(AppendPeers(existing, added));
  }

  /** An install is accepted exactly then. */
  lemma AcceptedExact(gc: Entry, f: Flags)
    ensures Merged(gc, f).Some? <==> Acceptable(gc, f)
  {
    NoPeersAtAll(gc.peers, f.peers);
  }

  /** The text is the flag's if one was passed, else the stored one, else the default. */
  predicate Takes(r: string, flag: string, stored: string, default: string) {
    (flag != "" ==> r == flag) && (flag == "" && stored != "" ==> r == stored) && (flag == "" && stored == "" ==> r == default)
  }

  predicate TakesNumber(r: int, flag: int, stored: int, default: int) {
    (flag != 0 ==> r == flag) && (flag == 0 && stored != 0 ==> r == stored) && (flag == 0 && stored == 0 ==> r == default)
  }

  /** The entry is what was asked: a passed flag wins over the stored value, that over the default;
      only a new container brings generated secrets, and only a single-node one a generated key. */
  ghost predicate AsAsked(old_: Entry, f: Flags, creates: bool, c: Chosen, r: Entry) {
    var single := f.cluster == "" && old_.cluster == "";
    && Takes(r.cluster, f.cluster, old_.cluster, "")
    && Takes(r.advertiseHost, f.advertiseHost, old_.advertiseHost, "")
    && Takes(r.zone, f.zone, old_.zone, "")
    && TakesNumber(r.capacity, f.capacity, old_.capacity, 0)
    && TakesNumber(r.factor, f.factor, old_.factor, 1)
    && Takes(r.rpcSecret, f.rpcSecret, old_.rpcSecret, if creates then c.rpcSecret else "")
    && Takes(r.rootUser, f.rootUser, old_.rootUser, if creates && single then c.accessKey else "")
    && Takes(r.rootPassword, f.rootPassword, old_.rootPassword, if creates && single then c.secretKey else "")
    && TakesNumber(r.rpcPort, 0, old_.rpcPort, c.rpcPort) && r.nodeId == old_.nodeId
    && old_.peers <= r.peers && ToSet(r.peers) == ToSet(old_.peers) + ToSet(f.peers)
  }

  lemma PreparedAsAsked(gc: Entry, f: Flags, creates: bool, c: Chosen)
    requires Merged(gc, f).Some?
    ensures AsAsked(gc, f, creates, c, Prepared(Merged(gc, f).value, creates, c))
  {
    PeersMerge(gc.peers, f.peers);
  }

  /** Every accepted install stores what was asked, and starts the cluster part for a cluster member.
      A refused install, or one while another is running, changes nothing. */
  lemma InstallStores(s: State, e: Event)
    requires e.Begin?
    ensures e.id in s.live || !Acceptable(StoredOrNew(s, e.id), e.flags) ==> Step(s, e) == s
    ensures e.id !in s.live && Acceptable(StoredOrNew(s, e.id), e.flags) ==>
              && e.id in Step(s, e).stored
              && AsAsked(StoredOrNew(s, e.id), e.flags, e.creates, e.chosen, Step(s, e).stored[e.id])
              && (e.id in Step(s, e).live <==> e.flags.cluster != "" || StoredOrNew(s, e.id).cluster != "")
  {
    AcceptedExact(StoredOrNew(s, e.id), e.flags);
    if Merged(StoredOrNew(s, e.id), e.flags).Some? { PreparedAsAsked(StoredOrNew(s, e.id), e.flags, e.creates, e.chosen); }
  }
}
