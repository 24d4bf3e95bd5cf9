/**
 The Garage install as the program runs it on one host: the commands it gives its node in order,
 the entry it changes through a pointer, and the loops. Each is tied to the turns of the protocol.
 */
module GarageCommands {
  import opened Text
  import opened Runs
  import opened Lists
  import opened Garage
  import opened GarageDials

  // --- a whole cluster part, answer after answer ----------------------------------------------------

  function Head(replies: seq<Reply>): Reply {
    if replies == [] then Refused else replies[0]
  }

  function Rest(replies: seq<Reply>): seq<Reply> {
    if replies == [] then [] else replies[1..]
  }

  /** Where an install that has the ring to itself ends. */
  function Tail(id: Id, w: Work, ring: Ring, replies: seq<Reply>): (r: (Ring, Work))
    ensures r.1.stage.Finished?
    decreases |replies|, if w.stage.Finished? then 0 else 1
  {
    if w.stage.Finished? then (ring, w)
    else
      var (next, v) := Turn(id, w, ring, Head(replies));
      Tail(id, v, next, Rest(replies))
  }

  /** The answers that install takes, as events of the protocol. */
  function Events(id: Id, w: Work, ring: Ring, replies: seq<Reply>): seq<Event>
    decreases |replies|, if w.stage.Finished? then 0 else 1
  {
    if w.stage.Finished? then []
    else
      var (next, v) := Turn(id, w, ring, Head(replies));
      [Advance(id, Head(replies))] + Events(id, v, next, Rest(replies))
  }

  lemma OneTurn(s: State, id: Id, reply: Reply)
    requires id in s.live && !s.live[id].stage.Finished?
    ensures var (next, v) := Turn(id, s.live[id], s.ring, reply);
            Step(s, Advance(id, reply)) == State(next, s.stored, s.live[id := v])
  {
  }

  /** The program on one host is the protocol with nobody else moving: the same answers bring the
      shared state to the same ring and the same entry. */
  lemma {:induction false} TailIsRun(s: State, id: Id, replies: seq<Reply>)
    requires id in s.live
    ensures var (ring, w) := Tail(id, s.live[id], s.ring, replies);
            Run(Step, s, Events(id, s.live[id], s.ring, replies)) == State(ring, s.stored, s.live[id := w])
    decreases |replies|, if s.live[id].stage.Finished? then 0 else 1
  {
    if s.live[id].stage.Finished? {
      assert s.live[id := s.live[id]] == s.live;
    } else {
      var e := Advance(id, Head(replies));
      var (next, v) := Turn(id, s.live[id], s.ring, Head(replies));
      var t := Step(s, e);
      OneTurn(s, id, Head(replies));
      TailIsRun(t, id, Rest(replies));
      RunCons(Step, (s, e) => true, s, e, Events(id, v, next, Rest(replies)));
    }
  }

  // --- the manager, which talks to the node ----------------------------------------------------------

  /** A `*config.GarageConfig`. */
  class EntryRef {
    var gc: Entry

    constructor (e: Entry)
      ensures gc == e
    {
      gc := e;
    }

    /** The merge of the flags into the stored entry, up to validation. */
    method MergeFlags(f: Flags) returns (ok: bool)
      modifies this
      ensures ok <==> Merged(old(gc), f).Some?
      ensures ok ==> Some(gc) == Merged(old(gc), f)
    {
      if f.cluster == "" {
        if f.rpcSecret != "" { return false; }
        if |f.peers| > 0 || f.zone != "" || f.capacity != 0 { return false; }
      }
      gc := gc.(rootUser := Or(f.rootUser, gc.rootUser), rootPassword := Or(f.rootPassword, gc.rootPassword));
      if f.cluster != "" {
        if gc.cluster != "" && gc.cluster != f.cluster { return false; }
        gc := gc.(cluster := f.cluster);
      }
      gc := gc.(advertiseHost := Or(f.advertiseHost, gc.advertiseHost), zone := Or(f.zone, gc.zone));
      gc := gc.(capacity := OrInt(f.capacity, gc.capacity), factor := OrInt(f.factor, gc.factor));
      var peers := MergePeers(gc.peers, f.peers);
      gc := gc.(peers := peers);
      if f.rpcSecret != "" {
        if gc.rpcSecret != "" && gc.rpcSecret != f.rpcSecret { return false; }
        gc := gc.(rpcSecret := f.rpcSecret);
      }
      ok := Valid(gc);
    }
  }

  /** `appendPeers`. */
  method MergePeers(existing: seq<string>, added: seq<string>) returns (out: seq<string>)
    ensures out == AppendPeers(existing, added)
  {
    out := existing;
    for i := 0 to |added|
      invariant out == AppendPeers(existing, added[..i])
    {
      TakeNext(added, i);
      assert added[..i + 1][..i] == added[..i];
      if added[i] !in out { out := out + [added[i]]; }
    }
    TakeAll(added);
  }

  /** The ring as one host's manager sees it, the answers its node is going to give, and the peers
      it has connected. */
  class Manager {
    var ring: Ring
    var replies: seq<Reply>
    var dialled: seq<string>

    constructor (r: Ring, rs: seq<Reply>)
      ensures ring == r && replies == rs && dialled == []
    {
      ring, replies, dialled := r, rs, [];
    }

    method Ask() returns (reply: Reply)
      modifies this`replies
      ensures reply == Head(old(replies)) && replies == Rest(old(replies))
    {
      if |replies| == 0 { return Refused; }
      reply := replies[0];
      replies := replies[1..];
    }

    /** The work at a stage. */
    ghost function At(stage: Stage, gc: Entry): Work
      reads this
    {
      Work(stage, gc, dialled)
    }

    /** Whatever the manager does at a stage is that stage's turn. */
    ghost predicate Took(id: Id, from: Work, r: Ring, rs: seq<Reply>, to_: Work)
      reads this
    {
      Tail(id, from, r, rs) == Tail(id, to_, ring, replies)
    }

    /** `node connect` to one peer. */
    method ConnectPeer(peer: string) returns (ok: bool)
      modifies this`replies, this`dialled
      ensures ok <==> Head(old(replies)).Done?
      ensures replies == Rest(old(replies)) && dialled == old(dialled) + if ok then [peer] else []
    {
      var reply := Ask();
      ok := reply.Done?;
      if ok { dialled := dialled + [peer]; }
    }

    /** One turn of the loop over the peers. */
    method ConnectAt(id: Id, gc: Entry, i: nat) returns (ok: bool)
      requires i < |gc.peers|
      modifies this`replies, this`dialled
      ensures Took(id, old(At(Connecting(gc, Others(gc.peers[i..], gc.nodeId)), gc)), ring, old(replies),
                   At(if ok then Connecting(gc, Others(gc.peers[i + 1..], gc.nodeId)) else Finished(Failed), gc))
      ensures ok ==> dialled == old(dialled) + if gc.peers[i] != gc.nodeId then [gc.peers[i]] else []
      ensures !ok ==> gc.peers[i] != gc.nodeId && dialled == old(dialled)
    {
      OthersNext(gc.peers, i, gc.nodeId);
      if gc.peers[i] == gc.nodeId { return true; }
      var rest := Others(gc.peers[i + 1..], gc.nodeId);
      TailOfCons(gc.peers[i], rest);
      assert Connecting(gc, [gc.peers[i]] + rest) == Connect(gc.peers[i], rest);
      ok := ConnectPeer(gc.peers[i]);
      assert !ok ==> dialled == old(dialled);
      ConnectTurn(id, Work(Connect(gc.peers[i], rest), gc, old(dialled)), ring, old(replies));
    }

    /** Success means that every peer but this node was connected, in order; failure that those before
        the refusing one were. */
    method ConnectPeers(id: Id, gc: Entry) returns (ok: bool)
      requires dialled == []
      modifies this`replies, this`dialled
      ensures Took(id, Work(Connecting(gc, Others(gc.peers, gc.nodeId)), gc, []), ring, old(replies),
                   At(if ok then AfterConnecting(gc) else Finished(Failed), gc))
      ensures ok ==> dialled == PeersToDial(gc)
      ensures !ok ==> exists i :: 0 <= i < |gc.peers| && gc.peers[i] != gc.nodeId && dialled == PeersToDial(gc.(peers := gc.peers[..i]))
    {
      var i := 0;
      assert gc.peers[0..] == gc.peers;
      while i < |gc.peers|
        invariant 0 <= i <= |gc.peers|
        invariant Took(id, Work(Connecting(gc, Others(gc.peers, gc.nodeId)), gc, []), ring, old(replies),
                       At(Connecting(gc, Others(gc.peers[i..], gc.nodeId)), gc))
        invariant dialled == PeersToDial(gc.(peers := gc.peers[..i]))
      {
        DialNext(gc, i);
        var done := ConnectAt(id, gc, i);
        if !done { return false; }
        i := i + 1;
      }
      TakeAll(gc.peers);
      ok := true;
    }

    method LayoutAssign(id: Id, gc: Entry) returns (ok: bool)
      modifies this`replies, this`ring
      ensures Took(id, old(At(Assign, gc)), old(ring), old(replies), At(if ok then Show else Finished(Failed), gc))
    {
      var reply := Ask();
      if reply.Done? || reply.Lost? { ring := Assigned(ring, NodeKey(gc.nodeId), RoleOf(gc)); }
      ok := reply.Done?;
    }

    /** `LayoutApply`; awaiting quorum is not a failure for the caller. */
    method LayoutApply(id: Id, gc: Entry) returns (ok: bool)
      modifies this`replies, this`ring
      ensures Took(id, old(At(Show, gc)), old(ring), old(replies), At(if ok then Count else Finished(Failed), gc))
    {
      var shown := Ask();
      if !shown.Done? { return false; }
      if ring.staged == map[] { return true; }
      var version := ring.version;
      var reply := Ask();
      if version == ring.version && EnoughToCommit(ring, gc.factor) && (reply.Done? || reply.Lost?) {
        ring := Committed(ring);
      }
      ok := reply.Done?;
    }
  }

  lemma OthersNext(peers: seq<string>, i: nat, self: string)
    requires i < |peers|
    ensures Others(peers[i..], self) ==
            if peers[i] == self then Others(peers[i + 1..], self) else [peers[i]] + Others(peers[i + 1..], self)
  {
    assert peers[i..][1..] == peers[i + 1..];
  }

  lemma ConnectTurn(id: Id, w: Work, ring: Ring, replies: seq<Reply>)
    requires w.stage.Connect?
    ensures Tail(id, w, ring, replies) ==
            Tail(id, if Head(replies).Done? then Work(Connecting(w.gc, w.stage.rest), w.gc, w.dialled + [w.stage.next]) else Stop(w),
                 ring, Rest(replies))
  {
  }

  lemma DialNext(gc: Entry, i: nat)
    requires i < |gc.peers|
    ensures PeersToDial(gc.(peers := gc.peers[..i + 1])) ==
            PeersToDial(gc.(peers := gc.peers[..i])) + if gc.peers[i] != gc.nodeId then [gc.peers[i]] else []
  {
    TakeNext(gc.peers, i);
    FilterSnoc(gc.peers[..i], gc.peers[i], p => p != gc.nodeId);
  }

  /** The key check and the key creation, taken as one step, then bucket and grant. */
  method SeedRing(id: Id, gm: Manager, gc: EntryRef, observed: int) returns (outcome: Outcome)
    modifies gm`ring, gm`replies, gc
    ensures gm.Took(id, old(gm.At(Seed(observed), gc.gc)), old(gm.ring), old(gm.replies), gm.At(Finished(outcome), gc.gc))
    ensures SameButCredentials(old(gc.gc), gc.gc)
  {
    var keyId := KeyIdByName(gm.ring.minted, id.name);
    var existed := keyId != "";
    var reply := gm.Ask();
    if !existed {
      if reply.Unread? {
        gm.ring := gm.ring.(minted := gm.ring.minted + [Key(id.name, reply.key, reply.secret, id, observed, gc.gc.factor, false)]);
        return Failed;
      }
      if !reply.Minted? { return Failed; }
      gm.ring := gm.ring.(minted := gm.ring.minted + [Key(id.name, reply.key, reply.secret, id, observed, gc.gc.factor, true)]);
      gc.gc := gc.gc.(rootUser := reply.key, rootPassword := reply.secret);
      keyId := reply.key;
    } else {
      if !reply.Done? { return Failed; }
      if gc.gc.rootUser == "" { gc.gc := gc.gc.(rootUser := keyId); }
    }
    outcome := OpenBucket(id, gm, gc.gc, keyId, existed);
  }

  predicate SameButCredentials(a: Entry, b: Entry) {
    b == a.(rootUser := b.rootUser, rootPassword := b.rootPassword)
  }

  method OpenBucket(id: Id, gm: Manager, gc: Entry, keyId: string, existed: bool) returns (outcome: Outcome)
    modifies gm`ring, gm`replies
    ensures gm.Took(id, old(gm.At(MakeBucket(keyId, existed), gc)), old(gm.ring), old(gm.replies), gm.At(Finished(outcome), gc))
  {
    var reply := gm.Ask();
    if reply.Done? || reply.Lost? { gm.ring := gm.ring.(buckets := gm.ring.buckets + {id.name}); }
    if !reply.Done? { return Failed; }
    reply := gm.Ask();
    if reply.Done? || reply.Lost? { gm.ring := gm.ring.(grants := gm.ring.grants + {Grant(id.name, keyId)}); }
    if !reply.Done? { return Failed; }
    outcome := if existed then ByPeer else Seeded;
  }

  method SeedAtQuorum(id: Id, gm: Manager, gc: EntryRef) returns (outcome: Outcome)
    modifies gm`ring, gm`replies, gc
    ensures gm.Took(id, old(gm.At(Count, gc.gc)), old(gm.ring), old(gm.replies), gm.At(Finished(outcome), gc.gc))
    ensures SameButCredentials(old(gc.gc), gc.gc)
  {
    var reply := gm.Ask();
    if !reply.Healthy? { return Failed; }
    if reply.count < gc.gc.factor { return Pending; }
    outcome := SeedRing(id, gm, gc, reply.count);
  }

  method LayOut(id: Id, gm: Manager, gc: Entry) returns (ok: bool)
    modifies gm`ring, gm`replies
    ensures gm.Took(id, old(gm.At(AfterConnecting(gc), gc)), old(gm.ring), old(gm.replies),
                    gm.At(if ok then Count else Finished(Failed), gc))
  {
    if !HasRole(gc) { return true; }
    ok := gm.LayoutAssign(id, gc);
    if ok { ok := gm.LayoutApply(id, gc); }
  }

  /** `runGarageClusterTail`. */
  method RunClusterTail(id: Id, gm: Manager, gc: EntryRef) returns (outcome: Outcome)
    requires gm.dialled == []
    modifies gm, gc
    ensures (gm.ring, gm.At(Finished(outcome), gc.gc)) == Tail(id, Work(Identify, old(gc.gc), []), old(gm.ring), old(gm.replies))
    ensures outcome != Failed ==> gm.dialled == PeersToDial(gc.gc)
  {
    ghost var from := Work(Identify, gc.gc, []);
    var reply := gm.Ask();
    if !reply.Node? || reply.text == "" { return Failed; }
    gc.gc := gc.gc.(nodeId := NodeId(gc.gc, reply.text));
    assert gm.Took(id, from, gm.ring, old(gm.replies), Work(Connecting(gc.gc, Others(gc.gc.peers, gc.gc.nodeId)), gc.gc, []));
    var ok := gm.ConnectPeers(id, gc.gc);
    if !ok { return Failed; }
    ok := LayOut(id, gm, gc.gc);
    if !ok { return Failed; }
    outcome := SeedAtQuorum(id, gm, gc);
    assert PeersToDial(gc.gc) == gm.dialled;
  }
}
