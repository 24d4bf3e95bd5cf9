/**
 Who knows the secret of a Garage key. The ring prints it once, to the host that created the key,
 so that host's stored entry is the only copy: no other host ever has it, the creating host keeps
 it even when its install fails afterwards, and a copy lost before it was saved is lost for good.
 */
module GarageSecrets {
  import opened Runs
  import opened Garage
  import opened GarageSafety

  /** What a host knows now: the entry of its running install, else the stored one. */
  function Knows(s: State, i: Id): Entry {
    if i in s.live then s.live[i].gc else StoredOrNew(s, i)
  }

  /** No entry but the creating host's holds the secret of a key. */
  ghost predicate OnlyMinterKnows(s: State) {
    && (forall k, i :: k in s.ring.minted && i in s.stored && s.stored[i].rootPassword == k.secret ==> i == k.minter)
    && (forall k, i :: k in s.ring.minted && i in s.live && s.live[i].gc.rootPassword == k.secret ==> i == k.minter)
  }

  /** The host that read a key when creating it still has both halves. */
  ghost predicate MinterKnows(s: State) {
    forall k :: k in s.ring.minted && k.read ==> Has(Knows(s, k.minter), k)
  }

  predicate Has(gc: Entry, k: Key) {
    gc.rootPassword == k.secret && gc.rootUser == k.id
  }

  ghost predicate WellMinted(s: State) {
    forall k :: k in s.ring.minted ==> k.secret != "" && k.id != "" && k.name == k.minter.name
  }

  // --- when a step keeps that ---------------------------------------------------------------------

  /** The operator does not hand a key's secret to another host. */
  ghost predicate NoHandover(s: State, e: Event) {
    e.Begin? ==> forall k :: k in s.ring.minted && e.flags.rootPassword == k.secret ==> e.id == k.minter
  }

  /** The operator does not replace the credentials of a host that created a key, and its process
      is not killed while only that process knows them. */
  ghost predicate NoLoss(s: State, e: Event) {
    match e
    case Begin(id, f, _, _) =>
      forall k :: k in s.ring.minted && k.read && k.minter == id ==>
        (f.rootPassword == "" || f.rootPassword == k.secret) && (f.rootUser == "" || f.rootUser == k.id)
    case Kill(id) =>
      forall k :: k in s.ring.minted && k.read && k.minter == id ==> Has(StoredOrNew(s, id), k)
    case _ => true
  }

  predicate Accepted(s: State, e: Event) {
    e.Begin? ==> e.id !in s.live && Merged(StoredOrNew(s, e.id), e.flags).Some?
  }

  // --- minting -----------------------------------------------------------------------------------

  /** Only a turn at the seeding stage, with no key of that name, creates a key. */
  predicate Mints(s: State, e: Event) {
    && e.Advance? && e.id in s.live && s.live[e.id].stage.Seed?
    && KeyIdByName(s.ring.minted, e.id.name) == "" && (e.reply.Minted? || e.reply.Unread?)
  }

  function NewKey(s: State, e: Event): Key
    requires Mints(s, e)
  {
    var w := s.live[e.id];
    Key(e.id.name, e.reply.key, e.reply.secret, e.id, w.stage.observed, w.gc.factor, e.reply.Minted?)
  }

  lemma TurnMints(id: Id, w: Work, ring: Ring, reply: Reply)
    ensures var r := Turn(id, w, ring, reply).0;
            r.minted == ring.minted +
              if w.stage.Seed? && KeyIdByName(ring.minted, id.name) == "" && (reply.Minted? || reply.Unread?)
              then [Key(id.name, reply.key, reply.secret, id, w.stage.observed, w.gc.factor, reply.Minted?)] else []
  {
    assert ring.minted + [] == ring.minted;
  }

  lemma MintedAfter(s: State, e: Event)
    ensures Step(s, e).ring.minted == s.ring.minted + if Mints(s, e) then [NewKey(s, e)] else []
  {
    assert s.ring.minted + [] == s.ring.minted;
    if e.Advance? && e.id in s.live { TurnMints(e.id, s.live[e.id], s.ring, e.reply); }
  }

  /** A turn changes the password only where it creates a key. */
  lemma TurnPassword(id: Id, w: Work, ring: Ring, reply: Reply)
    ensures var gc := Turn(id, w, ring, reply).1.gc;
            gc.rootPassword == w.gc.rootPassword
            || (w.stage.Seed? && KeyIdByName(ring.minted, id.name) == "" && reply.Minted? && gc.rootPassword == reply.secret)
  {
  }

  lemma PreparedPassword(gc: Entry, f: Flags, creates: bool, c: Chosen)
    requires Merged(gc, f).Some?
    ensures var p := Prepared(Merged(gc, f).value, creates, c);
            p.rootPassword in {f.rootPassword, gc.rootPassword, c.secretKey}
  {
  }

  lemma WellMintedStep(s: State, e: Event)
    requires WellMinted(s) && Honest(s, e)
    ensures WellMinted(Step(s, e))
  {
    MintedAfter(s, e);
  }

  ghost predicate Guarded(minted: seq<Key>, i: Id, password: string) {
    forall k :: k in minted && k.secret == password ==> i == k.minter
  }

  lemma OnlyMinterIs(s: State)
    ensures OnlyMinterKnows(s) <==>
      && (forall i :: i in s.stored ==> Guarded(s.ring.minted, i, s.stored[i].rootPassword))
      && (forall i :: i in s.live ==> Guarded(s.ring.minted, i, s.live[i].gc.rootPassword))
  {
  }

  lemma BeginGuards(s: State, e: Event)
    requires WellMinted(s) && OnlyMinterKnows(s) && Honest(s, e) && NoHandover(s, e) && e.Begin?
    ensures OnlyMinterKnows(Step(s, e))
  {
    if e.id !in s.live && Merged(StoredOrNew(s, e.id), e.flags).Some? {
      var gc := Prepared(Merged(StoredOrNew(s, e.id), e.flags).value, e.creates, e.chosen);
      PreparedPassword(StoredOrNew(s, e.id), e.flags, e.creates, e.chosen);
      assert Guarded(s.ring.minted, e.id, gc.rootPassword);
    }
  }

  lemma TurnGuards(s: State, e: Event)
    requires WellMinted(s) && OnlyMinterKnows(s) && Honest(s, e) && e.Advance? && e.id in s.live
    requires !s.live[e.id].stage.Finished?
    ensures OnlyMinterKnows(Step(s, e))
  {
    var t := Step(s, e);
    MintedAfter(s, e);
    TurnPassword(e.id, s.live[e.id], s.ring, e.reply);
    OnlyMinterIs(s);
    forall i | i in t.stored
      ensures Guarded(t.ring.minted, i, t.stored[i].rootPassword)
    {
      assert Guarded(s.ring.minted, i, s.stored[i].rootPassword);
    }
    forall i | i in t.live
      ensures Guarded(t.ring.minted, i, t.live[i].gc.rootPassword)
    {
      assert Guarded(s.ring.minted, i, s.live[i].gc.rootPassword);
    }
    OnlyMinterIs(t);
  }

  lemma OnlyMinterStep(s: State, e: Event)
    requires WellMinted(s) && OnlyMinterKnows(s) && Honest(s, e) && NoHandover(s, e)
    ensures OnlyMinterKnows(Step(s, e))
  {
    if e.Begin? {
      BeginGuards(s, e);
    } else if e.Advance? && e.id in s.live && !s.live[e.id].stage.Finished? {
      TurnGuards(s, e);
    }
  }

  // --- the creating host keeps it -----------------------------------------------------------------

  lemma BeginKeeps(s: State, e: Event)
    requires WellMinted(s) && MinterKnows(s) && NoLoss(s, e) && e.Begin?
    ensures MinterKnows(Step(s, e))
  {
    if Accepted(s, e) {
      var old_ := StoredOrNew(s, e.id);
      var gc := Prepared(Merged(old_, e.flags).value, e.creates, e.chosen);
      forall k | k in s.ring.minted && k.read && k.minter == e.id
        ensures Has(gc, k)
      {
        assert Has(Knows(s, k.minter), k);
      }
    }
  }

  lemma TurnHas(id: Id, w: Work, ring: Ring, reply: Reply, k: Key)
    requires k in ring.minted && k.id != "" && k.name == id.name && Has(w.gc, k)
    ensures Has(Turn(id, w, ring, reply).1.gc, k)
  {
  }

  lemma TurnsKeep(s: State, e: Event)
    requires WellMinted(s) && MinterKnows(s) && e.Advance?
    ensures MinterKnows(Step(s, e))
  {
    var t := Step(s, e);
    MintedAfter(s, e);
    forall k | k in t.ring.minted && k.read
      ensures Has(Knows(t, k.minter), k)
    {
      if k in s.ring.minted {
        assert Has(Knows(s, k.minter), k);
        if k.minter == e.id && e.id in s.live {
          TurnHas(e.id, s.live[e.id], s.ring, e.reply, k);
        }
      }
    }
  }

  lemma MinterStep(s: State, e: Event)
    requires WellMinted(s) && MinterKnows(s) && Honest(s, e) && NoLoss(s, e)
    ensures MinterKnows(Step(s, e))
  {
    match e
    case Begin(_, _, _, _) => BeginKeeps(s, e);
    case Advance(_, _) => TurnsKeep(s, e);
    case Kill(id) =>
      forall k | k in s.ring.minted && k.read
        ensures Has(Knows(Step(s, e), k.minter), k)
      {
        assert Has(Knows(s, k.minter), k);
      }
  }

  /** The condition is exact: a step loses a creating host's credentials if and only if it is an
      accepted install that replaces them or a kill before they were saved. */
  lemma LossExact(s: State, e: Event)
    requires WellMinted(s) && MinterKnows(s) && Honest(s, e) && Accepted(s, e)
    ensures MinterKnows(Step(s, e)) <==> NoLoss(s, e)
  {
    if NoLoss(s, e) {
      MinterStep(s, e);
    } else {
      MintedAfter(s, e);
      var t := Step(s, e);
      var k :| k in s.ring.minted && k.read && k.minter == e.id && match e
        case Begin(_, f, _, _) => !((f.rootPassword == "" || f.rootPassword == k.secret) && (f.rootUser == "" || f.rootUser == k.id))
        case Kill(_) => !Has(StoredOrNew(s, e.id), k)
        case Advance(_, _) => false;
      assert k in t.ring.minted && !Has(Knows(t, k.minter), k);
    }
  }

  /** And so is the other one: an accepted install spreads a secret if and only if the operator
      passed it. */
  lemma HandoverExact(s: State, e: Event)
    requires WellMinted(s) && OnlyMinterKnows(s) && Honest(s, e) && Accepted(s, e)
    ensures OnlyMinterKnows(Step(s, e)) <==> NoHandover(s, e)
  {
    if NoHandover(s, e) {
      OnlyMinterStep(s, e);
    } else {
      var k :| k in s.ring.minted && e.flags.rootPassword == k.secret && e.id != k.minter;
      var t := Step(s, e);
      assert t.stored[e.id].rootPassword == k.secret;
    }
  }

  // --- over whole runs ---------------------------------------------------------------------------

  ghost predicate Careful(s: State, e: Event) {
    Honest(s, e) && NoHandover(s, e) && NoLoss(s, e)
  }

  ghost predicate SecretsInv(s: State) {
    WellMinted(s) && OnlyMinterKnows(s) && MinterKnows(s)
  }

  /** At any moment of any interleaving, only the host that created a key knows its secret, and it
      does know it: also while and after its install fails further on. */
  lemma SecretsStayPut(evs: seq<Event>)
    requires AllOk(Step, Careful, START, evs)
    ensures var t := Run(Step, START, evs);
            && OnlyMinterKnows(t)
            && forall k :: k in t.ring.minted && k.read ==>
                 if k.minter in t.live then Has(t.live[k.minter].gc, k)
                 else k.minter in t.stored && Has(t.stored[k.minter], k)
  {
    forall s, e | SecretsInv(s) && Careful(s, e)
      ensures SecretsInv(Step(s, e))
    {
      WellMintedStep(s, e);
      OnlyMinterStep(s, e);
      MinterStep(s, e);
    }
    RunKeeps(Step, Careful, SecretsInv, START, evs);
    var t := Run(Step, START, evs);
    forall k | k in t.ring.minted && k.read
      ensures Has(Knows(t, k.minter), k)
    {
    }
  }

  ghost predicate Unsaid(password: string, s: State, e: Event) {
    Honest(s, e) && (e.Begin? ==> e.flags.rootPassword != password)
  }

  ghost predicate NobodyKnows(s: State, password: string) {
    && (forall i :: i in s.stored ==> s.stored[i].rootPassword != password)
    && (forall i :: i in s.live ==> s.live[i].gc.rootPassword != password)
  }

  ghost predicate Forgotten(k: Key, s: State) {
    k in s.ring.minted && k.secret != "" && NobodyKnows(s, k.secret)
  }

  lemma ForgottenBegin(k: Key, s: State, e: Event)
    requires Forgotten(k, s) && Unsaid(k.secret, s, e) && e.Begin?
    ensures NobodyKnows(Step(s, e), k.secret)
  {
    if Accepted(s, e) { PreparedPassword(StoredOrNew(s, e.id), e.flags, e.creates, e.chosen); }
  }

  lemma ForgottenTurn(k: Key, s: State, e: Event)
    requires Forgotten(k, s) && Unsaid(k.secret, s, e) && e.Advance?
    ensures NobodyKnows(Step(s, e), k.secret)
  {
    if e.id in s.live { TurnPassword(e.id, s.live[e.id], s.ring, e.reply); }
  }

  lemma ForgottenStep(k: Key, s: State, e: Event)
    requires Forgotten(k, s) && Unsaid(k.secret, s, e)
    ensures Forgotten(k, Step(s, e))
  {
    MintedAfter(s, e);
    match e
    case Begin(_, _, _, _) => ForgottenBegin(k, s, e);
    case Advance(_, _) => ForgottenTurn(k, s, e);
    case Kill(_) =>
  }

  /** A process killed between creating the key and saving it takes the secret with it: no host has
      it, and no further sequence of installs, by any host, brings it back. */
  lemma KilledBeforeSaving(s: State, id: Id, k: Key, evs: seq<Event>)
    requires SecretsInv(s) && k in s.ring.minted && k.minter == id
    requires id in s.stored ==> s.stored[id].rootPassword != k.secret
    requires AllOk(Step, (s, e) => Unsaid(k.secret, s, e), Step(s, Kill(id)), evs)
    ensures var t := Run(Step, Step(s, Kill(id)), evs);
            k in t.ring.minted && NobodyKnows(t, k.secret)
  {
    var ok, inv := (s, e) => Unsaid(k.secret, s, e), s => Forgotten(k, s);
    assert Forgotten(k, Step(s, Kill(id)));
    forall s, e | inv(s) && ok(s, e)
      ensures inv(Step(s, e))
    {
      ForgottenStep(k, s, e);
    }
    RunKeeps(Step, ok, inv, Step(s, Kill(id)), evs);
  }

  // --- a run that loses it ------------------------------------------------------------------------

  /** A first install of a one-node cluster with a role. */
  predicate OneNode(f: Flags) {
    && f.cluster != "" && f.advertiseHost != "" && f.zone != "" && f.capacity > 0
    && f.factor in {0, 1} && f.peers == [] && f.rootPassword == ""
  }

  lemma OneNodeEntry(f: Flags, c: Chosen)
    requires OneNode(f)
    ensures Merged(EMPTY_ENTRY, f).Some?
    ensures var gc := Prepared(Merged(EMPTY_ENTRY, f).value, true, c);
            gc.cluster != "" && HasRole(gc) && gc.factor == 1 && gc.peers == [] && gc.rootPassword == ""
  {
  }

  /** What the ring and the running install are after that host's layout is committed. */
  function Laid(s: State, id: Id, text: string): State
    requires id in s.live
  {
    var gc := s.live[id].gc.(nodeId := NodeId(s.live[id].gc, text));
    s.(ring := EMPTY_RING.(version := 1, roles := map[NodeKey(gc.nodeId) := RoleOf(gc)]), live := s.live[id := Work(Count, gc, [])])
  }

  predicate Fresh(s: State, id: Id) {
    && s.ring == EMPTY_RING && id in s.live
    && var w := s.live[id]; w.stage == Identify && HasRole(w.gc) && w.gc.factor == 1 && w.gc.peers == []
  }

  lemma RoleStaged(s: State, id: Id, text: string, gc: Entry)
    requires Fresh(s, id) && text != "" && gc == s.live[id].gc.(nodeId := NodeId(s.live[id].gc, text))
    ensures Step(Step(s, Advance(id, Node(text))), Advance(id, Done))
         == s.(ring := EMPTY_RING.(staged := map[NodeKey(gc.nodeId) := RoleOf(gc)]), live := s.live[id := Work(Show, gc, [])])
  {
    assert Step(s, Advance(id, Node(text))) == s.(live := s.live[id := Work(Assign, gc, [])]);
  }

  lemma RoleCommitted(s: State, id: Id, gc: Entry)
    requires id in s.live && s.live[id] == Work(Show, gc, []) && gc.factor == 1
    requires s.ring == EMPTY_RING.(staged := map[NodeKey(gc.nodeId) := RoleOf(gc)])
    ensures Step(Step(s, Advance(id, Done)), Advance(id, Done))
         == s.(ring := EMPTY_RING.(version := 1, roles := map[NodeKey(gc.nodeId) := RoleOf(gc)]), live := s.live[id := Work(Count, gc, [])])
  {
    var node := NodeKey(gc.nodeId);
    assert node in s.ring.staged;
    assert s.ring.roles.Keys + s.ring.staged.Keys == {node};
    assert Step(s, Advance(id, Done)) == s.(live := s.live[id := Work(Apply(0), gc, [])]);
    assert map[] + s.ring.staged == map[node := RoleOf(gc)];
  }

  lemma LayoutTurns(s: State, id: Id, text: string)
    requires Fresh(s, id) && text != ""
    ensures Step(Step(Step(Step(s, Advance(id, Node(text))), Advance(id, Done)), Advance(id, Done)), Advance(id, Done)) == Laid(s, id, text)
  {
    var gc := s.live[id].gc.(nodeId := NodeId(s.live[id].gc, text));
    RoleStaged(s, id, text, gc);
    var t := s.(ring := EMPTY_RING.(staged := map[NodeKey(gc.nodeId) := RoleOf(gc)]), live := s.live[id := Work(Show, gc, [])]);
    RoleCommitted(t, id, gc);
    assert t.live[id := Work(Count, gc, [])] == s.live[id := Work(Count, gc, [])];
  }

  lemma LayoutCommitted(s: State, id: Id, text: string)
    requires Fresh(s, id) && text != ""
    ensures var evs := [Advance(id, Node(text)), Advance(id, Done), Advance(id, Done), Advance(id, Done)];
            AllOk(Step, Honest, s, evs) && Run(Step, s, evs) == Laid(s, id, text)
  {
    LayoutTurns(s, id, text);
    RunOfFour(Step, Honest, s, Advance(id, Node(text)), Advance(id, Done), Advance(id, Done), Advance(id, Done));
  }

  /** Then it creates the key, and is killed. */
  lemma CreatedAndKilled(s: State, id: Id, key: string, secret: string)
    requires id in s.live && s.live[id].stage == Count && s.live[id].gc.factor == 1 && |s.ring.roles| == 1
    requires s.ring.minted == [] && key != "" && secret != "" && !SecretInUse(s, secret)
    ensures var evs := [Advance(id, Healthy(1)), Advance(id, Minted(key, secret)), Kill(id)];
            var t := Run(Step, s, evs);
            && AllOk(Step, Honest, s, evs)
            && t.ring.minted == [Key(id.name, key, secret, id, 1, 1, true)] && NobodyKnows(t, secret)
  {
    var s1 := Step(s, Advance(id, Healthy(1)));
    assert s1 == s.(live := s.live[id := s.live[id].(stage := Seed(1))]);
    assert !SecretInUse(s1, secret);
    var s2 := Step(s1, Advance(id, Minted(key, secret)));
    assert s2.ring.minted == [Key(id.name, key, secret, id, 1, 1, true)];
    RunOfThree(Step, Honest, s, Advance(id, Healthy(1)), Advance(id, Minted(key, secret)), Kill(id));
  }

  lemma OneNodeBegins(id: Id, f: Flags, c: Chosen)
    requires OneNode(f) && c.secretKey != ""
    ensures var gc := Prepared(Merged(EMPTY_ENTRY, f).value, true, c);
            && Honest(START, Begin(id, f, true, c))
            && Step(START, Begin(id, f, true, c)) == State(EMPTY_RING, map[id := gc], map[id := Work(Identify, gc, [])])
  {
    OneNodeEntry(f, c);
  }

  /** From the empty state: one install that is answered until it has created its key, and is then
      killed. The key is in the ring and no host knows its secret. */
  lemma KillLosesSecret(id: Id, f: Flags, c: Chosen, text: string, key: string, secret: string)
    requires OneNode(f) && c.secretKey != "" && text != "" && key != "" && secret != ""
    ensures var evs := [Begin(id, f, true, c)]
                     + [Advance(id, Node(text)), Advance(id, Done), Advance(id, Done), Advance(id, Done)]
                     + [Advance(id, Healthy(1)), Advance(id, Minted(key, secret)), Kill(id)];
            var t := Run(Step, START, evs);
            && AllOk(Step, Honest, START, evs)
            && t.ring.minted == [Key(id.name, key, secret, id, 1, 1, true)] && NobodyKnows(t, secret)
  {
    var first, layout := [Begin(id, f, true, c)], [Advance(id, Node(text)), Advance(id, Done), Advance(id, Done), Advance(id, Done)];
    OneNodeEntry(f, c);
    OneNodeBegins(id, f, c);
    RunOfOne(Step, Honest, START, first[0]);
    RestLosesSecret(Run(Step, START, first), id, text, key, secret);
    RunAppend(Step, Honest, START, first, layout);
    RunAppend(Step, Honest, START, first + layout, [Advance(id, Healthy(1)), Advance(id, Minted(key, secret)), Kill(id)]);
  }

  lemma LaidIsQuiet(s: State, id: Id, text: string, secret: string)
    requires Fresh(s, id) && s.live.Keys == {id} && s.stored.Keys == {id} && secret != ""
    requires s.live[id].gc.rootPassword == "" && s.stored[id].rootPassword == ""
    ensures var t := Laid(s, id, text);
            id in t.live && t.live[id].stage == Count && t.live[id].gc.factor == 1 && |t.ring.roles| == 1
            && t.ring.minted == [] && !SecretInUse(t, secret)
  {
    var t := Laid(s, id, text);
    assert t.live.Keys == {id} && t.live[id].gc.rootPassword == "";
  }

  lemma RestLosesSecret(s: State, id: Id, text: string, key: string, secret: string)
    requires Fresh(s, id) && s.live.Keys == {id} && s.stored.Keys == {id} && text != "" && key != "" && secret != ""
    requires s.live[id].gc.rootPassword == "" && s.stored[id].rootPassword == ""
    ensures var layout := [Advance(id, Node(text)), Advance(id, Done), Advance(id, Done), Advance(id, Done)];
            var last := [Advance(id, Healthy(1)), Advance(id, Minted(key, secret)), Kill(id)];
            var t := Run(Step, Run(Step, s, layout), last);
            && AllOk(Step, Honest, s, layout) && AllOk(Step, Honest, Run(Step, s, layout), last)
            && t.ring.minted == [Key(id.name, key, secret, id, 1, 1, true)] && NobodyKnows(t, secret)
  {
    LayoutCommitted(s, id, text);
    LaidIsQuiet(s, id, text, secret);
    CreatedAndKilled(Laid(s, id, text), id, key, secret);
  }
}
