/**
 Which peers an install connects: all that its entry lists, except itself, in the order listed.
 */
module GarageDials {
  import opened Lists
  import opened Runs
  import opened Garage

  /** The peers an entry asks for: every one that is not this node. */
  function PeersToDial(gc: Entry): seq<string> {
    Filter(gc.peers, p => p != gc.nodeId)
  }

  lemma {:induction false} OthersAreFiltered(peers: seq<string>, self: string)
    ensures Others(peers, self) == Filter(peers, p => p != self)
  {
    if peers != [] {
      HeadTail(peers);
      OthersAreFiltered(peers[1..], self);
      FilterCons(peers[0], peers[1..], p => p != self);
    }
  }

  /** How far the dialling is at each stage. */
  ghost predicate Dials(w: Work) {
    match w.stage
    case Identify => w.dialled == []
    case Connect(next, rest) => w.dialled + ([next] + rest) == PeersToDial(w.gc)
    case Finished(Failed) => w.dialled == [] || w.dialled <= PeersToDial(w.gc)
    case _ => w.dialled == PeersToDial(w.gc)
  }

  lemma DialsIdentify(id: Id, w: Work, ring: Ring, reply: Reply)
    requires Dials(w) && w.stage.Identify?
    ensures Dials(Turn(id, w, ring, reply).1)
  {
    if reply.Node? && reply.text != "" {
      var gc := w.gc.(nodeId := NodeId(w.gc, reply.text));
      OthersAreFiltered(gc.peers, gc.nodeId);
      StartsDialling(gc, PeersToDial(gc));
    }
  }

  lemma StartsDialling(gc: Entry, todo: seq<string>)
    requires todo == PeersToDial(gc)
    ensures Dials(Work(Connecting(gc, todo), gc, []))
  {
    if todo != [] { HeadTail(todo); }
    assert [] + todo == todo;
  }

  lemma DialsConnect(id: Id, w: Work, ring: Ring, reply: Reply)
    requires Dials(w) && w.stage.Connect?
    ensures Dials(Turn(id, w, ring, reply).1)
  {
    var next, rest := w.stage.next, w.stage.rest;
    AppendAssoc(w.dialled, [next], rest);
    assert w.dialled <= PeersToDial(w.gc);
    if rest != [] {
      HeadTail(rest);
    } else {
      assert w.dialled + [next] + rest == w.dialled + [next];
    }
  }

  lemma DialsAfter(id: Id, w: Work, ring: Ring, reply: Reply)
    requires Dials(w) && !w.stage.Identify? && !w.stage.Connect?
    ensures Dials(Turn(id, w, ring, reply).1)
  {
    var v := Turn(id, w, ring, reply).1;
    assert v.dialled == w.dialled && v.gc.peers == w.gc.peers && v.gc.nodeId == w.gc.nodeId;
    assert PeersToDial(v.gc) == PeersToDial(w.gc);
  }

  lemma DialsTurn(id: Id, w: Work, ring: Ring, reply: Reply)
    requires Dials(w)
    ensures Dials(Turn(id, w, ring, reply).1)
  {
    match w.stage
    case Identify => DialsIdentify(id, w, ring, reply);
    case Connect(_, _) => DialsConnect(id, w, ring, reply);
    case _ => DialsAfter(id, w, ring, reply);
  }

  ghost predicate AllDial(s: State) {
    forall i :: i in s.live ==> Dials(s.live[i])
  }

  lemma DialsStep(s: State, e: Event)
    requires AllDial(s)
    ensures AllDial(Step(s, e))
  {
    if e.Advance? && e.id in s.live { DialsTurn(e.id, s.live[e.id], s.ring, e.reply); }
  }

  /** Over every run, whatever the nodes answer: an install that is past connecting, or has finished
      without failing, has connected exactly the peers of its entry other than its own node, in
      list order; one that is still connecting or failed has connected a first part of them. */
  lemma DialsEveryPeer(evs: seq<Event>, i: Id)
    ensures var t := Run(Step, START, evs);
            i in t.live ==>
              var w := t.live[i];
              && (!w.stage.Identify? && !w.stage.Connect? && w.stage != Finished(Failed) ==>
                    w.dialled == Filter(w.gc.peers, p => p != w.gc.nodeId))
              && (w.dialled == [] || w.dialled <= Filter(w.gc.peers, p => p != w.gc.nodeId))
  {
    AllDialAlways(evs);
    var t := Run(Step, START, evs);
    if i in t.live { DialsMeans(t.live[i]); }
  }

  lemma DialsMeans(w: Work)
    requires Dials(w)
    ensures !w.stage.Identify? && !w.stage.Connect? && w.stage != Finished(Failed) ==> w.dialled == PeersToDial(w.gc)
    ensures w.dialled == [] || w.dialled <= PeersToDial(w.gc)
  {
  }

  lemma AllDialAlways(evs: seq<Event>)
    ensures AllDial(Run(Step, START, evs))
  {
    var ok := (s: State, e: Event) => true;
    forall s, e | AllDial(s)
      ensures AllDial(Step(s, e))
    {
      DialsStep(s, e);
    }
    AllOkFromEach(Step, ok, START, evs, e => true);
    RunKeeps(Step, ok, AllDial, START, evs);
  }
}
