/** What a circle of daemons says to each other while all others know it already: nobody else stirs, and nothing comes
    up in the circle that none of it had. */
module Circles {
  import opened Messages
  import opened Daemon
  import opened Gossip
  import opened NodeInvariant
  import opened Safety
  import opened Confinement

  ghost predicate Idle(n: Node) {
    && Quiet(n) && n.p2p.requests == map[]
    && !n.p2p.bcastPeers && !n.p2p.bcastHashes && !n.p2p.sendRequests
  }

  /** Everything but the place in the loop is as it was. */
  ghost predicate Unmoved(n: Node, n0: Node) {
    n == n0.(pc := n.pc) && n.pc != AtPollDb
  }

  /** A message to `c` that keeps within `M`: the others are only told hashes. */
  ghost predicate Within(m: PeerMsg, c: Addr, M: set<Addr>) {
    !m.PEER? && (c in M || m.HASH?)
  }

  /** The daemon asks and answers within `M` only, and does not broadcast peers; it is given documents only if
      there is someone else. */
  ghost predicate Aimed(a: Addr, n: Node, M: set<Addr>) {
    && !n.p2p.bcastPeers && n.p2p.requests.Keys <= M
    && (forall g :: g in n.toDb ==> if g.GET? then g.addr in M else !(M <= {a}))
    && (forall u :: u in n.toP2p && u.PUT? ==> u.addr in M)
    && (forall c, m :: c in n.p2p.peers && m in n.p2p.peers[c] ==> Within(m, c, M))
  }

  /** A daemon in `M` deals with documents in `T` only, all of which its other peers know; any other daemon is as in
      `s0`. */
  ghost predicate Place(f: Format, s0: System, M: set<Addr>, T: set<Text>, x: Addr, n: Node)
    requires x in s0.nodes
  {
    if x in M then
      && NodeConfined(f, n, s0.nodes.Keys, T) && Aimed(x, n, M)
      && forall c :: c in n.p2p.peers && c in s0.nodes && c !in M ==> f.Digests(T) <= s0.nodes[c].hashes
    else Idle(s0.nodes[x]) && Unmoved(n, s0.nodes[x])
  }

  ghost predicate Circle(f: Format, s0: System, M: set<Addr>, T: set<Text>, s: System) {
    && AllSettled(f, T) && s.nodes.Keys == s0.nodes.Keys
    && forall x :: x in s.nodes ==> Place(f, s0, M, T, x, s.nodes[x])
  }

  // ---------------------------------------------------------------- steps of one daemon

  lemma UnmovedStep(f: Format, b: Addr, n: Node, n0: Node, n': Node)
    requires Unmoved(n, n0) && Idle(n0) && LocalStep(f, b, n, n')
    ensures Unmoved(n', n0)
  {
  }

  /** A daemon told only what it knows does not stir. */
  lemma ToldNothing(f: Format, b: Addr, n: Node, n0: Node, m: PeerMsg, n': Node)
    requires Unmoved(n, n0) && Idle(n0) && ReceiveStep(f, b, n, m, n') && m.HASH? && m.hashes <= n0.hashes
    ensures Unmoved(n', n0)
  {
    assert n.toDb + [] == n.toDb;
  }

  lemma AimedPipes(f: Format, a: Addr, n: Node, n': Node, M: set<Addr>)
    requires Aimed(a, n, M) && LocalStep(f, a, n, n')
    ensures !n'.p2p.bcastPeers && n'.p2p.requests.Keys <= M
    ensures forall g :: g in n'.toDb ==> g in n.toDb
    ensures forall u :: u in n'.toP2p && u.PUT? ==> u.addr in M
  {
    if n.toDb != [] { QueueMembers(n.toDb, n.toDb[0]); }
    if n.toP2p != [] { QueueMembers(n.toP2p, n.toP2p[0]); }
    if DbGetStep(n, n') {
      QueueMembers(n.toP2p, PUT(n.toDb[0].addr, Lookup(n.store, n.toDb[0].hashes)));
    } else {
      QueueMembers(n.toP2p, NEW);
    }
  }

  lemma AimedQueue(f: Format, a: Addr, n: Node, n': Node, M: set<Addr>, c: Addr, m: PeerMsg)
    requires NodeInv(f, a, n) && Aimed(a, n, M) && LocalStep(f, a, n, n')
    requires c in n.p2p.peers && c in n'.p2p.peers && m in n'.p2p.peers[c]
    ensures Within(m, c, M)
  {
    if m !in n.p2p.peers[c] {
      if AnswerDbStep(n, n') {
        assert n.toP2p[0] in n.toP2p && n.toP2p[0].PUT? && n.toP2p[0].addr == c && m == DOC(n.toP2p[0].docs);
      } else if SendRequestsStep(a, n, n') {
        assert c in n.p2p.requests && m == REQ(a, n.p2p.requests[c]);
      } else {
        assert m == HASH(a, n.hashes);
      }
    }
  }

  lemma AimedLocal(f: Format, a: Addr, n: Node, n': Node, M: set<Addr>)
    requires NodeInv(f, a, n) && Aimed(a, n, M) && LocalStep(f, a, n, n')
    ensures Aimed(a, n', M) && n'.p2p.peers.Keys == n.p2p.peers.Keys
    ensures M <= {a} ==> n'.store == n.store
  {
    LocalNodeInv(f, a, n, n');
    AimedPipes(f, a, n, n', M);
    forall c, m | c in n'.p2p.peers && m in n'.p2p.peers[c] ensures Within(m, c, M) {
      AimedQueue(f, a, n, n', M, c, m);
    }
  }

  lemma AimedTaken(a: Addr, n: Node, M: set<Addr>, dst: Addr)
    requires Aimed(a, n, M) && dst in n.p2p.peers && n.p2p.peers[dst] != []
    ensures Aimed(a, Taken(n, dst), M) && Within(n.p2p.peers[dst][0], dst, M)
    ensures Taken(n, dst).p2p.peers.Keys == n.p2p.peers.Keys
  {
    QueueMembers(n.p2p.peers[dst], n.p2p.peers[dst][0]);
  }

  lemma AimedReceive(f: Format, a: Addr, n: Node, src: Addr, m: PeerMsg, n': Node, M: set<Addr>)
    requires Aimed(a, n, M) && ReceiveStep(f, a, n, m, n') && Signed(src, m) && src in M && src != a && !m.PEER?
    ensures Aimed(a, n', M) && n'.p2p.peers.Keys == n.p2p.peers.Keys && n'.store == n.store
  {
    assert n'.p2p.peers == n.p2p.peers;
    assert n'.toDb == n.toDb + AnswerPeer(f, a, n.p2p, m, n.hashes).1;
  }

  // ---------------------------------------------------------------- the whole network

  lemma LocalPlace(f: Format, s0: System, M: set<Addr>, T: set<Text>, x: Addr, n: Node, n': Node)
    requires x in s0.nodes && NodeInv(f, x, n) && Place(f, s0, M, T, x, n) && AllSettled(f, T) && LocalStep(f, x, n, n')
    ensures Place(f, s0, M, T, x, n')
    ensures M <= {x} ==> n'.store == n.store
  {
    if x in M {
      LocalConfined(f, x, n, n', s0.nodes.Keys, T);
      AimedLocal(f, x, n, n', M);
    } else {
      UnmovedStep(f, x, n, s0.nodes[x], n');
    }
  }

  lemma TakenPlace(f: Format, s0: System, M: set<Addr>, T: set<Text>, x: Addr, n: Node, dst: Addr)
    requires x in s0.nodes && Place(f, s0, M, T, x, n) && dst in n.p2p.peers && n.p2p.peers[dst] != []
    ensures x in M && Place(f, s0, M, T, x, Taken(n, dst))
    ensures MsgIn(f, n.p2p.peers[dst][0], T) && Within(n.p2p.peers[dst][0], dst, M)
    ensures dst in s0.nodes && dst !in M ==> f.Digests(T) <= s0.nodes[dst].hashes
  {
    if x in M {
      TakenConfined(f, n, dst, s0.nodes.Keys, T);
      AimedTaken(x, n, M, dst);
    }
  }

  lemma ReceivePlace(f: Format, s0: System, M: set<Addr>, T: set<Text>, x: Addr, n: Node, src: Addr, m: PeerMsg,
                     n': Node)
    requires x in s0.nodes && Place(f, s0, M, T, x, n) && ReceiveStep(f, x, n, m, n') && Signed(src, m)
    requires MsgIn(f, m, T) && Within(m, x, M) && src in M && src != x
    requires x !in M ==> f.Digests(T) <= s0.nodes[x].hashes
    ensures Place(f, s0, M, T, x, n') && n'.store == n.store
  {
    if x in M {
      ReceiveConfined(f, x, n, m, n', s0.nodes.Keys, T);
      AimedReceive(f, x, n, src, m, n', M);
    } else {
      ToldNothing(f, x, n, s0.nodes[x], m, n');
    }
  }

  lemma LocalCircle(f: Format, s0: System, M: set<Addr>, T: set<Text>, s: System, x: Addr, s': System)
    requires Circle(f, s0, M, T, s) && Local(f, s, x, s') && NodeInv(f, x, s.nodes[x])
    ensures Circle(f, s0, M, T, s')
    ensures forall y :: y in s.nodes && M <= {y} ==> s'.nodes[y].store == s.nodes[y].store
  {
    LocalPlace(f, s0, M, T, x, s.nodes[x], s'.nodes[x]);
  }

  lemma DeliverPlaces(f: Format, s0: System, M: set<Addr>, T: set<Text>, s: System, src: Addr, dst: Addr, s': System)
    requires Circle(f, s0, M, T, s) && Deliver(f, s, src, dst, s') && src != dst
    requires s'.nodes[src] == Taken(s.nodes[src], dst) && Signed(src, s.nodes[src].p2p.peers[dst][0])
    ensures Place(f, s0, M, T, src, s'.nodes[src])
    ensures Place(f, s0, M, T, dst, s'.nodes[dst]) && s'.nodes[dst].store == s.nodes[dst].store
  {
    assert Place(f, s0, M, T, src, s.nodes[src]) && Place(f, s0, M, T, dst, s.nodes[dst]);
    TakenPlace(f, s0, M, T, src, s.nodes[src], dst);
    ReceivePlace(f, s0, M, T, dst, s.nodes[dst], src, s.nodes[src].p2p.peers[dst][0], s'.nodes[dst]);
  }

  lemma DeliverCircle(f: Format, s0: System, M: set<Addr>, T: set<Text>, s: System, src: Addr, dst: Addr, s': System)
    requires Circle(f, s0, M, T, s) && Deliver(f, s, src, dst, s') && src != dst
    requires s'.nodes[src] == Taken(s.nodes[src], dst) && Signed(src, s.nodes[src].p2p.peers[dst][0])
    ensures Circle(f, s0, M, T, s')
    ensures forall y :: y in s.nodes ==> s'.nodes[y].store == s.nodes[y].store
  {
    DeliverPlaces(f, s0, M, T, s, src, dst, s');
    DeliverFrame(f, s, src, dst, s');
    forall y | y in s'.nodes ensures Place(f, s0, M, T, y, s'.nodes[y]) && s'.nodes[y].store == s.nodes[y].store {
      assert Place(f, s0, M, T, y, s.nodes[y]);
    }
  }

  /** Every step that the daemons take among themselves keeps to the circle; in a circle of one, no database
      changes. */
  lemma StepCircle(f: Format, s0: System, M: set<Addr>, T: set<Text>, s: System, s': System)
    requires SafeInv(f, s) && Circle(f, s0, M, T, s) && ProtocolStep(f, s, s')
    ensures Circle(f, s0, M, T, s')
    ensures forall y :: y in s.nodes && M <= {y} ==> s'.nodes[y].store == s.nodes[y].store
  {
    if x :| Local(f, s, x, s') {
      assert NodeInv(f, x, s.nodes[x]);
      LocalCircle(f, s0, M, T, s, x, s');
    } else {
      var src, dst :| Deliver(f, s, src, dst, s');
      DeliverKnown(f, s, src, dst, s');
      DeliverCircle(f, s0, M, T, s, src, dst, s');
    }
  }

  ghost predicate ProtocolRun(f: Format, after: seq<System>) {
    after != [] && forall i :: 0 <= i < |after| - 1 ==> ProtocolStep(f, after[i], after[i+1])
  }

  lemma {:induction false} RunCircle(f: Format, s0: System, M: set<Addr>, T: set<Text>, after: seq<System>)
    requires ProtocolRun(f, after) && SafeInv(f, after[0]) && Circle(f, s0, M, T, after[0])
    ensures SafeInv(f, Last(after)) && Circle(f, s0, M, T, Last(after))
    ensures forall y :: y in s0.nodes && M <= {y} ==> Last(after).nodes[y].store == after[0].nodes[y].store
  {
    if |after| > 1 {
      var before := after[..|after|-1];
      RunCircle(f, s0, M, T, before);
      assert ProtocolStep(f, after[|after|-2], after[|after|-1]);
      StepCircle(f, s0, M, T, Last(before), Last(after));
      StepSafe(f, Last(before), Last(after));
    }
  }
}
