/** The pipeline from one daemon to a peer, stage by stage.  Each stage comes in two kinds: for documents with an
    author, which no daemon refuses, and, when `any`, for all. */
module Updates {
  import opened Messages
  import opened Daemon
  import opened Gossip
  import opened NodeInvariant
  import opened PeerDiscovery
  import opened Confinement

  // ---------------------------------------------------------------- the pipeline, stage by stage

  /** A message in the queue advertises hash `h`, or carries its document. */
  ghost predicate Offered(f: Format, any: bool, q: seq<PeerMsg>, h: Hash) {
    exists m :: m in q && ((m.HASH? && h in m.hashes) || (m.DOC? && f.Carries(any, m.docs, h)))
  }

  ghost predicate Asked(q: seq<PeerMsg>, h: Hash) {
    exists m :: m in q && m.REQ? && h in m.hashes
  }

  /** The db thread has been, or will be, asked for `h` on behalf of `c`, and the answer is not on its way. */
  ghost predicate Serving(f: Format, any: bool, n: Node, c: Addr, h: Hash) {
    || (exists g :: g in n.toDb && g.GET? && g.addr == c && h in g.hashes)
    || (exists u :: u in n.toP2p && u.PUT? && u.addr == c && f.Carries(any, u.docs, h))
  }

  /** The daemon will advertise its whole database: it is about to, or its db thread will tell it to. */
  ghost predicate News(n: Node) {
    n.p2p.bcastHashes || NEW in n.toP2p || n.dbPc != DbIdle
  }

  /** Work pending at, or sent by, the daemon that has `h`, for its peer `c`. */
  ghost predicate Sending(f: Format, any: bool, n: Node, c: Addr, h: Hash) {
    News(n) || (c in n.p2p.peers && Offered(f, any, n.p2p.peers[c], h)) || Serving(f, any, n, c, h)
  }

  ghost predicate Inserting(f: Format, any: bool, n: Node, h: Hash) {
    exists g :: g in n.toDb && g.INS? && f.Carries(any, g.docs, h)
  }

  /** The daemon has `h`, or work towards it is pending at, or was sent by, it; `a` is the one it would ask. */
  ghost predicate Receiving(f: Format, any: bool, n: Node, a: Addr, h: Hash) {
    || h in n.store
    || (a in n.p2p.requests && h in n.p2p.requests[a])
    || (a in n.p2p.peers && Asked(n.p2p.peers[a], h))
    || Inserting(f, any, n, h)
  }

  /** The daemon has a text under `h`, with an author unless any will do. */
  ghost predicate Has(f: Format, any: bool, n: Node, h: Hash) {
    h in n.store && (any || f.author(n.store[h]) != "")
  }

  ghost predicate NoneLost(f: Format, a: Addr, na: Node, c: Addr, nc: Node) {
    forall h :: Has(f, false, na, h) ==> Sending(f, false, na, c, h) || Receiving(f, false, nc, a, h)
  }

  /** A daemon advertises, and is asked for, what it has, and never answers with nothing. */
  ghost predicate Honest(n: Node) {
    && n.hashes <= n.store.Keys
    && (forall u :: u in n.toP2p && u.PUT? ==> u.docs != {})
    && (forall c, m :: c in n.p2p.peers && m in n.p2p.peers[c] && m.DOC? ==> m.docs != {})
    && (forall c, m :: c in n.p2p.peers && m in n.p2p.peers[c] && m.HASH? ==> m.hashes <= n.store.Keys)
    && (forall g :: g in n.toDb && g.GET? ==> g.hashes <= n.store.Keys)
  }

  /** What `a` asks of `c`, `c` has. */
  ghost predicate Sound(na: Node, c: Addr, nc: Node) {
    && (c in na.p2p.requests ==> na.p2p.requests[c] <= nc.store.Keys)
    && (c in na.p2p.peers ==> forall m :: m in na.p2p.peers[c] && m.REQ? ==> m.hashes <= nc.store.Keys)
  }

  // ---------------------------------------------------------------- steps of one daemon

  lemma P2pHonest(a: Addr, n: Node, n': Node)
    requires Honest(n)
    requires BcastPeersStep(a, n, n') || BcastHashesStep(a, n, n') || SendRequestsStep(a, n, n') || AnswerDbStep(n, n')
    ensures Honest(n') && n'.store == n.store
  {
    if n.toP2p != [] { QueueMembers(n.toP2p, n.toP2p[0]); }
    forall c, m | c in n'.p2p.peers && m in n'.p2p.peers[c]
      ensures (m.HASH? ==> m.hashes <= n'.store.Keys) && (m.DOC? ==> m.docs != {})
    {
      if m !in n.p2p.peers[c] {
        assert m.PEER? || m == HASH(a, n.hashes) || m.REQ? || (n.toP2p[0].PUT? && m == DOC(n.toP2p[0].docs));
      }
    }
  }

  lemma LookupSome(store: map<Hash, Text>, hs: set<Hash>)
    ensures Lookup(store, hs) != {} <==> hs * store.Keys != {}
  {
    if h :| h in hs && h in store {
      assert store[h] in Lookup(store, hs) && h in hs * store.Keys;
    }
  }

  lemma GetHonest(n: Node, n': Node)
    requires Honest(n) && Pipes(n) && DbGetStep(n, n')
    ensures Honest(n')
  {
    var g := n.toDb[0];
    QueueMembers(n.toDb, g);
    LookupSome(n.store, g.hashes);
    assert g.hashes * n.store.Keys == g.hashes;
    QueueMembers(n.toP2p, PUT(g.addr, Lookup(n.store, g.hashes)));
  }

  lemma DbHonest(f: Format, a: Addr, n: Node, n': Node)
    requires Honest(n) && Cache(n) && Pipes(n)
    requires DbGetStep(n, n') || DbInsStep(f, n, n') || DbClearStep(n, n') || DbFillStep(n, n') || DbNotifyStep(n, n')
    ensures Honest(n') && n.store.Keys <= n'.store.Keys
  {
    if n.toDb != [] { QueueMembers(n.toDb, n.toDb[0]); }
    if DbGetStep(n, n') {
      GetHonest(n, n');
    } else if DbFillStep(n, n') {
      var h :| h in n.dbPc.todo && n' == n.(hashes := n.hashes + {h}, dbPc := DbFilling(n.dbPc.todo - {h}));
      assert h in n.store.Keys;
    }
  }

  lemma LocalHonest(f: Format, a: Addr, n: Node, n': Node)
    requires NodeInv(f, a, n) && Honest(n) && LocalStep(f, a, n, n')
    ensures Honest(n') && n.store.Keys <= n'.store.Keys
  {
    if BcastPeersStep(a, n, n') || BcastHashesStep(a, n, n') || SendRequestsStep(a, n, n') || AnswerDbStep(n, n') {
      P2pHonest(a, n, n');
    } else {
      DbHonest(f, a, n, n');
    }
  }

  lemma AppendedSound(a: Addr, na: Node, na': Node, c: Addr, nc: Node, m: PeerMsg)
    requires c in na.p2p.peers && c in na'.p2p.peers && Sound(na, c, nc)
    requires na'.p2p.peers[c] == na.p2p.peers[c] || na'.p2p.peers[c] == na.p2p.peers[c] + [m]
    requires na'.p2p.peers[c] != na.p2p.peers[c] && m.REQ? ==> c in na.p2p.requests && m == REQ(a, na.p2p.requests[c])
    requires na'.p2p.requests == na.p2p.requests || na'.p2p.requests == map[]
    ensures Sound(na', c, nc)
  {
    QueueMembers(na.p2p.peers[c], m);
  }

  lemma LocalAsks(f: Format, a: Addr, n: Node, n': Node)
    requires LocalStep(f, a, n, n')
    ensures n'.p2p.requests == n.p2p.requests || n'.p2p.requests == map[]
  {
  }

  lemma LocalRequests(f: Format, a: Addr, n: Node, n': Node)
    requires NodeInv(f, a, n) && LocalStep(f, a, n, n')
    ensures n'.p2p.requests == n.p2p.requests || n'.p2p.requests == map[]
    ensures n'.p2p.peers.Keys == n.p2p.peers.Keys
  {
    LocalAsks(f, a, n, n');
    LocalNodeInv(f, a, n, n');
  }

  lemma LocalSound(f: Format, a: Addr, na: Node, na': Node, c: Addr, nc: Node)
    requires NodeInv(f, a, na) && LocalStep(f, a, na, na') && c in na.p2p.peers && Sound(na, c, nc)
    ensures Sound(na', c, nc)
  {
    LocalRequests(f, a, na, na');
    var m := LocalQueue(f, a, na, na', c);
    AppendedSound(a, na, na', c, nc, m);
  }

  lemma Appended(f: Format, any: bool, q: seq<PeerMsg>, m: PeerMsg, h: Hash)
    ensures Offered(f, any, q, h) ==> Offered(f, any, q + [m], h)
    ensures Asked(q, h) ==> Asked(q + [m], h)
    ensures (m.HASH? && h in m.hashes) || (m.DOC? && f.Carries(any, m.docs, h)) ==> Offered(f, any, q + [m], h)
    ensures m.REQ? && h in m.hashes ==> Asked(q + [m], h)
  {
    assert m in q + [m];
    if Offered(f, any, q, h) {
      var x :| x in q && ((x.HASH? && h in x.hashes) || (x.DOC? && f.Carries(any, x.docs, h)));
      assert x in q + [m];
    }
    if Asked(q, h) {
      var x :| x in q && x.REQ? && h in x.hashes;
      assert x in q + [m];
    }
  }

  lemma P2pSending(f: Format, any: bool, a: Addr, n: Node, n': Node, c: Addr, h: Hash)
    requires NodeInv(f, a, n) && c in n.p2p.peers && h in n.store && Sending(f, any, n, c, h)
    requires BcastPeersStep(a, n, n') || BcastHashesStep(a, n, n') || SendRequestsStep(a, n, n')
    ensures Sending(f, any, n', c, h)
  {
    Appended(f, any, n.p2p.peers[c], PEER({a} + n.p2p.peers.Keys), h);
    Appended(f, any, n.p2p.peers[c], HASH(a, n.hashes), h);
    if c in n.p2p.requests { Appended(f, any, n.p2p.peers[c], REQ(a, n.p2p.requests[c]), h); }
    assert n'.toDb == n.toDb && n'.toP2p == n.toP2p && n'.dbPc == n.dbPc;
    if !News(n) {
      assert Serving(f, any, n, c, h) ==> Serving(f, any, n', c, h);
    }
  }

  lemma AnswerDbSending(f: Format, any: bool, a: Addr, n: Node, n': Node, c: Addr, h: Hash)
    requires NodeInv(f, a, n) && c in n.p2p.peers && Sending(f, any, n, c, h)
    requires AnswerDbStep(n, n')
    ensures Sending(f, any, n', c, h)
  {
    var u0 := n.toP2p[0];
    QueueMembers(n.toP2p, u0);
    if u0.PUT? && u0.addr == c {
      Appended(f, any, n.p2p.peers[c], DOC(u0.docs), h);
    }
    if Serving(f, any, n, c, h) && !(exists g :: g in n.toDb && g.GET? && g.addr == c && h in g.hashes) {
      var u :| u in n.toP2p && u.PUT? && u.addr == c && f.Carries(any, u.docs, h);
      assert u == u0 || u in n'.toP2p;
    }
  }

  lemma GetSending(f: Format, any: bool, a: Addr, n: Node, n': Node, c: Addr, h: Hash)
    requires NodeInv(f, a, n) && Has(f, any, n, h) && Sending(f, any, n, c, h) && DbGetStep(n, n')
    ensures Sending(f, any, n', c, h)
  {
    var g0 := n.toDb[0];
    var u := PUT(g0.addr, Lookup(n.store, g0.hashes));
    QueueMembers(n.toDb, g0);
    QueueMembers(n.toP2p, u);
    if h in g0.hashes {
      assert n.store[h] in u.docs && f.sha(n.store[h]) == h;
    }
    assert Serving(f, any, n, c, h) ==> Serving(f, any, n', c, h);
  }

  lemma DbSending(f: Format, any: bool, a: Addr, n: Node, n': Node, c: Addr, h: Hash)
    requires NodeInv(f, a, n) && Has(f, any, n', h) && (Has(f, any, n, h) ==> Sending(f, any, n, c, h))
    requires DbGetStep(n, n') || DbInsStep(f, n, n') || DbClearStep(n, n') || DbFillStep(n, n') || DbNotifyStep(n, n')
    ensures Sending(f, any, n', c, h)
  {
    if n.toDb != [] { QueueMembers(n.toDb, n.toDb[0]); }
    if DbGetStep(n, n') {
      GetSending(f, any, a, n, n', c, h);
    } else if DbInsStep(f, n, n') {
      if n'.dbPc == DbIdle {
        assert Serving(f, any, n, c, h) ==> Serving(f, any, n', c, h);
      }
    } else if DbNotifyStep(n, n') {
      assert NEW in n'.toP2p;
    }
  }

  /** What a daemon has to do for a peer it keeps having to do, and what it newly has it has to tell. */
  lemma LocalSending(f: Format, any: bool, a: Addr, n: Node, n': Node, c: Addr, h: Hash)
    requires NodeInv(f, a, n) && LocalStep(f, a, n, n')
    requires c in n.p2p.peers && Has(f, any, n', h) && (Has(f, any, n, h) ==> Sending(f, any, n, c, h))
    ensures Sending(f, any, n', c, h)
  {
    if BcastPeersStep(a, n, n') || BcastHashesStep(a, n, n') || SendRequestsStep(a, n, n') {
      P2pSending(f, any, a, n, n', c, h);
    } else if AnswerDbStep(n, n') {
      AnswerDbSending(f, any, a, n, n', c, h);
    } else {
      DbSending(f, any, a, n, n', c, h);
    }
  }

  /** An INS that carries `h` stores it, if with an author; in any case, if it changes nothing the daemon has `h`
      already. */
  lemma InsReceiving(f: Format, any: bool, n: Node, n': Node, h: Hash)
    requires DbInsStep(f, n, n') && Inserting(f, any, n, h) && Cache(n)
    ensures h in n'.store || Inserting(f, any, n', h) || News(n')
    ensures !any && AllSettled(f, n.toDb[0].docs) ==> h in n'.store || Inserting(f, any, n', h)
  {
    var g0 := n.toDb[0];
    QueueMembers(n.toDb, g0);
    var g :| g in n.toDb && g.INS? && f.Carries(any, g.docs, h);
    if g == g0 {
      var t :| t in g0.docs && f.sha(t) == h && (any || f.author(t) != "");
      var docs := Unknown(f, g0.docs, n.hashes);
      if t in docs && !any && AllSettled(f, g0.docs) {
        assert f.Settled(t);
        assert StoredUnder(f, docs, h);
      }
    } else {
      assert g in n'.toDb;
    }
  }

  lemma P2pReceiving(f: Format, any: bool, c: Addr, n: Node, n': Node, a: Addr, h: Hash)
    requires NodeInv(f, c, n) && LocalStep(f, c, n, n')
    requires BcastPeersStep(c, n, n') || BcastHashesStep(c, n, n') || SendRequestsStep(c, n, n') || AnswerDbStep(n, n')
    requires Receiving(f, any, n, a, h)
    ensures Receiving(f, any, n', a, h)
  {
    assert n'.store == n.store && n'.toDb == n.toDb;
    if Inserting(f, any, n, h) {
      assert Inserting(f, any, n', h);
    } else if a in n.p2p.requests && h in n.p2p.requests[a] {
      if SendRequestsStep(c, n, n') {
        Appended(f, any, n.p2p.peers[a], REQ(c, n.p2p.requests[a]), h);
      }
    } else if a in n.p2p.peers && Asked(n.p2p.peers[a], h) {
      var m := LocalQueue(f, c, n, n', a);
      Appended(f, any, n.p2p.peers[a], m, h);
    }
  }

  lemma DbReceiving(f: Format, any: bool, n: Node, n': Node, a: Addr, h: Hash)
    requires DbGetStep(n, n') || DbInsStep(f, n, n') || DbClearStep(n, n') || DbFillStep(n, n') || DbNotifyStep(n, n')
    requires Cache(n) && Receiving(f, any, n, a, h)
    ensures Receiving(f, any, n', a, h) || News(n')
    ensures !any && (n.toDb != [] && n.toDb[0].INS? ==> AllSettled(f, n.toDb[0].docs)) ==> Receiving(f, any, n', a, h)
  {
    assert n'.p2p == n.p2p;
    if Inserting(f, any, n, h) {
      if DbInsStep(f, n, n') {
        InsReceiving(f, any, n, n', h);
      } else {
        if n.toDb != [] { QueueMembers(n.toDb, n.toDb[0]); }
        var g :| g in n.toDb && g.INS? && f.Carries(any, g.docs, h);
        assert g in n'.toDb;
      }
    }
  }

  /** A daemon that has, or is getting, a document goes on having it or getting it; only a document without author
      it may refuse, and then it has news. */
  lemma LocalReceiving(f: Format, any: bool, c: Addr, n: Node, n': Node, a: Addr, h: Hash)
    requires NodeInv(f, c, n) && LocalStep(f, c, n, n') && Receiving(f, any, n, a, h)
    ensures Receiving(f, any, n', a, h) || News(n')
    ensures !any && (n.toDb != [] && n.toDb[0].INS? ==> AllSettled(f, n.toDb[0].docs)) ==> Receiving(f, any, n', a, h)
  {
    if BcastPeersStep(c, n, n') || BcastHashesStep(c, n, n') || SendRequestsStep(c, n, n') || AnswerDbStep(n, n') {
      P2pReceiving(f, any, c, n, n', a, h);
    } else {
      DbReceiving(f, any, n, n', a, h);
    }
  }

  // ---------------------------------------------------------------- deliveries

  lemma ReceiveMonotone(f: Format, any: bool, self: Addr, n: Node, m: PeerMsg, n': Node, x: Addr, h: Hash)
    requires ReceiveStep(f, self, n, m, n')
    ensures Sending(f, any, n, x, h) ==> Sending(f, any, n', x, h)
    ensures x !in n.p2p.peers && x in n'.p2p.peers ==> Sending(f, any, n', x, h)
    ensures Receiving(f, any, n, x, h) ==> Receiving(f, any, n', x, h)
  {
    forall g | g in n.toDb ensures g in n'.toDb {}
    if Serving(f, any, n, x, h) { assert Serving(f, any, n', x, h); }
    if Inserting(f, any, n, h) { assert Inserting(f, any, n', h); }
  }

  /** Each stage hands `h` to the next, unless the receiver takes it for known, which it then is, or will say what
      it has. */
  lemma ReceiveNext(f: Format, any: bool, self: Addr, n: Node, src: Addr, m: PeerMsg, n': Node, h: Hash)
    requires ReceiveStep(f, self, n, m, n') && Signed(src, m) && (n.dbPc == DbIdle ==> n.hashes <= n.store.Keys)
    ensures (m.HASH? && h in m.hashes) || (m.DOC? && f.Carries(any, m.docs, h)) ==>
              Receiving(f, any, n', src, h) || News(n')
    ensures n.hashes <= n.store.Keys && ((m.HASH? && h in m.hashes) || (m.DOC? && f.Carries(any, m.docs, h))) ==>
              Receiving(f, any, n', src, h)
    ensures m.REQ? && h in m.hashes ==> Sending(f, any, n', src, h)
  {
    if m.REQ? && h in m.hashes {
      assert GET(src, m.hashes) in n'.toDb;
    }
    if m.DOC? && f.Carries(any, m.docs, h) {
      var t :| t in m.docs && f.sha(t) == h && (any || f.author(t) != "");
      var g := INS(Unknown(f, m.docs, n.hashes));
      assert g in n'.toDb;
      if h !in n.hashes { assert t in g.docs; }
    }
  }

  lemma TakenSending(f: Format, any: bool, n: Node, dst: Addr, x: Addr, h: Hash)
    requires dst in n.p2p.peers && n.p2p.peers[dst] != [] && Sending(f, any, n, x, h)
    ensures var m := n.p2p.peers[dst][0];
            Sending(f, any, Taken(n, dst), x, h) ||
            (x == dst && ((m.HASH? && h in m.hashes) || (m.DOC? && f.Carries(any, m.docs, h))))
  {
    var q := n.p2p.peers[dst];
    QueueMembers(q, q[0]);
    assert Serving(f, any, n, x, h) ==> Serving(f, any, Taken(n, dst), x, h);
    if Offered(f, any, q, h) {
      var m :| m in q && ((m.HASH? && h in m.hashes) || (m.DOC? && f.Carries(any, m.docs, h)));
      assert m == q[0] || m in q[1..];
    }
  }

  lemma TakenReceiving(f: Format, any: bool, n: Node, dst: Addr, x: Addr, h: Hash)
    requires dst in n.p2p.peers && n.p2p.peers[dst] != [] && Receiving(f, any, n, x, h)
    ensures var m := n.p2p.peers[dst][0];
            Receiving(f, any, Taken(n, dst), x, h) || (x == dst && m.REQ? && h in m.hashes)
  {
    var q := n.p2p.peers[dst];
    QueueMembers(q, q[0]);
    assert Inserting(f, any, n, h) ==> Inserting(f, any, Taken(n, dst), h);
    if Asked(q, h) {
      var m :| m in q && m.REQ? && h in m.hashes;
      assert m == q[0] || m in q[1..];
    }
  }

  /** Taking a message off a socket loses only what that message was for. */
  lemma TakenKeeps(f: Format, any: bool, n: Node, dst: Addr, x: Addr, h: Hash)
    requires dst in n.p2p.peers && n.p2p.peers[dst] != []
    ensures var m := n.p2p.peers[dst][0];
            Sending(f, any, n, x, h) ==>
            Sending(f, any, Taken(n, dst), x, h) ||
            (x == dst && ((m.HASH? && h in m.hashes) || (m.DOC? && f.Carries(any, m.docs, h))))
    ensures var m := n.p2p.peers[dst][0];
            Receiving(f, any, n, x, h) ==>
            Receiving(f, any, Taken(n, dst), x, h) || (x == dst && m.REQ? && h in m.hashes)
  {
    if Sending(f, any, n, x, h) { TakenSending(f, any, n, dst, x, h); }
    if Receiving(f, any, n, x, h) { TakenReceiving(f, any, n, dst, x, h); }
  }

  lemma ReceiveHonest(f: Format, self: Addr, n: Node, m: PeerMsg, n': Node)
    requires ReceiveStep(f, self, n, m, n') && Honest(n)
    requires m.REQ? ==> m.hashes <= n.store.Keys
    ensures Honest(n')
  {
  }

  lemma TakenHonest(n: Node, dst: Addr)
    requires Honest(n) && dst in n.p2p.peers && n.p2p.peers[dst] != []
    ensures Honest(Taken(n, dst))
  {
    QueueMembers(n.p2p.peers[dst], n.p2p.peers[dst][0]);
  }
}
