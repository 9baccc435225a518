/** What holds of every single daemon in every run, removals included. */
module NodeInvariant {
  import opened Messages
  import opened Daemon
  import opened Gossip

  /** The loop clears its flags in order: peers, then hashes, then requests. */
  ghost predicate LoopOrder(n: Node) {
    && (n.pc == AtHashes ==> !n.p2p.bcastPeers)
    && (n.pc == AtRequests ==> !n.p2p.bcastPeers && !n.p2p.bcastHashes)
    && (n.pc == AtPoll ==> !n.p2p.bcastPeers && !n.p2p.bcastHashes && !n.p2p.sendRequests)
    && (n.pc == AtPollDb ==> n.toP2p != [])
  }

  /** The request flag is up exactly when requests are waiting; none is empty; all are for peers. */
  ghost predicate Requests(n: Node) {
    && (n.p2p.sendRequests <==> n.p2p.requests != map[])
    && n.p2p.requests.Keys <= n.p2p.peers.Keys
    && (forall c :: c in n.p2p.requests ==> n.p2p.requests[c] != {})
  }

  /** A daemon signs with its own address, and asks for something when it asks. */
  ghost predicate Signed(self: Addr, m: PeerMsg) {
    && (m.HASH? ==> m.from == self)
    && (m.REQ? ==> m.from == self && m.hashes != {})
  }

  ghost predicate Sent(self: Addr, n: Node) {
    forall c, m :: c in n.p2p.peers && m in n.p2p.peers[c] ==> Signed(self, m)
  }

  /** The address of a lookup is a peer's, all the way to the db thread and back. */
  ghost predicate Pipes(n: Node) {
    && (forall g :: g in n.toDb && g.GET? ==> g.addr in n.p2p.peers && g.hashes != {})
    && (forall u :: u in n.toP2p && u.PUT? ==> u.addr in n.p2p.peers)
  }

  ghost predicate ContentAddressed(f: Format, n: Node) {
    forall h :: h in n.store ==> f.sha(n.store[h]) == h
  }

  /** The hash set is the keys of the store, except while it is being refreshed. */
  ghost predicate Cache(n: Node) {
    && (n.dbPc == DbIdle ==> n.hashes == n.store.Keys)
    && (n.dbPc.DbFilling? ==> n.hashes + n.dbPc.todo == n.store.Keys)
  }

  ghost predicate NodeInv(f: Format, self: Addr, n: Node) {
    && self !in n.p2p.peers
    && LoopOrder(n) && Requests(n) && Sent(self, n) && Pipes(n) && ContentAddressed(f, n) && Cache(n)
  }

  lemma InitialNodeInv(f: Format, self: Addr, n: Node)
    requires InitialNode(f, self, n)
    ensures NodeInv(f, self, n)
  {
  }

  /** The members of a queue after an append or a removal. */
  lemma QueueMembers<T>(q: seq<T>, m: T)
    ensures forall x :: x in q + [m] <==> x in q || x == m
    ensures q != [] ==> forall x :: x in q <==> x == q[0] || x in q[1..]
  {
    if q != [] {
      assert q == [q[0]] + q[1..];
    }
  }

  lemma PutAddressed(f: Format, n: Node, docs: set<Text>, n': Node)
    requires ContentAddressed(f, n)
    requires Put(f, n.store, docs, n'.store)
    ensures ContentAddressed(f, n')
  {
    forall h | h in n'.store ensures f.sha(n'.store[h]) == h {
      if StoredUnder(f, docs, h) {
        assert StoredAs(f, docs, h, n'.store[h]);
      }
    }
  }

  lemma BcastNodeInv(f: Format, self: Addr, n: Node, n': Node)
    requires NodeInv(f, self, n)
    requires BcastPeersStep(self, n, n') || BcastHashesStep(self, n, n')
    ensures NodeInv(f, self, n') && n'.p2p.peers.Keys == n.p2p.peers.Keys
  {
  }

  lemma SendRequestsNodeInv(f: Format, self: Addr, n: Node, n': Node)
    requires NodeInv(f, self, n) && SendRequestsStep(self, n, n')
    ensures NodeInv(f, self, n') && n'.p2p.peers.Keys == n.p2p.peers.Keys
  {
    forall c, m | c in n'.p2p.peers && m in n'.p2p.peers[c] ensures Signed(self, m) {
      if m !in n.p2p.peers[c] {
        assert m == REQ(self, n.p2p.requests[c]);
      }
    }
  }

  lemma AnswerDbNodeInv(f: Format, self: Addr, n: Node, n': Node)
    requires NodeInv(f, self, n) && AnswerDbStep(n, n')
    ensures NodeInv(f, self, n') && n'.p2p.peers.Keys == n.p2p.peers.Keys
  {
    QueueMembers(n.toP2p, NEW);
    forall c, m | c in n'.p2p.peers && m in n'.p2p.peers[c] ensures Signed(self, m) {
      if m !in n.p2p.peers[c] {
        assert m.DOC?;
      }
    }
  }

  lemma DbNodeInv(f: Format, self: Addr, n: Node, n': Node)
    requires NodeInv(f, self, n)
    requires DbGetStep(n, n') || DbInsStep(f, n, n') || DbClearStep(n, n') || DbFillStep(n, n') || DbNotifyStep(n, n')
    ensures NodeInv(f, self, n') && n'.p2p.peers.Keys == n.p2p.peers.Keys
  {
    if DbGetStep(n, n') {
      QueueMembers(n.toDb, n.toDb[0]);
    } else if DbInsStep(f, n, n') {
      QueueMembers(n.toDb, n.toDb[0]);
      var docs := Unknown(f, n.toDb[0].docs, n.hashes);
      if docs != {} { PutAddressed(f, n, docs, n'); }
    } else if DbFillStep(n, n') {
      var h :| h in n.dbPc.todo && n' == n.(hashes := n.hashes + {h}, dbPc := DbFilling(n.dbPc.todo - {h}));
      assert n'.hashes + n'.dbPc.todo == n.hashes + n.dbPc.todo;
    }
  }

  lemma LocalNodeInv(f: Format, self: Addr, n: Node, n': Node)
    requires NodeInv(f, self, n) && LocalStep(f, self, n, n')
    ensures NodeInv(f, self, n') && n'.p2p.peers.Keys == n.p2p.peers.Keys
  {
    if BcastPeersStep(self, n, n') || BcastHashesStep(self, n, n') {
      BcastNodeInv(f, self, n, n');
    } else if SendRequestsStep(self, n, n') {
      SendRequestsNodeInv(f, self, n, n');
    } else if AnswerDbStep(n, n') {
      AnswerDbNodeInv(f, self, n, n');
    } else {
      DbNodeInv(f, self, n, n');
    }
  }

  lemma ReceiveNodeInv(f: Format, self: Addr, n: Node, src: Addr, m: PeerMsg, n': Node)
    requires NodeInv(f, self, n) && ReceiveStep(f, self, n, m, n')
    requires Signed(src, m)
    requires m.HASH? || m.REQ? ==> src in n.p2p.peers
    ensures NodeInv(f, self, n')
    ensures n.p2p.peers.Keys <= n'.p2p.peers.Keys
  {
    if m.HASH? && !(m.hashes <= n.hashes) {
      var h :| h in m.hashes && h !in n.hashes;
      assert h in n'.p2p.requests[m.from];
    }
  }

  /** Taking a message off a socket keeps the rest. */
  lemma TakenNodeInv(f: Format, self: Addr, n: Node, dst: Addr)
    requires NodeInv(f, self, n) && dst in n.p2p.peers && n.p2p.peers[dst] != []
    ensures NodeInv(f, self, Taken(n, dst))
    ensures Signed(self, n.p2p.peers[dst][0])
  {
    QueueMembers(n.p2p.peers[dst], n.p2p.peers[dst][0]);
  }

  lemma ClientNodeInv(f: Format, self: Addr, n: Node, docs: set<Text>, n': Node)
    requires NodeInv(f, self, n) && (AddStep(f, n, docs, n') || RmStep(n, n'))
    ensures NodeInv(f, self, n') && n'.p2p == n.p2p
  {
  }
}
