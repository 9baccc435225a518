/** How addresses travel: every message that names its sender follows, on its socket, a PEER that introduces the
    sender, and everything a daemon knows is known to, or on its way to, all its peers. */
module PeerDiscovery {
  import opened Messages
  import opened Daemon
  import opened Gossip
  import opened NodeInvariant

  /** A PEER message in `q` names `x`. */
  ghost predicate Names(q: seq<PeerMsg>, x: Addr) {
    exists m :: m in q && m.PEER? && x in m.addrs
  }

  /** Every message in `q` that makes its receiver look up address `a` comes after a PEER that names `a`. */
  ghost predicate Guarded(q: seq<PeerMsg>, a: Addr) {
    q == [] ||
    if q[0].PEER? && a in q[0].addrs then true
    else !q[0].HASH? && !q[0].REQ? && Guarded(q[1..], a)
  }

  lemma {:induction false} GuardedAppend(q: seq<PeerMsg>, m: PeerMsg, a: Addr)
    requires Guarded(q, a)
    requires Names(q, a) || (!m.HASH? && !m.REQ?)
    ensures Guarded(q + [m], a)
  {
    if q != [] && !(q[0].PEER? && a in q[0].addrs) {
      QueueMembers(q, q[0]);
      GuardedAppend(q[1..], m, a);
      assert (q + [m])[1..] == q[1..] + [m];
    }
  }

  /** Daemon `a`, which knows `x`, has told its peer `c`, is telling it, or is about to. */
  ghost predicate Introduced(na: Node, c: Addr, nc: Node, x: Addr)
    requires c in na.p2p.peers
  {
    x in nc.p2p.peers || na.p2p.bcastPeers || Names(na.p2p.peers[c], x)
  }

  ghost predicate PairInv(a: Addr, na: Node, c: Addr, nc: Node)
    requires c in na.p2p.peers
  {
    && (forall x :: x in na.p2p.peers.Keys + {a} && x != c ==> Introduced(na, c, nc, x))
    && (a in nc.p2p.peers || Guarded(na.p2p.peers[c], a))
  }

  /** Every address in a node's list or in a PEER it has sent is in `S`. */
  ghost predicate NamesOnly(n: Node, S: set<Addr>) {
    && n.p2p.peers.Keys <= S
    && forall c, m :: c in n.p2p.peers && m in n.p2p.peers[c] && m.PEER? ==> m.addrs <= S
  }

  // ---------------------------------------------------------------- one pair of daemons

  /** What one step of its own puts on a daemon's sockets: at most one message each, of these four. */
  lemma LocalQueue(f: Format, a: Addr, n: Node, n': Node, c: Addr) returns (m: PeerMsg)
    requires NodeInv(f, a, n) && LocalStep(f, a, n, n') && c in n.p2p.peers
    ensures c in n'.p2p.peers && (n'.p2p.peers[c] == n.p2p.peers[c] || n'.p2p.peers[c] == n.p2p.peers[c] + [m])
    ensures n'.p2p.peers[c] != n.p2p.peers[c] ==>
              || m == PEER({a} + n.p2p.peers.Keys)
              || (!n.p2p.bcastPeers && m == HASH(a, n.hashes))
              || (!n.p2p.bcastPeers && c in n.p2p.requests && m == REQ(a, n.p2p.requests[c]))
              || m.DOC?
    ensures n.p2p.bcastPeers && !n'.p2p.bcastPeers ==>
              n'.p2p.peers[c] == n.p2p.peers[c] + [m] && m == PEER({a} + n.p2p.peers.Keys)
  {
    var q := n.p2p.peers[c];
    m := PEER({a} + n.p2p.peers.Keys);
    if BcastPeersStep(a, n, n') && n.p2p.bcastPeers {
      assert n'.p2p.peers[c] == q + [m];
    } else if BcastHashesStep(a, n, n') && n.p2p.bcastHashes {
      m := HASH(a, n.hashes);
      assert n'.p2p.peers[c] == q + [m];
    } else if SendRequestsStep(a, n, n') && c in n.p2p.requests {
      m := REQ(a, n.p2p.requests[c]);
      assert n'.p2p.peers[c] == q + [m];
    } else if AnswerDbStep(n, n') && n.toP2p[0].PUT? && n.toP2p[0].addr == c {
      m := DOC(n.toP2p[0].docs);
      assert n'.p2p.peers[c] == q + [m];
    }
  }

  /** The sender takes a step of its own. */
  lemma LocalPair(f: Format, a: Addr, na: Node, na': Node, c: Addr, nc: Node)
    requires NodeInv(f, a, na) && LocalStep(f, a, na, na')
    requires c != a && c in na.p2p.peers && PairInv(a, na, c, nc)
    ensures c in na'.p2p.peers && PairInv(a, na', c, nc)
  {
    LocalNodeInv(f, a, na, na');
    var m := LocalQueue(f, a, na, na', c);
    QueuePair(a, na, na', c, nc, m);
  }

  lemma QueuePair(a: Addr, na: Node, na': Node, c: Addr, nc: Node, m: PeerMsg)
    requires c != a && c in na.p2p.peers && c in na'.p2p.peers && PairInv(a, na, c, nc)
    requires na'.p2p.peers.Keys == na.p2p.peers.Keys
    requires na'.p2p.peers[c] == na.p2p.peers[c] || na'.p2p.peers[c] == na.p2p.peers[c] + [m]
    requires na'.p2p.peers[c] != na.p2p.peers[c] && (m.HASH? || m.REQ?) ==> !na.p2p.bcastPeers
    requires na.p2p.bcastPeers ==>
               na'.p2p.bcastPeers ||
               (na'.p2p.peers[c] == na.p2p.peers[c] + [m] && m == PEER({a} + na.p2p.peers.Keys))
    ensures PairInv(a, na', c, nc)
  {
    QueueMembers(na.p2p.peers[c], m);
    assert Introduced(na, c, nc, a);
    if na'.p2p.peers[c] != na.p2p.peers[c] && a !in nc.p2p.peers {
      GuardedAppend(na.p2p.peers[c], m, a);
    }
    forall x | x in na'.p2p.peers.Keys + {a} && x != c ensures Introduced(na', c, nc, x) {
      assert Introduced(na, c, nc, x);
    }
  }

  /** The receiver takes a step: it never forgets a peer. */
  lemma GrownPair(a: Addr, na: Node, c: Addr, nc: Node, nc': Node)
    requires c in na.p2p.peers && PairInv(a, na, c, nc)
    requires nc.p2p.peers.Keys <= nc'.p2p.peers.Keys
    ensures PairInv(a, na, c, nc')
  {
    forall x | x in na.p2p.peers.Keys + {a} && x != c ensures Introduced(na, c, nc', x) {
      assert Introduced(na, c, nc, x);
    }
  }

  /** The sender receives a message from someone: what it learns it is about to tell. */
  lemma ReceivePair(f: Format, a: Addr, na: Node, m: PeerMsg, na': Node, c: Addr, nc: Node)
    requires ReceiveStep(f, a, na, m, na')
    requires c in na.p2p.peers ==> PairInv(a, na, c, nc)
    requires c in na'.p2p.peers
    ensures PairInv(a, na', c, nc)
  {
    if c in na.p2p.peers {
      assert na'.p2p.peers[c] == na.p2p.peers[c];
      forall x | x in na'.p2p.peers.Keys + {a} && x != c ensures Introduced(na', c, nc, x) {
        if x in na.p2p.peers.Keys + {a} {
          assert Introduced(na, c, nc, x);
        }
      }
    }
  }

  /** A daemon that receives a PEER knows all it names, except itself. */
  lemma ReceiveLearns(f: Format, c: Addr, n: Node, m: PeerMsg, n': Node)
    requires ReceiveStep(f, c, n, m, n')
    ensures n.p2p.peers.Keys <= n'.p2p.peers.Keys && (m.PEER? ==> m.addrs - {c} <= n'.p2p.peers.Keys)
  {
    if m.PEER? {
      forall x | x in m.addrs - {c} ensures x in n'.p2p.peers {
        assert x in n.p2p.peers || x in Fresh(c, n.p2p, m.addrs);
      }
    }
  }

  /** The oldest message from `a` to `c` is delivered. */
  lemma DeliverPair(f: Format, a: Addr, na: Node, c: Addr, nc: Node, nc': Node)
    requires c in na.p2p.peers && na.p2p.peers[c] != [] && PairInv(a, na, c, nc) && a != c
    requires ReceiveStep(f, c, nc, na.p2p.peers[c][0], nc')
    ensures PairInv(a, Taken(na, c), c, nc')
    ensures na.p2p.peers[c][0].HASH? || na.p2p.peers[c][0].REQ? ==> a in nc.p2p.peers
  {
    var q := na.p2p.peers[c];
    ReceiveLearns(f, c, nc, q[0], nc');
    forall x | x in na.p2p.peers.Keys + {a} && x != c ensures Introduced(Taken(na, c), c, nc', x) {
      assert Introduced(na, c, nc, x);
      if Names(q, x) {
        var m :| m in q && m.PEER? && x in m.addrs;
        assert m == q[0] || m in q[1..];
      }
    }
  }

  /** Another message leaves the sender. */
  lemma TakenPair(a: Addr, na: Node, dst: Addr, c: Addr, nc: Node)
    requires dst in na.p2p.peers && na.p2p.peers[dst] != []
    requires c in na.p2p.peers && c != dst && PairInv(a, na, c, nc)
    ensures PairInv(a, Taken(na, dst), c, nc)
  {
    forall x | x in na.p2p.peers.Keys + {a} && x != c ensures Introduced(Taken(na, dst), c, nc, x) {
      assert Introduced(na, c, nc, x);
    }
  }

  // ---------------------------------------------------------------- addresses stay inside

  lemma LocalNames(f: Format, a: Addr, n: Node, n': Node, S: set<Addr>)
    requires a in S && NamesOnly(n, S) && NodeInv(f, a, n) && LocalStep(f, a, n, n')
    ensures NamesOnly(n', S)
  {
    LocalNodeInv(f, a, n, n');
    forall c, m | c in n'.p2p.peers && m in n'.p2p.peers[c] && m.PEER? ensures m.addrs <= S {
      var last := LocalQueue(f, a, n, n', c);
      QueueMembers(n.p2p.peers[c], last);
    }
  }

  lemma ReceiveNames(f: Format, a: Addr, n: Node, m: PeerMsg, n': Node, S: set<Addr>)
    requires NamesOnly(n, S) && ReceiveStep(f, a, n, m, n')
    requires m.PEER? ==> m.addrs <= S
    ensures NamesOnly(n', S)
  {
  }

  lemma TakenNames(n: Node, dst: Addr, S: set<Addr>)
    requires NamesOnly(n, S) && dst in n.p2p.peers && n.p2p.peers[dst] != []
    ensures NamesOnly(Taken(n, dst), S)
    ensures n.p2p.peers[dst][0].PEER? ==> n.p2p.peers[dst][0].addrs <= S
  {
    QueueMembers(n.p2p.peers[dst], n.p2p.peers[dst][0]);
  }
}
