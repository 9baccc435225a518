/** What holds between two daemons that know each other in every run, removals and documents without author
    included: unless one has everything the other has, one of them still has something to tell.  So at rest the
    databases of a connected part form a chain. */
module Chains {
  import opened Messages
  import opened Daemon
  import opened Gossip
  import opened NodeInvariant
  import opened Safety
  import opened Updates
  import opened NoLostUpdate
  import opened Convergence

  /** `h`, which `a` has, is at its peer `c`, or work that would bring it there is pending. */
  ghost predicate Underway(f: Format, a: Addr, na: Node, c: Addr, nc: Node, h: Hash) {
    Sending(f, true, na, c, h) || Receiving(f, true, nc, a, h)
  }

  /** Of two digests, one at each, at least one is underway to the other. */
  ghost predicate Engaged(f: Format, a: Addr, na: Node, c: Addr, nc: Node) {
    forall h, k :: h in na.store && k in nc.store ==>
      Underway(f, a, na, c, nc, h) || Underway(f, c, nc, a, na, k)
  }

  // ---------------------------------------------------------------- one pair of daemons

  lemma Mutual(f: Format, a: Addr, na: Node, c: Addr, nc: Node)
    requires Engaged(f, a, na, c, nc)
    ensures Engaged(f, c, nc, a, na)
  {
  }

  lemma LocalUnderway(f: Format, a: Addr, na: Node, na': Node, c: Addr, nc: Node, h: Hash, k: Hash)
    requires NodeInv(f, a, na) && LocalStep(f, a, na, na') && c in na.p2p.peers && Engaged(f, a, na, c, nc)
    requires h in na'.store && k in nc.store
    ensures Underway(f, a, na', c, nc, h) || Underway(f, c, nc, a, na', k)
  {
    if h !in na.store || Sending(f, true, na, c, h) {
      LocalSending(f, true, a, na, na', c, h);
    } else if Receiving(f, true, na, c, k) {
      LocalReceiving(f, true, a, na, na', c, k);
    }
  }

  lemma LocalEngaged(f: Format, a: Addr, na: Node, na': Node, c: Addr, nc: Node)
    requires NodeInv(f, a, na) && LocalStep(f, a, na, na') && c in na.p2p.peers && Engaged(f, a, na, c, nc)
    ensures Engaged(f, a, na', c, nc)
  {
    forall h, k | h in na'.store && k in nc.store
      ensures Underway(f, a, na', c, nc, h) || Underway(f, c, nc, a, na', k)
    {
      LocalUnderway(f, a, na, na', c, nc, h, k);
    }
  }

  /** The oldest message from `a` reaches `c`, which may know `a` from this message only. */
  lemma DeliverEngaged(f: Format, a: Addr, na: Node, c: Addr, nc: Node, nc': Node)
    requires c in na.p2p.peers && na.p2p.peers[c] != [] && Signed(a, na.p2p.peers[c][0]) && Cache(nc)
    requires ReceiveStep(f, c, nc, na.p2p.peers[c][0], nc') && a in nc'.p2p.peers
    requires a in nc.p2p.peers ==> Engaged(f, a, na, c, nc)
    ensures Engaged(f, a, Taken(na, c), c, nc')
  {
    var m := na.p2p.peers[c][0];
    forall h, k | h in na.store && k in nc.store
      ensures Underway(f, a, Taken(na, c), c, nc', h) || Underway(f, c, nc', a, Taken(na, c), k)
    {
      TakenKeeps(f, true, na, c, c, h);
      TakenKeeps(f, true, na, c, c, k);
      ReceiveMonotone(f, true, c, nc, m, nc', a, h);
      ReceiveMonotone(f, true, c, nc, m, nc', a, k);
      ReceiveNext(f, true, c, nc, a, m, nc', h);
      ReceiveNext(f, true, c, nc, a, m, nc', k);
    }
  }

  /** A message leaves `a` for someone else than `c`. */
  lemma TakenEngaged(f: Format, a: Addr, na: Node, dst: Addr, c: Addr, nc: Node)
    requires dst in na.p2p.peers && na.p2p.peers[dst] != [] && c != dst && Engaged(f, a, na, c, nc)
    ensures Engaged(f, a, Taken(na, dst), c, nc)
  {
    forall h { TakenKeeps(f, true, na, dst, c, h); }
  }

  /** A message from someone else than `c` reaches `a`, which may learn of `c` from it. */
  lemma ReceiveEngaged(f: Format, a: Addr, na: Node, m: PeerMsg, na': Node, c: Addr, nc: Node)
    requires ReceiveStep(f, a, na, m, na') && c in na'.p2p.peers && (c in na.p2p.peers ==> Engaged(f, a, na, c, nc))
    ensures Engaged(f, a, na', c, nc)
  {
    forall h { ReceiveMonotone(f, true, a, na, m, na', c, h); }
  }

  lemma NewsEngaged(f: Format, a: Addr, na: Node, c: Addr, nc: Node)
    requires News(na)
    ensures Engaged(f, a, na, c, nc)
  {
  }

  // ---------------------------------------------------------------- the whole network

  ghost predicate AllEngaged(f: Format, s: System) {
    forall a, c :: a in s.nodes && c in s.nodes[a].p2p.peers && c in s.nodes && a in s.nodes[c].p2p.peers ==>
      Engaged(f, a, s.nodes[a], c, s.nodes[c])
  }

  lemma LocalPairEngaged(f: Format, s: System, x: Addr, s': System, a: Addr, c: Addr)
    requires Local(f, s, x, s') && a != c && a in s.nodes && c in s.nodes && NodeInv(f, x, s.nodes[x])
    requires c in s.nodes[a].p2p.peers && a in s.nodes[c].p2p.peers && Engaged(f, a, s.nodes[a], c, s.nodes[c])
    ensures Engaged(f, a, s'.nodes[a], c, s'.nodes[c])
  {
    if a == x {
      LocalEngaged(f, x, s.nodes[x], s'.nodes[x], c, s.nodes[c]);
    } else if c == x {
      Mutual(f, a, s.nodes[a], x, s.nodes[x]);
      LocalEngaged(f, x, s.nodes[x], s'.nodes[x], a, s.nodes[a]);
    }
  }

  lemma LocalAllEngaged(f: Format, s: System, x: Addr, s': System)
    requires NoLoops(s) && AllEngaged(f, s) && Local(f, s, x, s') && NodeInv(f, x, s.nodes[x])
    ensures AllEngaged(f, s')
  {
    LocalNodeInv(f, x, s.nodes[x], s'.nodes[x]);
    forall a, c | a in s'.nodes && c in s'.nodes[a].p2p.peers && c in s'.nodes && a in s'.nodes[c].p2p.peers
      ensures Engaged(f, a, s'.nodes[a], c, s'.nodes[c])
    {
      assert s'.nodes[a].p2p.peers.Keys == s.nodes[a].p2p.peers.Keys;
      assert s'.nodes[c].p2p.peers.Keys == s.nodes[c].p2p.peers.Keys;
      LocalPairEngaged(f, s, x, s', a, c);
    }
  }

  /** One direction of every pair a delivery can touch. */
  lemma DeliverPairEngaged(f: Format, s: System, src: Addr, dst: Addr, s': System, a: Addr, c: Addr)
    requires Deliver(f, s, src, dst, s') && src != dst && a != c && a in s.nodes && c in s.nodes
    requires s'.nodes[src] == Taken(s.nodes[src], dst) && Signed(src, s.nodes[src].p2p.peers[dst][0])
    requires Cache(s.nodes[dst]) && c in s'.nodes[a].p2p.peers && a in s'.nodes[c].p2p.peers
    requires c in s.nodes[a].p2p.peers && a in s.nodes[c].p2p.peers ==> Engaged(f, a, s.nodes[a], c, s.nodes[c])
    requires a == src || (a == dst && c != src)
    ensures Engaged(f, a, s'.nodes[a], c, s'.nodes[c])
  {
    if a == src && c == dst {
      DeliverEngaged(f, src, s.nodes[src], dst, s.nodes[dst], s'.nodes[dst]);
    } else if a == src {
      TakenEngaged(f, src, s.nodes[src], dst, c, s.nodes[c]);
    } else {
      ReceiveEngaged(f, dst, s.nodes[dst], s.nodes[src].p2p.peers[dst][0], s'.nodes[dst], c, s.nodes[c]);
    }
  }

  lemma DeliverAllEngaged(f: Format, s: System, src: Addr, dst: Addr, s': System)
    requires NoLoops(s) && NoLoops(s') && AllEngaged(f, s) && Deliver(f, s, src, dst, s') && src != dst
    requires s'.nodes[src] == Taken(s.nodes[src], dst) && Signed(src, s.nodes[src].p2p.peers[dst][0])
    requires Cache(s.nodes[dst])
    ensures AllEngaged(f, s')
  {
    DeliverFrame(f, s, src, dst, s');
    forall a, c | a in s'.nodes && c in s'.nodes[a].p2p.peers && c in s'.nodes && a in s'.nodes[c].p2p.peers
      ensures Engaged(f, a, s'.nodes[a], c, s'.nodes[c])
    {
      if a == src || (a == dst && c != src) {
        DeliverPairEngaged(f, s, src, dst, s', a, c);
      } else if c == src || c == dst {
        if a in s.nodes[c].p2p.peers && c in s.nodes[a].p2p.peers { Mutual(f, a, s.nodes[a], c, s.nodes[c]); }
        DeliverPairEngaged(f, s, src, dst, s', c, a);
        Mutual(f, c, s'.nodes[c], a, s'.nodes[a]);
      }
    }
  }

  lemma ClientAllEngaged(f: Format, s: System, x: Addr, docs: set<Text>, s': System)
    requires AllEngaged(f, s) && s.injected.Keys == s.nodes.Keys && (ClientAdd(f, s, x, docs, s') || ClientRm(s, x, s'))
    ensures AllEngaged(f, s')
  {
    ClientFrame(f, s, x, docs, s');
    assert News(s'.nodes[x]);
    forall a, c | a in s'.nodes && c in s'.nodes[a].p2p.peers && c in s'.nodes && a in s'.nodes[c].p2p.peers
      ensures Engaged(f, a, s'.nodes[a], c, s'.nodes[c])
    {
      if a == x {
        NewsEngaged(f, a, s'.nodes[a], c, s'.nodes[c]);
      } else if c == x {
        NewsEngaged(f, c, s'.nodes[c], a, s'.nodes[a]);
        Mutual(f, c, s'.nodes[c], a, s'.nodes[a]);
      }
    }
  }

  lemma SafeNode(f: Format, s: System, x: Addr)
    requires SafeInv(f, s) && x in s.nodes
    ensures NodeInv(f, x, s.nodes[x])
  {
  }

  lemma DeliverReady(f: Format, s: System, src: Addr, dst: Addr, s': System)
    requires SafeInv(f, s) && Deliver(f, s, src, dst, s')
    ensures src != dst && Cache(s.nodes[dst])
    ensures s'.nodes[src] == Taken(s.nodes[src], dst) && Signed(src, s.nodes[src].p2p.peers[dst][0])
  {
    SafeNode(f, s, dst);
    DeliverKnown(f, s, src, dst, s');
  }

  lemma StepEngaged(f: Format, s: System, s': System)
    requires SafeInv(f, s) && NoLoops(s) && NoLoops(s') && AllEngaged(f, s) && Step(f, s, s')
    ensures AllEngaged(f, s')
  {
    assert s.injected.Keys == s.nodes.Keys;
    if x :| Local(f, s, x, s') {
      SafeNode(f, s, x);
      LocalAllEngaged(f, s, x, s');
    } else if src, dst :| Deliver(f, s, src, dst, s') {
      DeliverReady(f, s, src, dst, s');
      DeliverAllEngaged(f, s, src, dst, s');
    } else if x, docs :| ClientAdd(f, s, x, docs, s') {
      ClientAllEngaged(f, s, x, docs, s');
    } else if x :| ClientRm(s, x, s') {
      ClientAllEngaged(f, s, x, {}, s');
    }
  }

  lemma {:induction false} RunEngaged(f: Format, run: seq<System>)
    requires Run(f, run)
    ensures AllEngaged(f, Last(run))
  {
    if |run| == 1 {
      forall a, c | a in run[0].nodes && c in run[0].nodes ensures Engaged(f, a, run[0].nodes[a], c, run[0].nodes[c]) {
        NewsEngaged(f, a, run[0].nodes[a], c, run[0].nodes[c]);
      }
    } else {
      var before := run[..|run|-1];
      RunEngaged(f, before);
      RunSafe(f, before);
      SafeNoLoops(f, Last(before));
      assert NoLoops(Last(run)) by {
        RunSafe(f, run);
        SafeNoLoops(f, Last(run));
      }
      assert Step(f, run[|run|-2], run[|run|-1]);
      StepEngaged(f, Last(before), Last(run));
    }
  }

  // ---------------------------------------------------------------- at rest

  lemma QuietEngaged(f: Format, a: Addr, na: Node, c: Addr, nc: Node)
    requires NodeInv(f, a, na) && NodeInv(f, c, nc) && Quiet(na) && Quiet(nc)
    requires c in na.p2p.peers && a in nc.p2p.peers && Engaged(f, a, na, c, nc)
    ensures na.store.Keys <= nc.store.Keys || nc.store.Keys <= na.store.Keys
  {
    assert !News(na) && !News(nc) && na.p2p.requests == map[] && nc.p2p.requests == map[];
    if h :| h in na.store && h !in nc.store {
      forall k | k in nc.store ensures k in na.store {
        assert !Underway(f, a, na, c, nc, h);
        assert Underway(f, c, nc, a, na, k);
      }
    }
  }

  lemma QuietPairChain(f: Format, s: System, a: Addr, b: Addr)
    requires SafeInv(f, s) && AllEngaged(f, s) && Quiescent(s) && Knows(s, a, b) && Knows(s, b, a)
    ensures s.nodes[a].store.Keys <= s.nodes[b].store.Keys || s.nodes[b].store.Keys <= s.nodes[a].store.Keys
  {
    assert NodeInv(f, a, s.nodes[a]) && NodeInv(f, b, s.nodes[b]);
    QuietEngaged(f, a, s.nodes[a], b, s.nodes[b]);
  }

  /** At rest, in every run, of any two databases in one connected part one contains the other, by digest. */
  lemma ChainAtRest(f: Format, run: seq<System>, a: Addr, b: Addr)
    requires Run(f, run) && Quiescent(Last(run)) && a in run[0].nodes && b in Component(run[0], a)
    ensures a in Last(run).nodes && b in Last(run).nodes
    ensures Last(run).nodes[a].store.Keys <= Last(run).nodes[b].store.Keys ||
            Last(run).nodes[b].store.Keys <= Last(run).nodes[a].store.Keys
  {
    PeersAtRest(f, run, a);
    if b != a {
      assert Knows(Last(run), a, b);
      RunSafe(f, run);
      QuietKnows(f, Last(run), a, b, a);
      RunEngaged(f, run);
      QuietPairChain(f, Last(run), a, b);
    } else {
      RunSafe(f, run);
    }
  }
}
