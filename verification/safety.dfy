/** The invariant of every run, removals included: each daemon's own invariant, and the state of introduction between
    every daemon and each of its peers. */
module Safety {
  import opened Messages
  import opened Daemon
  import opened Gossip
  import opened NodeInvariant
  import opened PeerDiscovery

  ghost predicate Nodes(f: Format, s: System) {
    && s.injected.Keys == s.nodes.Keys
    && forall a :: a in s.nodes ==> NodeInv(f, a, s.nodes[a]) && NamesOnly(s.nodes[a], s.nodes.Keys)
  }

  ghost predicate Pairs(s: System) {
    forall a, c :: a in s.nodes && c in s.nodes[a].p2p.peers && c in s.nodes ==>
      PairInv(a, s.nodes[a], c, s.nodes[c])
  }

  ghost predicate SafeInv(f: Format, s: System) {
    Nodes(f, s) && Pairs(s)
  }

  lemma InitSafe(f: Format, s: System)
    requires Init(f, s)
    ensures SafeInv(f, s)
  {
    forall a | a in s.nodes ensures NodeInv(f, a, s.nodes[a]) {
      InitialNodeInv(f, a, s.nodes[a]);
    }
  }

  lemma LocalSafe(f: Format, s: System, a: Addr, s': System)
    requires SafeInv(f, s) && Local(f, s, a, s')
    ensures SafeInv(f, s')
  {
    var n, n' := s.nodes[a], s'.nodes[a];
    LocalNodeInv(f, a, n, n');
    LocalNames(f, a, n, n', s.nodes.Keys);
    forall x, y | x in s'.nodes && y in s'.nodes[x].p2p.peers && y in s'.nodes
      ensures PairInv(x, s'.nodes[x], y, s'.nodes[y])
    {
      if x == a {
        LocalPair(f, a, n, n', y, s.nodes[y]);
      } else if y == a {
        GrownPair(x, s.nodes[x], a, n, n');
      }
    }
  }

  /** The message delivered is one its receiver can deal with. */
  lemma DeliverKnown(f: Format, s: System, src: Addr, dst: Addr, s': System)
    requires SafeInv(f, s) && Deliver(f, s, src, dst, s')
    ensures src != dst
    ensures var m := s.nodes[src].p2p.peers[dst][0];
            Signed(src, m) && (m.HASH? || m.REQ? ==> src in s.nodes[dst].p2p.peers)
    ensures NodeInv(f, src, s'.nodes[src]) && NodeInv(f, dst, s'.nodes[dst])
    ensures s.nodes[dst].p2p.peers.Keys <= s'.nodes[dst].p2p.peers.Keys
    ensures s'.nodes[src] == Taken(s.nodes[src], dst)
  {
    var m := s.nodes[src].p2p.peers[dst][0];
    TakenNodeInv(f, src, s.nodes[src], dst);
    DeliverPair(f, src, s.nodes[src], dst, s.nodes[dst], s'.nodes[dst]);
    ReceiveNodeInv(f, dst, s.nodes[dst], src, m, s'.nodes[dst]);
  }

  /** A delivery changes its two ends only. */
  lemma DeliverFrame(f: Format, s: System, src: Addr, dst: Addr, s': System)
    requires Deliver(f, s, src, dst, s')
    ensures s'.nodes.Keys == s.nodes.Keys && s'.injected == s.injected
    ensures forall x :: x in s.nodes && x != src && x != dst ==> s'.nodes[x] == s.nodes[x]
  {
  }

  lemma DeliverPairs(f: Format, s: System, src: Addr, dst: Addr, s': System, x: Addr, y: Addr)
    requires Deliver(f, s, src, dst, s') && src != dst
    requires s'.nodes[src] == Taken(s.nodes[src], dst)
    requires s.nodes[dst].p2p.peers.Keys <= s'.nodes[dst].p2p.peers.Keys
    requires x in s.nodes && y in s.nodes && y in s'.nodes[x].p2p.peers
    requires y in s.nodes[x].p2p.peers ==> PairInv(x, s.nodes[x], y, s.nodes[y])
    ensures PairInv(x, s'.nodes[x], y, s'.nodes[y])
  {
    var nsrc, ndst := s.nodes[src], s.nodes[dst];
    if x == src {
      if y == dst {
        DeliverPair(f, src, nsrc, dst, ndst, s'.nodes[dst]);
      } else {
        TakenPair(src, nsrc, dst, y, s.nodes[y]);
      }
    } else if x == dst {
      ReceivePair(f, dst, ndst, nsrc.p2p.peers[dst][0], s'.nodes[dst], y, s.nodes[y]);
      if y == src {
        GrownPair(dst, s'.nodes[dst], src, nsrc, s'.nodes[src]);
      }
    } else {
      GrownPair(x, s.nodes[x], y, s.nodes[y], s'.nodes[y]);
    }
  }

  lemma DeliverNodes(f: Format, s: System, src: Addr, dst: Addr, s': System)
    requires SafeInv(f, s) && Deliver(f, s, src, dst, s')
    ensures Nodes(f, s')
  {
    DeliverKnown(f, s, src, dst, s');
    DeliverFrame(f, s, src, dst, s');
    TakenNames(s.nodes[src], dst, s.nodes.Keys);
    ReceiveNames(f, dst, s.nodes[dst], s.nodes[src].p2p.peers[dst][0], s'.nodes[dst], s.nodes.Keys);
    forall x | x in s'.nodes ensures NodeInv(f, x, s'.nodes[x]) && NamesOnly(s'.nodes[x], s'.nodes.Keys) {
      if x != src && x != dst {
        assert s'.nodes[x] == s.nodes[x];
      }
    }
  }

  lemma DeliverSafe(f: Format, s: System, src: Addr, dst: Addr, s': System)
    requires SafeInv(f, s) && Deliver(f, s, src, dst, s')
    ensures SafeInv(f, s')
  {
    DeliverNodes(f, s, src, dst, s');
    DeliverKnown(f, s, src, dst, s');
    DeliverFrame(f, s, src, dst, s');
    forall x, y | x in s'.nodes && y in s'.nodes[x].p2p.peers && y in s'.nodes
      ensures PairInv(x, s'.nodes[x], y, s'.nodes[y])
    {
      DeliverPairs(f, s, src, dst, s', x, y);
    }
  }

  /** Client commands leave the p2p thread alone. */
  lemma ClientPairs(s: System, a: Addr, s': System)
    requires Pairs(s) && a in s.nodes && a in s'.nodes
    requires s'.nodes == s.nodes[a := s'.nodes[a]] && s'.nodes[a].p2p == s.nodes[a].p2p
    ensures Pairs(s')
  {
    forall x, y | x in s'.nodes && y in s'.nodes[x].p2p.peers && y in s'.nodes
      ensures PairInv(x, s'.nodes[x], y, s'.nodes[y])
    {
      assert PairInv(x, s.nodes[x], y, s.nodes[y]);
    }
  }

  lemma ClientFrame(f: Format, s: System, a: Addr, docs: set<Text>, s': System)
    requires s.injected.Keys == s.nodes.Keys && (ClientAdd(f, s, a, docs, s') || ClientRm(s, a, s'))
    ensures a in s.nodes && a in s'.nodes && s'.nodes == s.nodes[a := s'.nodes[a]]
    ensures s'.nodes.Keys == s.nodes.Keys == s'.injected.Keys
    ensures AddStep(f, s.nodes[a], docs, s'.nodes[a]) || RmStep(s.nodes[a], s'.nodes[a])
  {
  }

  lemma ClientNodes(f: Format, s: System, a: Addr, docs: set<Text>, s': System)
    requires Nodes(f, s) && (ClientAdd(f, s, a, docs, s') || ClientRm(s, a, s'))
    ensures a in s.nodes && a in s'.nodes
    ensures Nodes(f, s') && s'.nodes[a].p2p == s.nodes[a].p2p
  {
    ClientFrame(f, s, a, docs, s');
    ClientNodeInv(f, a, s.nodes[a], docs, s'.nodes[a]);
    forall x | x in s'.nodes ensures NodeInv(f, x, s'.nodes[x]) && NamesOnly(s'.nodes[x], s'.nodes.Keys) {
      if x != a {
        assert s'.nodes[x] == s.nodes[x];
      }
    }
  }

  lemma ClientSafe(f: Format, s: System, a: Addr, docs: set<Text>, s': System)
    requires SafeInv(f, s) && (ClientAdd(f, s, a, docs, s') || ClientRm(s, a, s'))
    ensures SafeInv(f, s')
  {
    ClientNodes(f, s, a, docs, s');
    ClientPairs(s, a, s');
  }

  lemma StepSafe(f: Format, s: System, s': System)
    requires SafeInv(f, s) && Step(f, s, s')
    ensures SafeInv(f, s') && s'.nodes.Keys == s.nodes.Keys
  {
    if a :| Local(f, s, a, s') {
      LocalSafe(f, s, a, s');
    } else if src, dst :| Deliver(f, s, src, dst, s') {
      DeliverSafe(f, s, src, dst, s');
    } else if a, docs :| ClientAdd(f, s, a, docs, s') {
      ClientSafe(f, s, a, docs, s');
    } else if a :| ClientRm(s, a, s') {
      ClientSafe(f, s, a, {}, s');
    }
  }

  /** The invariant holds in every state of every run. */
  lemma {:induction false} RunSafe(f: Format, run: seq<System>)
    requires Run(f, run)
    ensures SafeInv(f, Last(run)) && Last(run).nodes.Keys == run[0].nodes.Keys
  {
    if |run| == 1 {
      InitSafe(f, run[0]);
    } else {
      var before := run[..|run|-1];
      RunSafe(f, before);
      assert Step(f, run[|run|-2], run[|run|-1]);
      StepSafe(f, Last(before), Last(run));
    }
  }
}
