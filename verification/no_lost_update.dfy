/** The add-only invariant over the whole network. */
module NoLostUpdate {
  import opened Messages
  import opened Daemon
  import opened Gossip
  import opened NodeInvariant
  import opened Safety
  import opened Confinement
  import opened Origins
  import opened Updates

  /** `a` has asked of its peer `c` only what `c` has; and, if `told`, nothing it should tell `c` is lost. */
  ghost predicate Synced(f: Format, told: bool, a: Addr, na: Node, c: Addr, nc: Node) {
    Sound(na, c, nc) && (told ==> NoneLost(f, a, na, c, nc))
  }

  /** Every document that came in at a daemon is still there. */
  ghost predicate Kept(f: Format, s: System) {
    forall a :: a in s.nodes && a in s.injected ==> f.Digests(s.injected[a]) <= s.nodes[a].store.Keys
  }

  ghost predicate AllHonest(s: System) {
    forall a :: a in s.nodes ==> Honest(s.nodes[a])
  }

  /** Nothing that the daemons in `S` should tell their peers is lost. */
  ghost predicate AllSynced(f: Format, s: System, S: set<Addr>) {
    forall a, c :: a in s.nodes && c in s.nodes[a].p2p.peers && c in s.nodes ==>
      Synced(f, a in S, a, s.nodes[a], c, s.nodes[c])
  }

  ghost predicate AddInv(f: Format, s: System, S: set<Addr>) {
    AllHonest(s) && AllSynced(f, s, S)
  }

  // ---------------------------------------------------------------- one pair of daemons

  lemma SenderSynced(f: Format, told: bool, a: Addr, na: Node, na': Node, c: Addr, nc: Node)
    requires NodeInv(f, a, na) && LocalStep(f, a, na, na')
    requires c in na.p2p.peers && Synced(f, told, a, na, c, nc)
    ensures Synced(f, told, a, na', c, nc)
  {
    LocalSound(f, a, na, na', c, nc);
    forall h | told && Has(f, false, na', h) ensures Sending(f, false, na', c, h) || Receiving(f, false, nc, a, h) {
      if !Has(f, false, na, h) || Sending(f, false, na, c, h) {
        LocalSending(f, false, a, na, na', c, h);
      }
    }
  }

  lemma ReceiverSynced(f: Format, told: bool, a: Addr, na: Node, c: Addr, nc: Node, nc': Node)
    requires NodeInv(f, c, nc) && LocalStep(f, c, nc, nc') && Honest(nc)
    requires nc.toDb != [] && nc.toDb[0].INS? ==> AllSettled(f, nc.toDb[0].docs)
    requires Synced(f, told, a, na, c, nc)
    ensures Synced(f, told, a, na, c, nc')
  {
    LocalHonest(f, c, nc, nc');
    forall h | told && Has(f, false, na, h) ensures Sending(f, false, na, c, h) || Receiving(f, false, nc', a, h) {
      if !Sending(f, false, na, c, h) {
        LocalReceiving(f, false, c, nc, nc', a, h);
      }
    }
  }

  /** A client adds at the receiver, or its store grows otherwise. */
  lemma GrownSynced(f: Format, told: bool, a: Addr, na: Node, c: Addr, nc: Node, nc': Node)
    requires Synced(f, told, a, na, c, nc)
    requires nc'.p2p == nc.p2p && nc'.toDb == nc.toDb && nc.store.Keys <= nc'.store.Keys
    ensures Synced(f, told, a, na, c, nc')
  {
    forall h | told && Has(f, false, na, h) ensures Sending(f, false, na, c, h) || Receiving(f, false, nc', a, h) {
      if Receiving(f, false, nc, a, h) {
        assert Inserting(f, false, nc, h) ==> Inserting(f, false, nc', h);
      }
    }
  }

  /** The oldest message from `a` to `c` is delivered: the pair seen from `a`. */
  lemma DeliverForward(f: Format, told: bool, a: Addr, na: Node, c: Addr, nc: Node, nc': Node)
    requires c in na.p2p.peers && na.p2p.peers[c] != [] && Signed(a, na.p2p.peers[c][0]) && Honest(nc)
    requires ReceiveStep(f, c, nc, na.p2p.peers[c][0], nc')
    requires Synced(f, told, a, na, c, nc)
    ensures Synced(f, told, a, Taken(na, c), c, nc')
  {
    var m := na.p2p.peers[c][0];
    QueueMembers(na.p2p.peers[c], m);
    forall h | told && Has(f, false, na, h)
      ensures Sending(f, false, Taken(na, c), c, h) || Receiving(f, false, nc', a, h)
    {
      TakenKeeps(f, false, na, c, c, h);
      ReceiveMonotone(f, false, c, nc, m, nc', a, h);
      ReceiveNext(f, false, c, nc, a, m, nc', h);
    }
  }

  lemma DeliverBackwardTold(f: Format, a: Addr, na: Node, c: Addr, nc: Node, nc': Node, h: Hash)
    requires c in na.p2p.peers && na.p2p.peers[c] != [] && Signed(a, na.p2p.peers[c][0]) && Honest(nc)
    requires ReceiveStep(f, c, nc, na.p2p.peers[c][0], nc') && a in nc'.p2p.peers
    requires a in nc.p2p.peers ==> Sending(f, false, nc, a, h) || Receiving(f, false, na, c, h)
    requires h in nc.store
    ensures Sending(f, false, nc', a, h) || Receiving(f, false, Taken(na, c), c, h)
  {
    var m := na.p2p.peers[c][0];
    TakenKeeps(f, false, na, c, c, h);
    ReceiveMonotone(f, false, c, nc, m, nc', a, h);
    ReceiveNext(f, false, c, nc, a, m, nc', h);
  }

  /** The same delivery: the pair seen from `c`. */
  lemma DeliverBackward(f: Format, told: bool, a: Addr, na: Node, c: Addr, nc: Node, nc': Node)
    requires c in na.p2p.peers && na.p2p.peers[c] != [] && Signed(a, na.p2p.peers[c][0])
    requires Honest(na) && Honest(nc) && nc.p2p.requests.Keys <= nc.p2p.peers.Keys
    requires ReceiveStep(f, c, nc, na.p2p.peers[c][0], nc')
    requires a in nc.p2p.peers ==> Synced(f, told, c, nc, a, na)
    requires a in nc'.p2p.peers
    ensures Synced(f, told, c, nc', a, Taken(na, c))
  {
    var m := na.p2p.peers[c][0];
    QueueMembers(na.p2p.peers[c], m);
    forall h | told && Has(f, false, nc', h)
      ensures Sending(f, false, nc', a, h) || Receiving(f, false, Taken(na, c), c, h)
    {
      DeliverBackwardTold(f, a, na, c, nc, nc', h);
    }
  }

  /** A message leaves `a` for someone else than `c`. */
  lemma TakenSynced(f: Format, told: bool, a: Addr, na: Node, dst: Addr, c: Addr, nc: Node)
    requires dst in na.p2p.peers && na.p2p.peers[dst] != [] && c != dst
    ensures c in na.p2p.peers && Synced(f, told, a, na, c, nc) ==> Synced(f, told, a, Taken(na, dst), c, nc)
    ensures Synced(f, told, c, nc, a, na) ==> Synced(f, told, c, nc, a, Taken(na, dst))
  {
    forall h { TakenKeeps(f, false, na, dst, c, h); }
  }

  /** A message from someone else than `c` reaches `a`. */
  lemma ReceiveSynced(f: Format, told: bool, a: Addr, na: Node, src: Addr, m: PeerMsg, na': Node, c: Addr, nc: Node)
    requires ReceiveStep(f, a, na, m, na') && Signed(src, m) && src != c
    requires na.p2p.requests.Keys <= na.p2p.peers.Keys
    ensures c in na'.p2p.peers && (c in na.p2p.peers ==> Synced(f, told, a, na, c, nc)) ==>
            Synced(f, told, a, na', c, nc)
    ensures Synced(f, told, c, nc, a, na) ==> Synced(f, told, c, nc, a, na')
  {
    forall h { ReceiveMonotone(f, false, a, na, m, na', c, h); }
  }

  // ---------------------------------------------------------------- the whole network

  lemma InitAdd(f: Format, s: System, S: set<Addr>)
    requires Init(f, s)
    ensures AddInv(f, s, S)
  {
  }

  lemma LocalSynced(f: Format, S: set<Addr>, s: System, x: Addr, s': System, a: Addr, c: Addr)
    requires Local(f, s, x, s') && a != c && a in s.nodes && c in s.nodes && c in s.nodes[a].p2p.peers
    requires NodeInv(f, x, s.nodes[x]) && Honest(s.nodes[x])
    requires s.nodes[x].toDb != [] && s.nodes[x].toDb[0].INS? ==> AllSettled(f, s.nodes[x].toDb[0].docs)
    requires Synced(f, a in S, a, s.nodes[a], c, s.nodes[c])
    ensures Synced(f, a in S, a, s'.nodes[a], c, s'.nodes[c])
  {
    if a == x {
      SenderSynced(f, a in S, x, s.nodes[x], s'.nodes[x], c, s.nodes[c]);
    } else if c == x {
      ReceiverSynced(f, a in S, a, s.nodes[a], x, s.nodes[x], s'.nodes[x]);
    }
  }

  lemma LocalAdd(f: Format, S: set<Addr>, s: System, x: Addr, s': System)
    requires SafeInv(f, s) && AddInv(f, s, S) && Local(f, s, x, s') && Confined(f, s, s.nodes.Keys)
    ensures AddInv(f, s', S)
  {
    var n, n' := s.nodes[x], s'.nodes[x];
    LocalHonest(f, x, n, n');
    LocalNodeInv(f, x, n, n');
    InsertsSettled(f, s, x);
    forall a, c | a in s'.nodes && c in s'.nodes[a].p2p.peers && c in s'.nodes
      ensures Synced(f, a in S, a, s'.nodes[a], c, s'.nodes[c])
    {
      assert NodeInv(f, a, s.nodes[a]);
      LocalSynced(f, S, s, x, s', a, c);
    }
  }

  lemma DeliverSynced(f: Format, S: set<Addr>, s: System, src: Addr, dst: Addr, s': System, a: Addr, c: Addr)
    requires Deliver(f, s, src, dst, s') && src != dst && a != c
    requires s'.nodes[src] == Taken(s.nodes[src], dst) && Signed(src, s.nodes[src].p2p.peers[dst][0])
    requires s.nodes[dst].p2p.requests.Keys <= s.nodes[dst].p2p.peers.Keys
    requires Honest(s.nodes[src]) && Honest(s.nodes[dst])
    requires a in s.nodes && c in s.nodes && c in s'.nodes[a].p2p.peers
    requires c in s.nodes[a].p2p.peers ==> Synced(f, a in S, a, s.nodes[a], c, s.nodes[c])
    ensures Synced(f, a in S, a, s'.nodes[a], c, s'.nodes[c])
  {
    var nsrc, ndst, ndst' := s.nodes[src], s.nodes[dst], s'.nodes[dst];
    var m := nsrc.p2p.peers[dst][0];
    if a == src && c == dst {
      DeliverForward(f, a in S, src, nsrc, dst, ndst, ndst');
    } else if a == dst && c == src {
      DeliverBackward(f, a in S, src, nsrc, dst, ndst, ndst');
    } else if a == src {
      TakenSynced(f, a in S, src, nsrc, dst, c, s.nodes[c]);
    } else if a == dst {
      ReceiveSynced(f, a in S, dst, ndst, src, m, ndst', c, s.nodes[c]);
    } else if c == src {
      TakenSynced(f, a in S, src, nsrc, dst, a, s.nodes[a]);
    } else if c == dst {
      ReceiveSynced(f, a in S, dst, ndst, src, m, ndst', a, s.nodes[a]);
    }
  }

  lemma DeliverHonest(f: Format, S: set<Addr>, s: System, src: Addr, dst: Addr, s': System)
    requires SafeInv(f, s) && AddInv(f, s, S) && Deliver(f, s, src, dst, s')
    ensures Honest(s'.nodes[src]) && Honest(s'.nodes[dst])
  {
    DeliverKnown(f, s, src, dst, s');
    var q := s.nodes[src].p2p.peers[dst];
    QueueMembers(q, q[0]);
    TakenHonest(s.nodes[src], dst);
    assert Synced(f, src in S, src, s.nodes[src], dst, s.nodes[dst]);
    ReceiveHonest(f, dst, s.nodes[dst], q[0], s'.nodes[dst]);
  }

  lemma DeliverAllSynced(f: Format, S: set<Addr>, s: System, src: Addr, dst: Addr, s': System)
    requires SafeInv(f, s) && AddInv(f, s, S) && Deliver(f, s, src, dst, s')
    ensures AllSynced(f, s', S)
  {
    DeliverKnown(f, s, src, dst, s');
    DeliverNodes(f, s, src, dst, s');
    forall a, c | a in s'.nodes && c in s'.nodes[a].p2p.peers && c in s'.nodes
      ensures Synced(f, a in S, a, s'.nodes[a], c, s'.nodes[c])
    {
      assert NodeInv(f, a, s'.nodes[a]) && NodeInv(f, dst, s.nodes[dst]);
      DeliverSynced(f, S, s, src, dst, s', a, c);
    }
  }

  lemma DeliverAdd(f: Format, S: set<Addr>, s: System, src: Addr, dst: Addr, s': System)
    requires SafeInv(f, s) && AddInv(f, s, S) && Deliver(f, s, src, dst, s')
    ensures AddInv(f, s', S)
  {
    DeliverFrame(f, s, src, dst, s');
    DeliverHonest(f, S, s, src, dst, s');
    DeliverAllSynced(f, S, s, src, dst, s');
    forall a | a in s'.nodes ensures Honest(s'.nodes[a]) {
      assert a != src && a != dst ==> s'.nodes[a] == s.nodes[a];
    }
  }

  lemma ClientAddSynced(f: Format, S: set<Addr>, s: System, x: Addr, docs: set<Text>, s': System, a: Addr, c: Addr)
    requires ClientAdd(f, s, x, docs, s') && a != c
    requires a in s.nodes && c in s.nodes && c in s.nodes[a].p2p.peers
    requires Synced(f, a in S, a, s.nodes[a], c, s.nodes[c])
    ensures Synced(f, a in S + {x}, a, s'.nodes[a], c, s'.nodes[c])
  {
    if a == x {
      assert News(s'.nodes[x]);
    } else if c == x {
      GrownSynced(f, a in S, a, s.nodes[a], x, s.nodes[x], s'.nodes[x]);
    }
  }

  lemma ClientAddHonest(f: Format, s: System, x: Addr, docs: set<Text>, s': System)
    requires AllHonest(s) && ClientAdd(f, s, x, docs, s')
    ensures AllHonest(s')
  {
    var n, n' := s.nodes[x], s'.nodes[x];
    assert Honest(n) && n.store.Keys <= n'.store.Keys;
  }

  ghost predicate NoLoops(s: System) {
    forall a :: a in s.nodes ==> a !in s.nodes[a].p2p.peers
  }

  lemma SafeNoLoops(f: Format, s: System)
    requires SafeInv(f, s)
    ensures NoLoops(s) && s.injected.Keys == s.nodes.Keys
  {
    forall a | a in s.nodes ensures a !in s.nodes[a].p2p.peers {
      assert NodeInv(f, a, s.nodes[a]);
    }
  }

  /** A client's addition gives the daemon all to tell again. */
  lemma ClientAddAdd(f: Format, S: set<Addr>, s: System, x: Addr, docs: set<Text>, s': System)
    requires NoLoops(s) && AddInv(f, s, S) && ClientAdd(f, s, x, docs, s')
    ensures AddInv(f, s', S + {x})
  {
    ClientAddHonest(f, s, x, docs, s');
    forall a, c | a in s'.nodes && c in s'.nodes[a].p2p.peers && c in s'.nodes
      ensures Synced(f, a in S + {x}, a, s'.nodes[a], c, s'.nodes[c])
    {
      assert s'.nodes[a].p2p == s.nodes[a].p2p;
      ClientAddSynced(f, S, s, x, docs, s', a, c);
    }
  }

  lemma StepAdd(f: Format, S: set<Addr>, s: System, s': System)
    requires SafeInv(f, s) && AddInv(f, s, S) && Confined(f, s, s.nodes.Keys) && AddOnlyStep(f, s, s')
    ensures AddInv(f, s', S)
  {
    if a :| Local(f, s, a, s') {
      LocalAdd(f, S, s, a, s');
    } else if src, dst :| Deliver(f, s, src, dst, s') {
      DeliverAdd(f, S, s, src, dst, s');
    } else if a, docs :| ClientAdd(f, s, a, docs, s') {
      SafeNoLoops(f, s);
      ClientAddAdd(f, S, s, a, docs, s');
      FewerSynced(f, s', S, S + {a});
    }
  }

  lemma FewerSynced(f: Format, s: System, S: set<Addr>, S': set<Addr>)
    requires AddInv(f, s, S') && S <= S'
    ensures AddInv(f, s, S)
  {
    forall a, c | a in s.nodes && c in s.nodes[a].p2p.peers && c in s.nodes
      ensures Synced(f, a in S, a, s.nodes[a], c, s.nodes[c])
    {
      assert Synced(f, a in S', a, s.nodes[a], c, s.nodes[c]);
    }
  }

  lemma AddOnlyIsRun(f: Format, run: seq<System>)
    requires AddOnlyRun(f, run)
    ensures Run(f, run)
  {
  }

  /** What has come in only grows. */
  lemma StepInjects(f: Format, s: System, s': System)
    requires s.injected.Keys == s.nodes.Keys && Step(f, s, s')
    ensures s'.nodes.Keys == s.nodes.Keys && Injected(s, s.nodes.Keys) <= Injected(s', s'.nodes.Keys)
    ensures ProtocolStep(f, s, s') ==> s'.injected == s.injected
  {
    forall t | t in Injected(s, s.nodes.Keys) ensures t in Injected(s', s'.nodes.Keys) {
      var y :| y in s.nodes && y in s.injected && t in s.injected[y];
      assert y in s'.injected && t in s'.injected[y];
    }
  }

  ghost predicate AddOnlySteps(f: Format, run: seq<System>) {
    run != [] && forall i :: 0 <= i < |run| - 1 ==> AddOnlyStep(f, run[i], run[i+1])
  }

  /** The invariant is kept from wherever it holds. */
  lemma {:induction false} AddFrom(f: Format, S: set<Addr>, run: seq<System>)
    requires AddOnlySteps(f, run)
    requires SafeInv(f, run[0]) && Confined(f, run[0], run[0].nodes.Keys) && AddInv(f, run[0], S)
    ensures SafeInv(f, Last(run)) && Last(run).nodes.Keys == run[0].nodes.Keys
    ensures Confined(f, Last(run), run[0].nodes.Keys) && AddInv(f, Last(run), S)
  {
    if |run| > 1 {
      var before := run[..|run|-1];
      AddFrom(f, S, before);
      assert AddOnlyStep(f, run[|run|-2], run[|run|-1]);
      StepAdd(f, S, Last(before), Last(run));
      StepConfined(f, Last(before), Last(run), run[0].nodes.Keys);
      StepSafe(f, Last(before), Last(run));
    }
  }

  lemma RunAdd(f: Format, run: seq<System>)
    requires AddOnlyRun(f, run)
    ensures AddInv(f, Last(run), Last(run).nodes.Keys)
  {
    var s := run[0];
    InitSafe(f, s);
    assert Closed(s, s.nodes.Keys);
    InitConfined(f, s, s.nodes.Keys);
    InitAdd(f, s, s.nodes.Keys);
    AddFrom(f, s.nodes.Keys, run);
  }

  // ---------------------------------------------------------------- nothing is taken back

  /** A daemon keeps the keys it has, and an author under each that has one. */
  ghost predicate Grown(f: Format, n: Node, n': Node) {
    n.store.Keys <= n'.store.Keys && forall h :: Has(f, false, n, h) ==> Has(f, false, n', h)
  }

  lemma LocalGrows(f: Format, a: Addr, n: Node, n': Node)
    requires LocalStep(f, a, n, n')
    requires n.toDb != [] && n.toDb[0].INS? ==> AllSettled(f, n.toDb[0].docs)
    ensures Grown(f, n, n')
  {
    if DbInsStep(f, n, n') {
      var docs := Unknown(f, n.toDb[0].docs, n.hashes);
      forall h | Has(f, false, n, h) ensures Has(f, false, n', h) {
        if docs != {} && StoredUnder(f, docs, h) {
          assert StoredAs(f, docs, h, n'.store[h]);
          var d :| d in docs && f.author(d) != "" && n'.store[h] == f.canon(d);
          assert d in n.toDb[0].docs && f.Settled(d);
        }
      }
    }
  }

  lemma AddGrows(f: Format, n: Node, docs: set<Text>, n': Node)
    requires AddStep(f, n, docs, n') && Cache(n)
    ensures Grown(f, n, n')
  {
  }

  lemma DeliverStores(f: Format, s: System, src: Addr, dst: Addr, s': System, a: Addr)
    requires Deliver(f, s, src, dst, s') && src != dst && s'.nodes[src] == Taken(s.nodes[src], dst) && a in s.nodes
    ensures a in s'.nodes && s'.nodes[a].store == s.nodes[a].store
  {
    DeliverFrame(f, s, src, dst, s');
  }

  lemma DeliverKeepsStores(f: Format, s: System, src: Addr, dst: Addr, s': System, a: Addr)
    requires SafeInv(f, s) && Deliver(f, s, src, dst, s') && a in s.nodes
    ensures a in s'.nodes && s'.nodes[a].store == s.nodes[a].store
  {
    DeliverKnown(f, s, src, dst, s');
    DeliverStores(f, s, src, dst, s', a);
  }

  lemma LocalStepGrows(f: Format, s: System, x: Addr, s': System, a: Addr)
    requires Local(f, s, x, s') && a in s.nodes
    requires s.nodes[x].toDb != [] && s.nodes[x].toDb[0].INS? ==> AllSettled(f, s.nodes[x].toDb[0].docs)
    ensures a in s'.nodes && Grown(f, s.nodes[a], s'.nodes[a])
  {
    if x == a { LocalGrows(f, a, s.nodes[a], s'.nodes[a]); }
  }

  lemma ClientStepGrows(f: Format, s: System, x: Addr, docs: set<Text>, s': System, a: Addr)
    requires ClientAdd(f, s, x, docs, s') && a in s.nodes && Cache(s.nodes[x])
    ensures a in s'.nodes && Grown(f, s.nodes[a], s'.nodes[a])
  {
    if x == a { AddGrows(f, s.nodes[a], docs, s'.nodes[a]); }
  }

  lemma StepGrows(f: Format, s: System, s': System, a: Addr)
    requires SafeInv(f, s) && Confined(f, s, s.nodes.Keys) && AddOnlyStep(f, s, s') && a in s.nodes
    ensures a in s'.nodes && Grown(f, s.nodes[a], s'.nodes[a])
  {
    if x :| Local(f, s, x, s') {
      InsertsSettled(f, s, x);
      LocalStepGrows(f, s, x, s', a);
    } else if src, dst :| Deliver(f, s, src, dst, s') {
      DeliverKeepsStores(f, s, src, dst, s', a);
    } else if x, docs :| ClientAdd(f, s, x, docs, s') {
      assert NodeInv(f, x, s.nodes[x]);
      ClientStepGrows(f, s, x, docs, s', a);
    }
  }

  lemma ClientAddKept(f: Format, s: System, x: Addr, docs: set<Text>, s': System)
    requires Kept(f, s) && ClientAdd(f, s, x, docs, s') && NodeInv(f, x, s.nodes[x])
    ensures Kept(f, s')
  {
    var n, n' := s.nodes[x], s'.nodes[x];
    forall h | h in f.Digests(s'.injected[x]) ensures h in n'.store {
      var t :| t in s'.injected[x] && f.sha(t) == h;
      if t in s.injected[x] {
        assert h in f.Digests(s.injected[x]);
      } else if h !in n.hashes {
        assert t in Unknown(f, docs, n.hashes);
      }
    }
  }

  lemma StepKept(f: Format, s: System, s': System)
    requires SafeInv(f, s) && Confined(f, s, s.nodes.Keys) && Kept(f, s) && AddOnlyStep(f, s, s')
    ensures Kept(f, s')
  {
    if a, docs :| ClientAdd(f, s, a, docs, s') {
      assert NodeInv(f, a, s.nodes[a]);
      ClientAddKept(f, s, a, docs, s');
    } else {
      StepInjects(f, s, s');
      forall a | a in s'.nodes && a in s'.injected ensures f.Digests(s'.injected[a]) <= s'.nodes[a].store.Keys {
        StepGrows(f, s, s', a);
      }
    }
  }

  lemma InitKept(f: Format, s: System)
    requires Init(f, s)
    ensures Kept(f, s)
  {
    forall a | a in s.nodes ensures f.Digests(s.injected[a]) <= s.nodes[a].store.Keys {
      var n := s.nodes[a];
      assert InitialNode(f, a, n);
      forall h | h in f.Digests(s.injected[a]) ensures h in n.store {
        var t :| t in s.injected[a] && f.sha(t) == h;
        var k :| k in n.store && n.store[k] == t;
      }
    }
  }

  /** While clients only add, every document that came in at a daemon stays there. */
  lemma {:induction false} RunKept(f: Format, run: seq<System>)
    requires AddOnlyRun(f, run)
    ensures Kept(f, Last(run))
  {
    if |run| == 1 {
      InitKept(f, run[0]);
    } else {
      var before := run[..|run|-1];
      RunKept(f, before);
      AddOnlyIsRun(f, before);
      RunSafe(f, before);
      RunConfined(f, before, run[0].nodes.Keys);
      assert AddOnlyStep(f, run[|run|-2], run[|run|-1]);
      StepKept(f, Last(before), Last(run));
    }
  }
}
