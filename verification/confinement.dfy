/** Nothing is made up and nothing leaks: the addresses and documents a daemon ever handles are those of its own
    connected part of the network. */
module Confinement {
  import opened Messages
  import opened Daemon
  import opened Gossip
  import opened NodeInvariant
  import opened PeerDiscovery
  import opened Safety

  /** The message lists digests of, or documents in, `T`. */
  ghost predicate MsgIn(f: Format, m: PeerMsg, T: set<Text>) {
    && (m.HASH? || m.REQ? ==> m.hashes <= f.Digests(T))
    && (m.DOC? ==> m.docs <= T)
  }

  ghost predicate QueuesIn(f: Format, n: Node, T: set<Text>) {
    forall c, m :: c in n.p2p.peers && m in n.p2p.peers[c] ==> MsgIn(f, m, T)
  }

  ghost predicate PipesIn(f: Format, n: Node, T: set<Text>) {
    && (forall g :: g in n.toDb ==> if g.GET? then g.hashes <= f.Digests(T) else g.docs <= T)
    && (forall u :: u in n.toP2p && u.PUT? ==> u.docs <= T)
  }

  ghost predicate StoreIn(f: Format, n: Node, T: set<Text>) {
    && n.store.Values <= T
    && n.hashes <= f.Digests(T)
    && (forall c :: c in n.p2p.requests ==> n.p2p.requests[c] <= f.Digests(T))
  }

  /** Everything in the hands of a daemon, or sent by it, is an address in `S`, a document in `T` or a digest of one. */
  ghost predicate NodeConfined(f: Format, n: Node, S: set<Addr>, T: set<Text>) {
    NamesOnly(n, S) && QueuesIn(f, n, T) && PipesIn(f, n, T) && StoreIn(f, n, T)
  }

  ghost predicate AllSettled(f: Format, T: set<Text>) {
    forall t :: t in T ==> f.Settled(t)
  }

  lemma StoreDigests(f: Format, n: Node, T: set<Text>)
    requires ContentAddressed(f, n) && n.store.Values <= T
    ensures n.store.Keys <= f.Digests(T)
  {
    forall h | h in n.store ensures h in f.Digests(T) {
      assert n.store[h] in n.store.Values;
    }
  }

  lemma PutIn(f: Format, n: Node, docs: set<Text>, n': Node, T: set<Text>)
    requires n.store.Values <= T && docs <= T && AllSettled(f, T)
    requires Put(f, n.store, docs, n'.store)
    ensures n'.store.Values <= T
  {
    forall h | h in n'.store ensures n'.store[h] in T {
      if StoredUnder(f, docs, h) {
        assert StoredAs(f, docs, h, n'.store[h]);
      } else {
        assert n.store[h] in n.store.Values;
      }
    }
  }

  lemma EnteredIn(f: Format, n: Node, docs: set<Text>, n': Node, T: set<Text>)
    requires n.store.Values <= T && docs <= T
    requires Entered(f, n.store, docs, n'.store)
    ensures n'.store.Values <= T
  {
    forall h | h in n'.store ensures n'.store[h] in T {
      if h !in f.Digests(docs) {
        assert n.store[h] in n.store.Values;
      }
    }
  }

  lemma LookupIn(n: Node, hs: set<Hash>, T: set<Text>)
    requires n.store.Values <= T
    ensures Lookup(n.store, hs) <= T
  {
    forall t | t in Lookup(n.store, hs) ensures t in T {
      assert t in n.store.Values;
    }
  }

  lemma LocalP2pIn(f: Format, a: Addr, n: Node, n': Node, T: set<Text>)
    requires NodeInv(f, a, n) && QueuesIn(f, n, T) && PipesIn(f, n, T) && StoreIn(f, n, T)
    requires BcastPeersStep(a, n, n') || BcastHashesStep(a, n, n') || SendRequestsStep(a, n, n') || AnswerDbStep(n, n')
    ensures QueuesIn(f, n', T) && PipesIn(f, n', T) && StoreIn(f, n', T)
  {
    QueueMembers(n.toP2p, NEW);
    forall c, m | c in n'.p2p.peers && m in n'.p2p.peers[c] ensures MsgIn(f, m, T) {
      if m !in n.p2p.peers[c] {
        assert m == PEER({a} + n.p2p.peers.Keys) || m == HASH(a, n.hashes) ||
               (c in n.p2p.requests && m == REQ(a, n.p2p.requests[c])) || (m.DOC? && m.docs == n.toP2p[0].docs);
      }
    }
  }

  lemma LocalDbIn(f: Format, a: Addr, n: Node, n': Node, T: set<Text>)
    requires NodeInv(f, a, n) && PipesIn(f, n, T) && StoreIn(f, n, T) && AllSettled(f, T)
    requires DbGetStep(n, n') || DbInsStep(f, n, n') || DbClearStep(n, n') || DbFillStep(n, n') || DbNotifyStep(n, n')
    ensures n'.p2p == n.p2p && PipesIn(f, n', T) && StoreIn(f, n', T)
  {
    if n.toDb != [] { QueueMembers(n.toDb, n.toDb[0]); }
    StoreDigests(f, n, T);
    if DbGetStep(n, n') {
      LookupIn(n, n.toDb[0].hashes, T);
    } else if DbInsStep(f, n, n') {
      var docs := Unknown(f, n.toDb[0].docs, n.hashes);
      if docs != {} { PutIn(f, n, docs, n', T); }
    } else if DbFillStep(n, n') {
      var h :| h in n.dbPc.todo && n' == n.(hashes := n.hashes + {h}, dbPc := DbFilling(n.dbPc.todo - {h}));
      assert h in n.store.Keys;
    }
  }

  lemma LocalConfined(f: Format, a: Addr, n: Node, n': Node, S: set<Addr>, T: set<Text>)
    requires NodeInv(f, a, n) && LocalStep(f, a, n, n')
    requires a in S && NodeConfined(f, n, S, T) && AllSettled(f, T)
    ensures NodeConfined(f, n', S, T)
  {
    LocalNames(f, a, n, n', S);
    if BcastPeersStep(a, n, n') || BcastHashesStep(a, n, n') || SendRequestsStep(a, n, n') || AnswerDbStep(n, n') {
      LocalP2pIn(f, a, n, n', T);
    } else {
      LocalDbIn(f, a, n, n', T);
    }
  }

  lemma ReceiveConfined(f: Format, a: Addr, n: Node, m: PeerMsg, n': Node, S: set<Addr>, T: set<Text>)
    requires ReceiveStep(f, a, n, m, n')
    requires NodeConfined(f, n, S, T) && MsgIn(f, m, T) && (m.PEER? ==> m.addrs <= S)
    ensures NodeConfined(f, n', S, T)
  {
    ReceiveNames(f, a, n, m, n', S);
    assert n'.toDb == n.toDb + AnswerPeer(f, a, n.p2p, m, n.hashes).1;
  }

  lemma TakenConfined(f: Format, n: Node, dst: Addr, S: set<Addr>, T: set<Text>)
    requires NodeConfined(f, n, S, T) && dst in n.p2p.peers && n.p2p.peers[dst] != []
    ensures NodeConfined(f, Taken(n, dst), S, T)
    ensures var m := n.p2p.peers[dst][0]; MsgIn(f, m, T) && (m.PEER? ==> m.addrs <= S)
  {
    TakenNames(n, dst, S);
    QueueMembers(n.p2p.peers[dst], n.p2p.peers[dst][0]);
  }

  lemma ConfinedMonotone(f: Format, n: Node, S: set<Addr>, T: set<Text>, T': set<Text>)
    requires NodeConfined(f, n, S, T) && T <= T'
    ensures NodeConfined(f, n, S, T')
  {
    assert f.Digests(T) <= f.Digests(T');
    forall c, m | c in n.p2p.peers && m in n.p2p.peers[c] ensures MsgIn(f, m, T') {
      assert MsgIn(f, m, T);
    }
  }

  lemma ClientConfined(f: Format, n: Node, docs: set<Text>, n': Node, S: set<Addr>, T: set<Text>)
    requires NodeConfined(f, n, S, T) && AllSettled(f, T)
    requires (AddStep(f, n, docs, n') && docs <= T) || RmStep(n, n')
    ensures NodeConfined(f, n', S, T)
  {
    if RmStep(n, n') {
      forall t | t in n'.store.Values ensures t in T {
        assert t in n.store.Values;
      }
    } else {
      EnteredIn(f, n, Unknown(f, docs, n.hashes), n', T);
    }
  }

  // ---------------------------------------------------------------- the whole network

  /** A split of the network in two: the side daemon `a` is on. */
  ghost function Side(s: System, S: set<Addr>, a: Addr): set<Addr> {
    if a in S then S else s.nodes.Keys - S
  }

  /** Each side keeps to itself. */
  ghost predicate Confined(f: Format, s: System, S: set<Addr>) {
    && AllSettled(f, Injected(s, s.nodes.Keys))
    && forall a :: a in s.nodes ==> NodeConfined(f, s.nodes[a], Side(s, S, a), Injected(s, Side(s, S, a)))
  }

  /** No daemon on one side is started with the address of one on the other. */
  ghost predicate Closed(s: System, S: set<Addr>) {
    S <= s.nodes.Keys && forall a :: a in s.nodes ==> s.nodes[a].p2p.peers.Keys <= Side(s, S, a)
  }

  lemma InjectedSubset(s: System, S: set<Addr>, S': set<Addr>)
    requires S <= S'
    ensures Injected(s, S) <= Injected(s, S')
  {
  }

  lemma InitConfined(f: Format, s: System, S: set<Addr>)
    requires Init(f, s) && Closed(s, S)
    ensures Confined(f, s, S)
  {
    forall t | t in Injected(s, s.nodes.Keys) ensures f.Settled(t) {
      var a :| a in s.injected && t in s.injected[a];
      assert InitialNode(f, a, s.nodes[a]);
    }
    forall a | a in s.nodes ensures NodeConfined(f, s.nodes[a], Side(s, S, a), Injected(s, Side(s, S, a))) {
      var n, T := s.nodes[a], Injected(s, Side(s, S, a));
      assert InitialNode(f, a, n);
      InitialNodeInv(f, a, n);
      assert n.store.Values == s.injected[a] <= T;
      StoreDigests(f, n, T);
    }
  }

  lemma LocalAllConfined(f: Format, s: System, a: Addr, s': System, S: set<Addr>)
    requires SafeInv(f, s) && Confined(f, s, S) && Local(f, s, a, s') && S <= s.nodes.Keys
    ensures Confined(f, s', S)
  {
    var T := Injected(s, Side(s, S, a));
    InjectedSubset(s, Side(s, S, a), s.nodes.Keys);
    LocalConfined(f, a, s.nodes[a], s'.nodes[a], Side(s, S, a), T);
    assert Confined(f, s', S) by {
      forall x | x in s'.nodes ensures NodeConfined(f, s'.nodes[x], Side(s', S, x), Injected(s', Side(s', S, x))) {
        assert Side(s', S, x) == Side(s, S, x) && Injected(s', Side(s, S, x)) == Injected(s, Side(s, S, x));
        assert NodeConfined(f, s.nodes[x], Side(s, S, x), Injected(s, Side(s, S, x)));
      }
      assert Injected(s', s'.nodes.Keys) == Injected(s, s.nodes.Keys);
    }
  }

  lemma DeliverEndsConfined(f: Format, s: System, src: Addr, dst: Addr, s': System, S: set<Addr>)
    requires Deliver(f, s, src, dst, s') && S <= s.nodes.Keys && s'.nodes[src] == Taken(s.nodes[src], dst)
    requires NodeConfined(f, s.nodes[src], Side(s, S, src), Injected(s, Side(s, S, src)))
    requires NodeConfined(f, s.nodes[dst], Side(s, S, dst), Injected(s, Side(s, S, dst)))
    requires src != dst
    ensures NodeConfined(f, s'.nodes[src], Side(s, S, src), Injected(s, Side(s, S, src)))
    ensures NodeConfined(f, s'.nodes[dst], Side(s, S, dst), Injected(s, Side(s, S, dst)))
  {
    var side := Side(s, S, src);
    assert dst in side && Side(s, S, dst) == side;
    TakenConfined(f, s.nodes[src], dst, side, Injected(s, side));
    ReceiveConfined(f, dst, s.nodes[dst], s.nodes[src].p2p.peers[dst][0], s'.nodes[dst], side, Injected(s, side));
  }

  lemma DeliverAllConfined(f: Format, s: System, src: Addr, dst: Addr, s': System, S: set<Addr>)
    requires Confined(f, s, S) && Deliver(f, s, src, dst, s') && S <= s.nodes.Keys
    requires src != dst && s'.nodes[src] == Taken(s.nodes[src], dst)
    ensures Confined(f, s', S)
  {
    DeliverFrame(f, s, src, dst, s');
    DeliverEndsConfined(f, s, src, dst, s', S);
    assert Injected(s', s'.nodes.Keys) == Injected(s, s.nodes.Keys);
    forall x | x in s'.nodes ensures NodeConfined(f, s'.nodes[x], Side(s', S, x), Injected(s', Side(s', S, x))) {
      assert Side(s', S, x) == Side(s, S, x) && Injected(s', Side(s, S, x)) == Injected(s, Side(s, S, x));
      assert NodeConfined(f, s.nodes[x], Side(s, S, x), Injected(s, Side(s, S, x)));
    }
  }

  /** History only grows, by what the client adds. */
  lemma ClientInjects(f: Format, s: System, a: Addr, docs: set<Text>, s': System, S: set<Addr>)
    requires ClientAdd(f, s, a, docs, s') || ClientRm(s, a, s')
    ensures Injected(s, S) <= Injected(s', S)
    ensures a in S && ClientAdd(f, s, a, docs, s') ==> docs <= Injected(s', S)
  {
    forall t | t in Injected(s, S) ensures t in Injected(s', S) {
      var y :| y in S && y in s.injected && t in s.injected[y];
      assert y in s'.injected && t in s'.injected[y];
    }
    if a in S && ClientAdd(f, s, a, docs, s') {
      assert docs <= s'.injected[a];
    }
  }

  lemma ClientSettled(f: Format, s: System, a: Addr, docs: set<Text>, s': System)
    requires s.injected.Keys == s.nodes.Keys && AllSettled(f, Injected(s, s.nodes.Keys))
    requires ClientAdd(f, s, a, docs, s') || ClientRm(s, a, s')
    ensures s'.nodes.Keys == s.nodes.Keys && AllSettled(f, Injected(s', s'.nodes.Keys))
  {
    forall t | t in Injected(s', s'.nodes.Keys) ensures f.Settled(t) {
      var x :| x in s'.nodes && x in s'.injected && t in s'.injected[x];
      assert t in Injected(s, s.nodes.Keys) || t in docs;
    }
  }

  lemma ClientNodeConfined(f: Format, s: System, a: Addr, docs: set<Text>, s': System, x: Addr, S: set<Addr>,
                           T: set<Text>,
                           T': set<Text>)
    requires ClientAdd(f, s, a, docs, s') || ClientRm(s, a, s')
    requires x in s.nodes && x in s'.nodes && NodeConfined(f, s.nodes[x], S, T) && T <= T' && AllSettled(f, T')
    requires x == a && ClientAdd(f, s, a, docs, s') ==> docs <= T'
    ensures NodeConfined(f, s'.nodes[x], S, T')
  {
    ConfinedMonotone(f, s.nodes[x], S, T, T');
    if x == a {
      ClientConfined(f, s.nodes[a], docs, s'.nodes[a], S, T');
    }
  }

  lemma ClientAllConfined(f: Format, s: System, a: Addr, docs: set<Text>, s': System, S: set<Addr>)
    requires s.injected.Keys == s.nodes.Keys && Confined(f, s, S) && S <= s.nodes.Keys
    requires ClientAdd(f, s, a, docs, s') || ClientRm(s, a, s')
    ensures Confined(f, s', S)
  {
    ClientSettled(f, s, a, docs, s');
    forall x | x in s'.nodes ensures NodeConfined(f, s'.nodes[x], Side(s', S, x), Injected(s', Side(s', S, x))) {
      var side := Side(s, S, x);
      assert Side(s', S, x) == side && x in s.nodes;
      ClientInjects(f, s, a, docs, s', side);
      InjectedSubset(s', side, s'.nodes.Keys);
      ClientNodeConfined(f, s, a, docs, s', x, side, Injected(s, side), Injected(s', side));
    }
  }

  lemma StepConfined(f: Format, s: System, s': System, S: set<Addr>)
    requires SafeInv(f, s) && Confined(f, s, S) && Step(f, s, s') && S <= s.nodes.Keys
    ensures Confined(f, s', S)
  {
    if a :| Local(f, s, a, s') {
      LocalAllConfined(f, s, a, s', S);
    } else if src, dst :| Deliver(f, s, src, dst, s') {
      DeliverKnown(f, s, src, dst, s');
      DeliverAllConfined(f, s, src, dst, s', S);
    } else if a, docs :| ClientAdd(f, s, a, docs, s') {
      ClientAllConfined(f, s, a, docs, s', S);
    } else if a :| ClientRm(s, a, s') {
      ClientAllConfined(f, s, a, {}, s', S);
    }
  }

  lemma {:induction false} RunConfined(f: Format, run: seq<System>, S: set<Addr>)
    requires Run(f, run) && Closed(run[0], S)
    ensures Confined(f, Last(run), S)
  {
    if |run| == 1 {
      InitConfined(f, run[0], S);
    } else {
      var before := run[..|run|-1];
      RunConfined(f, before, S);
      RunSafe(f, before);
      assert Step(f, run[|run|-2], run[|run|-1]);
      StepConfined(f, Last(before), Last(run), S);
    }
  }
}
