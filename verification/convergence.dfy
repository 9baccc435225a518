/** What the network has come to when it is quiet: all daemons of a connected part of the start-up graph know each
    other and, if clients only added, hold the same documents: all that came in anywhere in that part. */
module Convergence {
  import opened Messages
  import opened Daemon
  import opened Gossip
  import opened NodeInvariant
  import opened PeerDiscovery
  import opened Safety
  import opened Confinement
  import opened Origins
  import opened Updates
  import opened NoLostUpdate

  // ---------------------------------------------------------------- the start-up graph

  ghost predicate Linked(s: System, a: Addr, b: Addr) {
    && a in s.nodes && b in s.nodes
    && (b in s.nodes[a].p2p.peers || a in s.nodes[b].p2p.peers)
  }

  ghost predicate Path(s: System, p: seq<Addr>) {
    && p != [] && p[0] in s.nodes
    && forall i :: 0 <= i < |p| - 1 ==> Linked(s, p[i], p[i+1])
  }

  ghost predicate Connected(s: System, a: Addr, b: Addr) {
    exists p :: Path(s, p) && p[0] == a && p[|p|-1] == b
  }

  ghost function Component(s: System, a: Addr): set<Addr> {
    set b | b in s.nodes && Connected(s, a, b)
  }

  lemma Extend(s: System, a: Addr, b: Addr, c: Addr)
    requires Connected(s, a, b) && Linked(s, b, c)
    ensures Connected(s, a, c)
  {
    var p :| Path(s, p) && p[0] == a && p[|p|-1] == b;
    assert Path(s, p + [c]);
  }

  lemma ComponentClosed(s: System, a: Addr)
    requires a in s.nodes && forall x :: x in s.nodes ==> s.nodes[x].p2p.peers.Keys <= s.nodes.Keys
    ensures Closed(s, Component(s, a)) && a in Component(s, a)
  {
    assert Path(s, [a]);
    forall x, y | x in s.nodes && y in s.nodes[x].p2p.peers
      ensures x in Component(s, a) <==> y in Component(s, a)
    {
      if Connected(s, a, x) { Extend(s, a, x, y); }
      if Connected(s, a, y) { Extend(s, a, y, x); }
    }
  }

  // ---------------------------------------------------------------- peers

  lemma LocalPeersGrow(f: Format, s: System, x: Addr, s': System, a: Addr)
    requires Local(f, s, x, s') && NodeInv(f, x, s.nodes[x]) && a in s.nodes
    ensures a in s'.nodes && s.nodes[a].p2p.peers.Keys <= s'.nodes[a].p2p.peers.Keys
  {
    LocalNodeInv(f, x, s.nodes[x], s'.nodes[x]);
  }

  lemma DeliverPeersGrow(f: Format, s: System, src: Addr, dst: Addr, s': System, a: Addr)
    requires SafeInv(f, s) && Deliver(f, s, src, dst, s') && a in s.nodes
    ensures a in s'.nodes && s.nodes[a].p2p.peers.Keys <= s'.nodes[a].p2p.peers.Keys
  {
    DeliverKnown(f, s, src, dst, s');
    DeliverFrame(f, s, src, dst, s');
  }

  lemma ClientPeersGrow(f: Format, s: System, x: Addr, docs: set<Text>, s': System, a: Addr)
    requires (ClientAdd(f, s, x, docs, s') || ClientRm(s, x, s')) && a in s.nodes
    ensures a in s'.nodes && s.nodes[a].p2p.peers.Keys <= s'.nodes[a].p2p.peers.Keys
  {
  }

  lemma StepPeersGrow(f: Format, s: System, s': System, a: Addr)
    requires SafeInv(f, s) && Step(f, s, s') && a in s.nodes
    ensures a in s'.nodes && s.nodes[a].p2p.peers.Keys <= s'.nodes[a].p2p.peers.Keys
  {
    if x :| Local(f, s, x, s') {
      LocalPeersGrow(f, s, x, s', a);
    } else if src, dst :| Deliver(f, s, src, dst, s') {
      DeliverPeersGrow(f, s, src, dst, s', a);
    } else if x, docs :| ClientAdd(f, s, x, docs, s') {
      ClientPeersGrow(f, s, x, docs, s', a);
    } else if x :| ClientRm(s, x, s') {
      ClientPeersGrow(f, s, x, {}, s', a);
    }
  }

  /** No daemon ever forgets a peer. */
  lemma {:induction false} RunPeersGrow(f: Format, run: seq<System>, a: Addr)
    requires Run(f, run) && a in run[0].nodes
    ensures a in Last(run).nodes
    ensures run[0].nodes[a].p2p.peers.Keys <= Last(run).nodes[a].p2p.peers.Keys
  {
    if |run| > 1 {
      var before := run[..|run|-1];
      RunPeersGrow(f, before, a);
      RunSafe(f, before);
      assert Step(f, run[|run|-2], run[|run|-1]);
      StepPeersGrow(f, Last(before), Last(run), a);
    }
  }

  ghost predicate Knows(s: System, a: Addr, b: Addr) {
    a in s.nodes && b in s.nodes[a].p2p.peers
  }

  /** When all is quiet, to know is mutual and passes from peer to peer. */
  lemma QuietKnows(f: Format, s: System, a: Addr, c: Addr, x: Addr)
    requires SafeInv(f, s) && Quiescent(s) && Knows(s, a, c)
    requires x != c && (x == a || Knows(s, a, x))
    ensures Knows(s, c, x)
  {
    assert NodeInv(f, a, s.nodes[a]) && NamesOnly(s.nodes[a], s.nodes.Keys);
    assert Quiet(s.nodes[a]) && PairInv(a, s.nodes[a], c, s.nodes[c]);
    assert Introduced(s.nodes[a], c, s.nodes[c], x);
  }

  lemma {:induction false} PathKnows(f: Format, s0: System, s: System, p: seq<Addr>)
    requires SafeInv(f, s) && Quiescent(s) && Path(s0, p) && s0.nodes.Keys == s.nodes.Keys
    requires forall a, b :: Knows(s0, a, b) ==> Knows(s, a, b)
    ensures p[0] == p[|p|-1] || Knows(s, p[0], p[|p|-1])
  {
    if |p| > 1 {
      var before := p[..|p|-1];
      PathKnows(f, s0, s, before);
      var a, b, c := p[0], p[|p|-2], p[|p|-1];
      assert Linked(s0, b, c) && before[|before|-1] == b;
      assert Knows(s0, b, c) || Knows(s0, c, b);
      assert NodeInv(f, b, s.nodes[b]) && NodeInv(f, c, s.nodes[c]);
      if !Knows(s, b, c) { QuietKnows(f, s, c, b, c); }
      if a != b && a != c {
        QuietKnows(f, s, a, b, a);
        QuietKnows(f, s, b, a, c);
      }
    }
  }

  lemma PeersReached(f: Format, run: seq<System>, a: Addr, b: Addr)
    requires Run(f, run) && Quiescent(Last(run)) && SafeInv(f, Last(run))
    requires run[0].nodes.Keys == Last(run).nodes.Keys && b in Component(run[0], a) && b != a
    ensures Knows(Last(run), a, b)
  {
    var s0, s := run[0], Last(run);
    var p :| Path(s0, p) && p[0] == a && p[|p|-1] == b;
    forall x, y | Knows(s0, x, y) ensures Knows(s, x, y) {
      RunPeersGrow(f, run, x);
    }
    PathKnows(f, s0, s, p);
  }

  lemma PeersWithin(f: Format, run: seq<System>, a: Addr)
    requires Run(f, run) && a in run[0].nodes
    ensures a in Last(run).nodes && Last(run).nodes[a].p2p.peers.Keys <= Component(run[0], a) - {a}
  {
    var s0, s := run[0], Last(run);
    assert a in s.nodes && NodeInv(f, a, s.nodes[a]) by { RunSafe(f, run); }
    ComponentClosed(s0, a);
    RunConfined(f, run, Component(s0, a));
    assert NodeConfined(f, s.nodes[a], Side(s, Component(s0, a), a), Injected(s, Side(s, Component(s0, a), a)));
  }

  /** Peer discovery: in every run, removals included, once all is quiet a daemon's peers are exactly the other
      daemons of its connected part of the start-up graph. */
  lemma PeersAtRest(f: Format, run: seq<System>, a: Addr)
    requires Run(f, run) && Quiescent(Last(run)) && a in run[0].nodes
    ensures a in Last(run).nodes
    ensures Last(run).nodes[a].p2p.peers.Keys == Component(run[0], a) - {a}
  {
    PeersWithin(f, run, a);
    forall b | b in Component(run[0], a) && b != a ensures Knows(Last(run), a, b) {
      RunSafe(f, run);
      PeersReached(f, run, a, b);
    }
  }

  // ---------------------------------------------------------------- documents

  lemma QuietPair(f: Format, a: Addr, na: Node, c: Addr, nc: Node, h: Hash)
    requires NodeInv(f, a, na) && NodeInv(f, c, nc) && Quiet(na) && Quiet(nc)
    requires c in na.p2p.peers && NoneLost(f, a, na, c, nc) && Has(f, false, na, h)
    ensures h in nc.store
  {
    assert !News(na) && nc.p2p.requests == map[];
    assert !Serving(f, false, na, c, h) && !Inserting(f, false, nc, h);
    assert Sending(f, false, na, c, h) || Receiving(f, false, nc, a, h);
  }

  lemma QuietSynced(f: Format, s: System, S: set<Addr>, a: Addr, c: Addr, h: Hash)
    requires SafeInv(f, s) && AllSynced(f, s, S) && a in S && Quiescent(s) && Knows(s, a, c)
    requires Has(f, false, s.nodes[a], h)
    ensures c in s.nodes && h in s.nodes[c].store
  {
    assert NodeInv(f, a, s.nodes[a]) && NamesOnly(s.nodes[a], s.nodes.Keys);
    assert Synced(f, true, a, s.nodes[a], c, s.nodes[c]);
    QuietPair(f, a, s.nodes[a], c, s.nodes[c], h);
  }

  /** What a daemon stores came in somewhere in its part. */
  lemma StoreWithin(f: Format, run: seq<System>, a: Addr)
    requires Run(f, run) && a in run[0].nodes
    ensures a in Last(run).nodes
    ensures Last(run).nodes[a].store.Values <= Injected(Last(run), Component(run[0], a))
    ensures Last(run).nodes[a].store.Keys <= f.Digests(Injected(Last(run), Component(run[0], a)))
    ensures ContentAddressed(f, Last(run).nodes[a])
  {
    var s, C := Last(run), Component(run[0], a);
    RunSafe(f, run);
    ComponentClosed(run[0], a);
    RunConfined(f, run, C);
    var n := s.nodes[a];
    assert NodeInv(f, a, n) && Side(s, C, a) == C;
    assert NodeConfined(f, n, Side(s, C, a), Injected(s, Side(s, C, a)));
    StoreDigests(f, n, Injected(s, C));
  }

  /** At rest, in every run in which clients only add, a document with an author that one daemon has, all of its
      part have. */
  lemma SharedAtRest(f: Format, run: seq<System>, a: Addr, b: Addr, h: Hash)
    requires AddOnlyRun(f, run) && Quiescent(Last(run)) && a in run[0].nodes && b in Component(run[0], a)
    requires a in Last(run).nodes && Has(f, false, Last(run).nodes[a], h)
    ensures b in Last(run).nodes && h in Last(run).nodes[b].store
  {
    AddOnlyIsRun(f, run);
    PeersAtRest(f, run, a);
    RunSafe(f, run);
    if b != a {
      assert Knows(Last(run), a, b);
      RunAdd(f, run);
      QuietSynced(f, Last(run), Last(run).nodes.Keys, a, b, h);
    }
  }

  /** What came in at the daemon, and what has an author and came in anywhere in its part. */
  ghost function Due(f: Format, s: System, C: set<Addr>, a: Addr): set<Text>
    requires a in s.injected
  {
    f.Authored(Injected(s, C)) + s.injected[a]
  }

  lemma OwnHistory(f: Format, run: seq<System>, a: Addr)
    requires Run(f, run) && a in run[0].nodes
    ensures a in Last(run).nodes && a in Last(run).injected
    ensures Last(run).injected[a] <= Injected(Last(run), Component(run[0], a))
    ensures OwnOrAuthored(f, Last(run).nodes[a], Last(run).injected[a])
  {
    RunSafe(f, run);
    RunOrigin(f, run);
    ComponentClosed(run[0], a);
  }

  /** In every run, what a daemon stores is due to it. */
  lemma StoreIsDue(f: Format, run: seq<System>, a: Addr)
    requires Run(f, run) && a in run[0].nodes
    ensures a in Last(run).nodes && a in Last(run).injected
    ensures Last(run).nodes[a].store.Values <= Due(f, Last(run), Component(run[0], a), a)
    ensures Last(run).nodes[a].store.Keys <= f.Digests(Due(f, Last(run), Component(run[0], a), a))
  {
    var s, C := Last(run), Component(run[0], a);
    OwnHistory(f, run, a);
    StoreWithin(f, run, a);
    forall h | h in s.nodes[a].store ensures s.nodes[a].store[h] in Due(f, s, C, a) {
      assert s.nodes[a].store[h] in s.nodes[a].store.Values;
    }
  }

  /** At rest, it stores what is due to it. */
  lemma DueIsStored(f: Format, run: seq<System>, a: Addr, t: Text)
    requires AddOnlyRun(f, run) && Quiescent(Last(run)) && a in run[0].nodes
    requires f.Discerning(Injected(Last(run), run[0].nodes.Keys))
    requires a in Last(run).injected && t in Due(f, Last(run), Component(run[0], a), a)
    ensures a in Last(run).nodes && f.sha(t) in Last(run).nodes[a].store
  {
    var s, C := Last(run), Component(run[0], a);
    AddOnlyIsRun(f, run);
    assert s.nodes.Keys == run[0].nodes.Keys by { RunSafe(f, run); }
    RunKept(f, run);
    if t in s.injected[a] {
      assert f.sha(t) in f.Digests(s.injected[a]);
    } else {
      var b :| b in C && b in s.injected && t in s.injected[b];
      assert f.sha(t) in f.Digests(s.injected[b]);
      StoreWithin(f, run, b);
      var u := s.nodes[b].store[f.sha(t)];
      assert u in s.nodes[b].store.Values;
      InjectedSubset(s, Component(run[0], b), run[0].nodes.Keys);
      InjectedSubset(s, C, run[0].nodes.Keys);
      ComponentSymmetric(run[0], a, b);
      SharedAtRest(f, run, b, a, f.sha(t));
    }
  }

  lemma ComponentSymmetric(s: System, a: Addr, b: Addr)
    requires a in s.nodes && b in Component(s, a)
    ensures a in Component(s, b)
  {
    var p :| Path(s, p) && p[0] == a && p[|p|-1] == b;
    var q := seq(|p|, i requires 0 <= i < |p| => p[|p|-1-i]);
    forall i | 0 <= i < |q| - 1 ensures Linked(s, q[i], q[i+1]) {
      assert Linked(s, p[|p|-2-i], p[|p|-2-i+1]);
    }
    assert q[0] in s.nodes;
    assert Path(s, q) && q[0] == b && q[|q|-1] == a;
  }

  /** Convergence: in every run in which clients only add, once all is quiet, a daemon's database holds the digests
      of exactly the documents that came in at it and of those with an author that came in anywhere in its
      connected part of the start-up graph. */
  lemma StoresAtRest(f: Format, run: seq<System>, a: Addr)
    requires AddOnlyRun(f, run) && Quiescent(Last(run)) && a in run[0].nodes
    requires f.Discerning(Injected(Last(run), run[0].nodes.Keys))
    ensures a in Last(run).nodes && a in Last(run).injected
    ensures Last(run).nodes[a].store.Keys == f.Digests(Due(f, Last(run), Component(run[0], a), a))
  {
    var s, C := Last(run), Component(run[0], a);
    AddOnlyIsRun(f, run);
    StoreIsDue(f, run, a);
    forall h | h in f.Digests(Due(f, s, C, a)) ensures h in s.nodes[a].store {
      var t :| t in Due(f, s, C, a) && f.sha(t) == h;
      DueIsStored(f, run, a, t);
    }
  }

  lemma InjectiveDiscerns(f: Format, docs: set<Text>)
    requires f.Injective(docs)
    ensures f.Discerning(docs)
  {
  }

  /** The same with the documents themselves, if the digest tells apart those of the run. */
  lemma UnionAtRest(f: Format, run: seq<System>, a: Addr)
    requires AddOnlyRun(f, run) && Quiescent(Last(run)) && a in run[0].nodes
    requires f.Injective(Injected(Last(run), run[0].nodes.Keys))
    ensures a in Last(run).nodes && a in Last(run).injected
    ensures Last(run).nodes[a].store.Values == Due(f, Last(run), Component(run[0], a), a)
    ensures ContentAddressed(f, Last(run).nodes[a])
  {
    var s, C := Last(run), Component(run[0], a);
    InjectiveDiscerns(f, Injected(s, run[0].nodes.Keys));
    AddOnlyIsRun(f, run);
    StoreIsDue(f, run, a);
    StoreWithin(f, run, a);
    OwnHistory(f, run, a);
    InjectedSubset(s, C, run[0].nodes.Keys);
    var n := s.nodes[a];
    forall t | t in Due(f, s, C, a) ensures t in n.store.Values {
      DueIsStored(f, run, a, t);
      assert n.store[f.sha(t)] in n.store.Values;
    }
  }

  lemma SameValues(f: Format, m: Node, n: Node, T: set<Text>)
    requires ContentAddressed(f, m) && ContentAddressed(f, n)
    requires f.Injective(T) && m.store.Values <= T && n.store.Values <= T
    ensures m.store == n.store <==> m.store.Values == n.store.Values
  {
    if m.store.Values == n.store.Values {
      forall h ensures h in m.store ==> h in n.store && n.store[h] == m.store[h] {
        if h in m.store { assert m.store[h] in n.store.Values; }
      }
      forall h ensures h in n.store ==> h in m.store {
        if h in n.store { assert n.store[h] in m.store.Values; }
      }
    }
  }

  lemma DueSame(f: Format, A: set<Text>, p: set<Text>, q: set<Text>)
    requires f.Authored(p) <= A && f.Authored(q) <= A && f.Orphans(A) == {}
    ensures A + p == A + q <==> f.Orphans(p) == f.Orphans(q)
  {
    forall t ensures t in p <==> t in f.Authored(p) || t in f.Orphans(p) {}
    forall t ensures t in q <==> t in f.Authored(q) || t in f.Orphans(q) {}
    if A + p == A + q {
      forall t ensures t in f.Orphans(p) <==> t in f.Orphans(q) {
        assert t !in f.Orphans(A);
        assert t in A + p <==> t in A + q;
      }
    }
  }

  /** ... and two databases in the same part are equal exactly if the same documents without author came in at
      both; so all are, if there are no such documents. */
  lemma EqualAtRestIff(f: Format, run: seq<System>, a: Addr, b: Addr)
    requires AddOnlyRun(f, run) && Quiescent(Last(run)) && a in run[0].nodes && b in Component(run[0], a)
    requires f.Injective(Injected(Last(run), run[0].nodes.Keys))
    ensures a in Last(run).nodes && b in Last(run).nodes && a in Last(run).injected && b in Last(run).injected
    ensures Last(run).nodes[a].store == Last(run).nodes[b].store <==>
            f.Orphans(Last(run).injected[a]) == f.Orphans(Last(run).injected[b])
  {
    var s, C, D := Last(run), Component(run[0], a), Component(run[0], b);
    AddOnlyIsRun(f, run);
    UnionAtRest(f, run, a);
    UnionAtRest(f, run, b);
    StoreWithin(f, run, a);
    StoreWithin(f, run, b);
    InjectedSubset(s, C, run[0].nodes.Keys);
    InjectedSubset(s, D, run[0].nodes.Keys);
    SameComponent(run[0], a, b);
    OwnHistory(f, run, a);
    OwnHistory(f, run, b);
    SameValues(f, s.nodes[a], s.nodes[b], Injected(s, run[0].nodes.Keys));
    DueSame(f, f.Authored(Injected(s, C)), s.injected[a], s.injected[b]);
  }

  lemma SameComponent(s: System, a: Addr, b: Addr)
    requires a in s.nodes && b in Component(s, a)
    ensures Component(s, b) == Component(s, a)
  {
    ComponentSymmetric(s, a, b);
    forall x | x in s.nodes ensures x in Component(s, a) <==> x in Component(s, b) {
      if Connected(s, a, x) { Through(s, b, a, x); }
      if Connected(s, b, x) { Through(s, a, b, x); }
    }
  }

  lemma Through(s: System, a: Addr, b: Addr, c: Addr)
    requires Connected(s, a, b) && Connected(s, b, c)
    ensures Connected(s, a, c)
  {
    var p :| Path(s, p) && p[0] == a && p[|p|-1] == b;
    var q :| Path(s, q) && q[0] == b && q[|q|-1] == c;
    var r := p + q[1..];
    forall i | 0 <= i < |r| - 1 ensures Linked(s, r[i], r[i+1]) {
      if i < |p| - 1 {
        assert Linked(s, p[i], p[i+1]);
      } else {
        assert Linked(s, q[i-|p|+1], q[i-|p|+2]);
      }
    }
    assert Path(s, r) && r[|r|-1] == c;
  }
}
