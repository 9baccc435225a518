/** Gossip terminates: every step the daemons take among themselves brings a missing peer or document to a daemon,
    or lessens the work that is left; provided of any two daemons that may come to know each other one has all
    documents without author that the other has. */
module Termination {
  import opened Messages
  import opened Daemon
  import opened Gossip
  import opened NodeInvariant
  import opened Safety
  import opened Confinement
  import opened NoLostUpdate
  import opened Convergence
  import opened Sums
  import opened Work

  function Gap(bound: nat, x: nat): nat {
    if x <= bound then bound - x else 0
  }

  lemma GapShrinks(bound: nat, x: nat, x': nat)
    requires x <= x' <= bound
    ensures Gap(bound, x') <= Gap(bound, x) && (x < x' ==> Gap(bound, x') < Gap(bound, x))
  {
  }

  // ---------------------------------------------------------------- what is at stake

  ghost function Known(f: Format, s: System): set<Hash> {
    f.Digests(Injected(s, s.nodes.Keys))
  }

  ghost function Refused(f: Format, s: System): set<Hash> {
    f.Digests(f.Orphans(Injected(s, s.nodes.Keys)))
  }

  ghost function StakesOf(f: Format, s: System): Stakes {
    Stakes(|s.nodes.Keys|, |Known(f, s)|, Refused(f, s), map a | a in s.nodes :: s.nodes[a].store.Keys * Refused(f, s))
  }

  ghost predicate Good(f: Format, s: System) {
    && SafeInv(f, s) && Confined(f, s, s.nodes.Keys)
    && f.Discerning(Injected(s, s.nodes.Keys))
  }

  /** Of any daemon and its peer, one has all documents without author that the other has. */
  ghost predicate PeersComparable(k: Stakes, s: System) {
    forall a, c :: a in s.nodes && c in s.nodes[a].p2p.peers && a in k.own && c in k.own ==>
      k.own[a] <= k.own[c] || k.own[c] <= k.own[a]
  }

  /** The documents without author in the hands of a daemon are marked as such. */
  lemma InsertsMarked(f: Format, s: System, x: Addr)
    requires Good(f, s) && x in s.nodes
    ensures s.nodes[x].toDb != [] && s.nodes[x].toDb[0].INS? ==> Marked(f, StakesOf(f, s), s.nodes[x].toDb[0].docs)
  {
    InsertsKnown(f, s, x);
    if s.nodes[x].toDb != [] && s.nodes[x].toDb[0].INS? {
      forall t | t in s.nodes[x].toDb[0].docs && f.author(t) == "" ensures f.sha(t) in Refused(f, s) {
        assert t in f.Orphans(Injected(s, s.nodes.Keys));
      }
    }
  }

  lemma NodeStaked(f: Format, s: System, a: Addr)
    requires Good(f, s) && PeersComparable(StakesOf(f, s), s) && a in s.nodes
    ensures NodeInv(f, a, s.nodes[a]) && Staked(StakesOf(f, s), a, s.nodes[a])
  {
    var n, k := s.nodes[a], StakesOf(f, s);
    assert NodeInv(f, a, n) && NodeConfined(f, n, s.nodes.Keys, Injected(s, s.nodes.Keys));
    StoreDigests(f, n, Injected(s, s.nodes.Keys));
    SubsetSize(n.p2p.peers.Keys, s.nodes.Keys);
    SubsetSize(n.store.Keys, Known(f, s));
  }

  /** Storing documents with an author does not change which documents without one a daemon has. */
  lemma PutKeepsOwn(f: Format, n: Node, docs: set<Text>, n': Node, T: set<Text>)
    requires AllSettled(f, docs) && docs <= T && f.Discerning(T) && Put(f, n.store, docs, n'.store)
    ensures n'.store.Keys * f.Digests(f.Orphans(T)) == n.store.Keys * f.Digests(f.Orphans(T))
  {
    forall h | StoredUnder(f, docs, h) ensures h !in f.Digests(f.Orphans(T)) {
      var d :| d in docs && f.author(d) != "" && h == f.sha(f.canon(d));
      assert f.Settled(d);
    }
  }

  lemma LocalKeepsOwn(f: Format, a: Addr, n: Node, n': Node, T: set<Text>)
    requires LocalStep(f, a, n, n') && f.Discerning(T)
    requires n.toDb != [] && n.toDb[0].INS? ==> AllSettled(f, n.toDb[0].docs) && n.toDb[0].docs <= T
    ensures n'.store.Keys * f.Digests(f.Orphans(T)) == n.store.Keys * f.Digests(f.Orphans(T))
  {
    if DbInsStep(f, n, n') {
      var docs := Unknown(f, n.toDb[0].docs, n.hashes);
      assert AllSettled(f, docs) && docs <= T;
      if docs != {} { PutKeepsOwn(f, n, docs, n', T); }
    }
  }

  lemma SameHistory(f: Format, s: System, s': System)
    requires s'.nodes.Keys == s.nodes.Keys && s'.injected == s.injected
    ensures Injected(s', s'.nodes.Keys) == Injected(s, s.nodes.Keys)
    ensures Known(f, s') == Known(f, s) && Refused(f, s') == Refused(f, s)
  {
    assert Injected(s', s'.nodes.Keys) == Injected(s, s.nodes.Keys);
  }

  lemma InsertsKnown(f: Format, s: System, x: Addr)
    requires Confined(f, s, s.nodes.Keys) && x in s.nodes
    ensures s.nodes[x].toDb != [] && s.nodes[x].toDb[0].INS? ==>
              AllSettled(f, s.nodes[x].toDb[0].docs) && s.nodes[x].toDb[0].docs <= Injected(s, s.nodes.Keys)
  {
    assert PipesIn(f, s.nodes[x], Injected(s, s.nodes.Keys));
  }

  lemma LocalStepKeepsOwn(f: Format, s: System, x: Addr, s': System, T: set<Text>, a: Addr)
    requires Local(f, s, x, s') && f.Discerning(T) && a in s.nodes
    requires s.nodes[x].toDb != [] && s.nodes[x].toDb[0].INS? ==>
               AllSettled(f, s.nodes[x].toDb[0].docs) && s.nodes[x].toDb[0].docs <= T
    ensures a in s'.nodes
    ensures s'.nodes[a].store.Keys * f.Digests(f.Orphans(T)) == s.nodes[a].store.Keys * f.Digests(f.Orphans(T))
  {
    if x == a { LocalKeepsOwn(f, a, s.nodes[a], s'.nodes[a], T); }
  }

  lemma LocalConfinedOwn(f: Format, s: System, x: Addr, s': System, a: Addr)
    requires Good(f, s) && Local(f, s, x, s') && a in s.nodes
    ensures a in s'.nodes && s'.nodes[a].store.Keys * Refused(f, s) == s.nodes[a].store.Keys * Refused(f, s)
  {
    InsertsKnown(f, s, x);
    LocalStepKeepsOwn(f, s, x, s', Injected(s, s.nodes.Keys), a);
  }

  lemma DeliverKeepsOwn(f: Format, s: System, src: Addr, dst: Addr, s': System, a: Addr)
    requires SafeInv(f, s) && Deliver(f, s, src, dst, s') && a in s.nodes
    ensures a in s'.nodes && s'.nodes[a].store.Keys * Refused(f, s) == s.nodes[a].store.Keys * Refused(f, s)
  {
    DeliverKeepsStores(f, s, src, dst, s', a);
  }

  lemma StepKeepsOwn(f: Format, s: System, s': System, a: Addr)
    requires Good(f, s) && ProtocolStep(f, s, s') && a in s.nodes
    ensures a in s'.nodes && s'.nodes[a].store.Keys * Refused(f, s) == s.nodes[a].store.Keys * Refused(f, s)
  {
    if x :| Local(f, s, x, s') {
      LocalConfinedOwn(f, s, x, s', a);
    } else {
      var src, dst :| Deliver(f, s, src, dst, s');
      DeliverKeepsOwn(f, s, src, dst, s', a);
    }
  }

  lemma StepGood(f: Format, s: System, s': System)
    requires Good(f, s) && ProtocolStep(f, s, s')
    ensures SafeInv(f, s') && Confined(f, s', s'.nodes.Keys)
    ensures s'.nodes.Keys == s.nodes.Keys && s'.injected == s.injected
  {
    StepSafe(f, s, s');
    StepConfined(f, s, s', s.nodes.Keys);
    SafeNoLoops(f, s);
    StepInjects(f, s, s');
  }

  lemma OwnUnchanged(f: Format, s: System, s': System)
    requires s'.nodes.Keys == s.nodes.Keys && s'.injected == s.injected
    requires forall a {:trigger s'.nodes[a]} :: a in s.nodes ==>
               s'.nodes[a].store.Keys * Refused(f, s) == s.nodes[a].store.Keys * Refused(f, s)
    ensures StakesOf(f, s') == StakesOf(f, s)
  {
    SameHistory(f, s, s');
  }

  /** What is at stake stays the same while the clients are silent. */
  lemma SameStakes(f: Format, s: System, s': System)
    requires Good(f, s) && ProtocolStep(f, s, s')
    ensures Good(f, s') && StakesOf(f, s') == StakesOf(f, s)
  {
    StepGood(f, s, s');
    SameHistory(f, s, s');
    forall a | a in s.nodes ensures s'.nodes[a].store.Keys * Refused(f, s) == s.nodes[a].store.Keys * Refused(f, s) {
      StepKeepsOwn(f, s, s', a);
    }
    OwnUnchanged(f, s, s');
  }

  // ---------------------------------------------------------------- the measure

  /** The peers and documents a daemon lacks. */
  ghost function MissingAt(k: Stakes, s: System): Addr -> nat {
    a => if a in s.nodes then Gap(k.N, |s.nodes[a].p2p.peers.Keys|) + Gap(k.H, |s.nodes[a].store.Keys|) else 0
  }

  ghost function WorkAt(f: Format, k: Stakes, s: System): Addr -> nat {
    a => if a in s.nodes then NodeWork(f, k, a, s.nodes[a]) else 0
  }

  ghost function Missing(k: Stakes, s: System): nat {
    Total(s.nodes.Keys, MissingAt(k, s))
  }

  ghost function WorkLeft(f: Format, k: Stakes, s: System): nat {
    Total(s.nodes.Keys, WorkAt(f, k, s))
  }

  /** Both totals change by what changes at the one daemon that does. */
  lemma RankChange(f: Format, k: Stakes, s: System, s': System, a: Addr)
    requires a in s.nodes && a in s'.nodes && s'.nodes == s.nodes[a := s'.nodes[a]]
    ensures s'.nodes.Keys == s.nodes.Keys
    ensures Missing(k, s') + MissingAt(k, s)(a) == Missing(k, s) + MissingAt(k, s')(a)
    ensures WorkLeft(f, k, s') + WorkAt(f, k, s)(a) == WorkLeft(f, k, s) + WorkAt(f, k, s')(a)
  {
    assert s'.nodes.Keys == s.nodes.Keys;
    TotalChange(s.nodes.Keys, MissingAt(k, s), MissingAt(k, s'), a);
    TotalChange(s.nodes.Keys, WorkAt(f, k, s), WorkAt(f, k, s'), a);
  }

  ghost predicate Decreased(f: Format, k: Stakes, s: System, s': System) {
    Missing(k, s') < Missing(k, s) || (Missing(k, s') == Missing(k, s) && WorkLeft(f, k, s') < WorkLeft(f, k, s))
  }

  ghost predicate Bounded(k: Stakes, n: Node) {
    |n.p2p.peers.Keys| <= k.N && |n.store.Keys| <= k.H
  }

  /** One daemon got a peer or a document, or has less to do by more than `slack`. */
  ghost predicate Nearer(f: Format, k: Stakes, a: Addr, n: Node, n': Node, slack: nat) {
    && |n.p2p.peers.Keys| <= |n'.p2p.peers.Keys| && |n.store.Keys| <= |n'.store.Keys|
    && (|n.p2p.peers.Keys| < |n'.p2p.peers.Keys| || |n.store.Keys| < |n'.store.Keys| ||
        NodeWork(f, k, a, n') < NodeWork(f, k, a, n) + slack)
  }

  lemma NearerAt(f: Format, k: Stakes, s: System, s': System, a: Addr, slack: nat)
    requires a in s.nodes && a in s'.nodes && Bounded(k, s'.nodes[a])
    requires Nearer(f, k, a, s.nodes[a], s'.nodes[a], slack)
    ensures MissingAt(k, s')(a) <= MissingAt(k, s)(a)
    ensures MissingAt(k, s')(a) < MissingAt(k, s)(a) || WorkAt(f, k, s')(a) < WorkAt(f, k, s)(a) + slack
  {
    var n, n' := s.nodes[a], s'.nodes[a];
    GapShrinks(k.N, |n.p2p.peers.Keys|, |n'.p2p.peers.Keys|);
    GapShrinks(k.H, |n.store.Keys|, |n'.store.Keys|);
  }

  lemma NearerDecreases(f: Format, k: Stakes, s: System, s': System, a: Addr, slack: nat)
    requires a in s.nodes && a in s'.nodes && s'.nodes == s.nodes[a := s'.nodes[a]]
    requires Bounded(k, s'.nodes[a]) && Nearer(f, k, a, s.nodes[a], s'.nodes[a], slack)
    ensures Missing(k, s') < Missing(k, s) ||
            (Missing(k, s') == Missing(k, s) && WorkLeft(f, k, s') < WorkLeft(f, k, s) + slack)
  {
    RankChange(f, k, s, s', a);
    NearerAt(f, k, s, s', a, slack);
  }

  lemma LocalNearer(f: Format, k: Stakes, a: Addr, n: Node, n': Node)
    requires NodeInv(f, a, n) && LocalStep(f, a, n, n') && Staked(k, a, n)
    requires n.toDb != [] && n.toDb[0].INS? ==> Marked(f, k, n.toDb[0].docs)
    ensures Nearer(f, k, a, n, n', 0)
  {
    LocalWork(f, k, a, n, n');
  }

  lemma LocalDecreases(f: Format, k: Stakes, s: System, a: Addr, s': System)
    requires Local(f, s, a, s') && NodeInv(f, a, s.nodes[a]) && Staked(k, a, s.nodes[a]) && Bounded(k, s'.nodes[a])
    requires s.nodes[a].toDb != [] && s.nodes[a].toDb[0].INS? ==> Marked(f, k, s.nodes[a].toDb[0].docs)
    ensures Decreased(f, k, s, s')
  {
    LocalNearer(f, k, a, s.nodes[a], s'.nodes[a]);
    NearerDecreases(f, k, s, s', a, 0);
  }

  /** Taking a message off a socket lightens its sender by the message's weight. */
  lemma TakenDecreases(f: Format, k: Stakes, s: System, src: Addr, dst: Addr, mid: System)
    requires src in s.nodes && dst in s.nodes[src].p2p.peers && s.nodes[src].p2p.peers[dst] != []
    requires mid == s.(nodes := s.nodes[src := Taken(s.nodes[src], dst)])
    ensures mid.nodes.Keys == s.nodes.Keys && Missing(k, mid) == Missing(k, s)
    ensures WorkLeft(f, k, mid) + PeerMsgWork(f, k, dst)(s.nodes[src].p2p.peers[dst][0]) == WorkLeft(f, k, s)
  {
    TakenWork(f, k, src, s.nodes[src], dst);
    assert mid.nodes[src].p2p.peers.Keys == s.nodes[src].p2p.peers.Keys;
    RankChange(f, k, s, mid, src);
  }

  lemma DeliverDecreases(f: Format, k: Stakes, s: System, src: Addr, dst: Addr, s': System)
    requires Deliver(f, s, src, dst, s') && src != dst && Bounded(k, s'.nodes[dst])
    ensures Decreased(f, k, s, s')
  {
    var m := s.nodes[src].p2p.peers[dst][0];
    var mid := s.(nodes := s.nodes[src := Taken(s.nodes[src], dst)]);
    TakenDecreases(f, k, s, src, dst, mid);
    ReceiveWork(f, k, dst, s.nodes[dst], m, s'.nodes[dst]);
    SubsetSize(s.nodes[dst].p2p.peers.Keys, s'.nodes[dst].p2p.peers.Keys);
    NearerDecreases(f, k, mid, s', dst, PeerMsgWork(f, k, dst)(m));
  }

  lemma NodeBounded(f: Format, s: System, a: Addr)
    requires Good(f, s) && a in s.nodes
    ensures Bounded(StakesOf(f, s), s.nodes[a])
  {
    var n := s.nodes[a];
    assert NodeInv(f, a, n) && NodeConfined(f, n, s.nodes.Keys, Injected(s, s.nodes.Keys));
    StoreDigests(f, n, Injected(s, s.nodes.Keys));
    SubsetSize(n.p2p.peers.Keys, s.nodes.Keys);
    SubsetSize(n.store.Keys, Known(f, s));
  }

  lemma LocalStepDecreases(f: Format, s: System, a: Addr, s': System)
    requires Good(f, s) && PeersComparable(StakesOf(f, s), s) && Local(f, s, a, s')
    requires Bounded(StakesOf(f, s), s'.nodes[a])
    ensures Decreased(f, StakesOf(f, s), s, s')
  {
    NodeStaked(f, s, a);
    InsertsMarked(f, s, a);
    LocalDecreases(f, StakesOf(f, s), s, a, s');
  }

  lemma DeliverStepDecreases(f: Format, s: System, src: Addr, dst: Addr, s': System)
    requires SafeInv(f, s) && Deliver(f, s, src, dst, s') && Bounded(StakesOf(f, s), s'.nodes[dst])
    ensures Decreased(f, StakesOf(f, s), s, s')
  {
    assert src != dst by { DeliverKnown(f, s, src, dst, s'); }
    DeliverDecreases(f, StakesOf(f, s), s, src, dst, s');
  }

  /** Every step the daemons take among themselves makes the pair of what is missing and what is left to do smaller. */
  lemma ProtocolDecreases(f: Format, s: System, s': System)
    requires Good(f, s) && PeersComparable(StakesOf(f, s), s) && ProtocolStep(f, s, s')
    ensures Decreased(f, StakesOf(f, s), s, s')
  {
    SameStakes(f, s, s');
    forall a | a in s'.nodes ensures Bounded(StakesOf(f, s), s'.nodes[a]) {
      NodeBounded(f, s', a);
    }
    if a :| Local(f, s, a, s') {
      LocalStepDecreases(f, s, a, s');
    } else {
      var src, dst :| Deliver(f, s, src, dst, s');
      DeliverStepDecreases(f, s, src, dst, s');
    }
  }

  // ---------------------------------------------------------------- whole behaviours

  /** An unending history of the network: it pauses only when no daemon has anything left to do. */
  ghost predicate Behaviour(f: Format, b: nat -> System) {
    && Init(f, b(0))
    && forall i: nat {:trigger Step(f, b(i), b(i+1))} :: Step(f, b(i), b(i+1)) || (Quiescent(b(i)) && b(i+1) == b(i))
  }

  /** From moment `k` on the clients are silent. */
  ghost predicate SilentFrom(f: Format, b: nat -> System, k: nat) {
    forall i: nat {:trigger ProtocolStep(f, b(i), b(i+1))} ::
      i >= k ==> ProtocolStep(f, b(i), b(i+1)) || (Quiescent(b(i)) && b(i+1) == b(i))
  }

  lemma BehaviourStep(f: Format, b: nat -> System, i: nat)
    requires Behaviour(f, b)
    ensures Step(f, b(i), b(i+1)) || b(i+1) == b(i)
  {
  }

  /** Leaving out the pauses turns the beginning of a history into a run. */
  lemma {:induction false} RunUpTo(f: Format, b: nat -> System, i: nat) returns (run: seq<System>)
    requires Behaviour(f, b)
    ensures Run(f, run) && run[0] == b(0) && Last(run) == b(i)
  {
    if i == 0 {
      run := [b(0)];
    } else {
      var before := RunUpTo(f, b, i-1);
      BehaviourStep(f, b, i-1);
      if b(i) == b(i-1) {
        run := before;
      } else {
        run := before + [b(i)];
      }
    }
  }

  lemma RunIsGood(f: Format, run: seq<System>)
    requires Run(f, run) && f.Discerning(Injected(Last(run), run[0].nodes.Keys))
    ensures Good(f, Last(run)) && Last(run).nodes.Keys == run[0].nodes.Keys
    ensures forall a :: a in Last(run).nodes ==> Last(run).nodes[a].p2p.peers.Keys <= Component(run[0], a)
  {
    RunSafe(f, run);
    assert Closed(run[0], run[0].nodes.Keys);
    RunConfined(f, run, run[0].nodes.Keys);
    forall a | a in Last(run).nodes ensures Last(run).nodes[a].p2p.peers.Keys <= Component(run[0], a) {
      PeersWithin(f, run, a);
    }
  }

  lemma BehaviourGood(f: Format, b: nat -> System, i: nat)
    requires Behaviour(f, b) && f.Discerning(Injected(b(i), b(0).nodes.Keys))
    ensures Good(f, b(i)) && b(i).nodes.Keys == b(0).nodes.Keys
    ensures forall a :: a in b(i).nodes ==> b(i).nodes[a].p2p.peers.Keys <= Component(b(0), a)
  {
    var run := RunUpTo(f, b, i);
    RunIsGood(f, run);
  }

  /** The documents without author that daemon `a` stores. */
  ghost function Orphaned(f: Format, n: Node): set<Hash> {
    set h | h in n.store && f.author(n.store[h]) == ""
  }

  /** Within each connected part of the start-up graph of `s0`, of any two daemons one stores all documents without
      author that the other stores. */
  ghost predicate Comparable(f: Format, s0: System, s: System) {
    forall a, c :: a in s.nodes && c in s.nodes && c in Component(s0, a) ==>
      Orphaned(f, s.nodes[a]) <= Orphaned(f, s.nodes[c]) || Orphaned(f, s.nodes[c]) <= Orphaned(f, s.nodes[a])
  }

  lemma OrphanedIsOwn(f: Format, s: System, a: Addr)
    requires Good(f, s) && a in s.nodes
    ensures Orphaned(f, s.nodes[a]) == s.nodes[a].store.Keys * Refused(f, s)
  {
    var n, T := s.nodes[a], Injected(s, s.nodes.Keys);
    assert NodeInv(f, a, n) && NodeConfined(f, n, s.nodes.Keys, T);
    forall h | h in n.store ensures h in Orphaned(f, n) <==> h in Refused(f, s) {
      var t := n.store[h];
      assert t in n.store.Values && t in T && f.sha(t) == h;
      if f.author(t) == "" {
        assert t in f.Orphans(T);
      }
    }
  }

  lemma StaysOrphaned(f: Format, s: System, s': System)
    requires Good(f, s) && ProtocolStep(f, s, s')
    ensures Good(f, s') && s'.nodes.Keys == s.nodes.Keys && s'.injected == s.injected
    ensures forall a :: a in s.nodes ==> Orphaned(f, s'.nodes[a]) == Orphaned(f, s.nodes[a])
  {
    SameStakes(f, s, s');
    StepGood(f, s, s');
    SameHistory(f, s, s');
    forall a | a in s.nodes ensures Orphaned(f, s'.nodes[a]) == Orphaned(f, s.nodes[a]) {
      StepKeepsOwn(f, s, s', a);
      OrphanedIsOwn(f, s, a);
      OrphanedIsOwn(f, s', a);
    }
  }

  lemma ComparablePeers(f: Format, s0: System, s: System)
    requires Good(f, s) && Comparable(f, s0, s)
    requires forall a :: a in s.nodes ==> s.nodes[a].p2p.peers.Keys <= Component(s0, a)
    ensures PeersComparable(StakesOf(f, s), s)
  {
    forall a | a in s.nodes ensures Orphaned(f, s.nodes[a]) == StakesOf(f, s).own[a] {
      OrphanedIsOwn(f, s, a);
    }
    forall a, c | a in s.nodes && c in s.nodes[a].p2p.peers && c in s.nodes
      ensures var own := StakesOf(f, s).own; own[a] <= own[c] || own[c] <= own[a]
    {
      assert c in Component(s0, a);
    }
  }

  /** One step nearer to rest. */
  lemma OneStepNearer(f: Format, run: seq<System>, s': System)
    requires Run(f, run) && f.Discerning(Injected(Last(run), run[0].nodes.Keys))
    requires Comparable(f, run[0], Last(run)) && ProtocolStep(f, Last(run), s')
    ensures Decreased(f, StakesOf(f, Last(run)), Last(run), s') && StakesOf(f, s') == StakesOf(f, Last(run))
    ensures s'.injected == Last(run).injected && Comparable(f, run[0], s')
    ensures Injected(s', run[0].nodes.Keys) == Injected(Last(run), run[0].nodes.Keys)
  {
    RunIsGood(f, run);
    ComparablePeers(f, run[0], Last(run));
    ProtocolDecreases(f, Last(run), s');
    SameStakes(f, Last(run), s');
    StaysOrphaned(f, Last(run), s');
    SameHistory(f, Last(run), s');
  }

  lemma SilentDecreases(f: Format, b: nat -> System, k: nat)
    requires Behaviour(f, b) && f.Discerning(Injected(b(k), b(0).nodes.Keys)) && Comparable(f, b(0), b(k))
    requires ProtocolStep(f, b(k), b(k+1))
    ensures Decreased(f, StakesOf(f, b(k)), b(k), b(k+1)) && StakesOf(f, b(k+1)) == StakesOf(f, b(k))
    ensures b(k+1).injected == b(k).injected && Comparable(f, b(0), b(k+1))
    ensures Injected(b(k+1), b(0).nodes.Keys) == Injected(b(k), b(0).nodes.Keys)
  {
    var run := RunUpTo(f, b, k);
    OneStepNearer(f, run, b(k+1));
  }

  lemma SilentAt(f: Format, b: nat -> System, k: nat)
    requires SilentFrom(f, b, k)
    ensures SilentFrom(f, b, k+1) && (ProtocolStep(f, b(k), b(k+1)) || Quiescent(b(k)))
  {
    assert ProtocolStep(f, b(k), b(k+1)) || Quiescent(b(k));
  }

  /** Gossip terminates: once the clients are silent, the network comes to rest, whatever order things happen in,
      if within each part the documents without author are comparable. */
  lemma {:induction false} ComesToRest(f: Format, b: nat -> System, k: nat) returns (j: nat)
    requires Behaviour(f, b) && SilentFrom(f, b, k) && f.Discerning(Injected(b(k), b(0).nodes.Keys))
    requires Comparable(f, b(0), b(k))
    ensures j >= k && Quiescent(b(j)) && b(j).injected == b(k).injected
    decreases Missing(StakesOf(f, b(k)), b(k)), WorkLeft(f, StakesOf(f, b(k)), b(k))
  {
    if Quiescent(b(k)) {
      j := k;
    } else {
      SilentAt(f, b, k);
      SilentDecreases(f, b, k);
      j := ComesToRest(f, b, k+1);
    }
  }
}
