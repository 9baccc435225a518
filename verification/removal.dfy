/** Removals are not synchronised.  From a network at rest, while the daemons are among themselves, what a daemon
    removed comes back to it exactly if it has an author and is at a daemon that lacks something the other kept; the
    next addition by a client at a daemon that has it brings it back in any case. */
module Removal {
  import opened Messages
  import opened Daemon
  import opened Gossip
  import opened NodeInvariant
  import opened PeerDiscovery
  import opened Safety
  import opened Confinement
  import opened Updates
  import opened NoLostUpdate
  import opened Convergence
  import opened Chains
  import opened Termination
  import opened Circles

  // ---------------------------------------------------------------- the beginning

  lemma IdleAtRest(f: Format, s: System, b: Addr)
    requires SafeInv(f, s) && Quiescent(s) && b in s.nodes
    ensures Idle(s.nodes[b]) && s.nodes[b].hashes == s.nodes[b].store.Keys && b !in s.nodes[b].p2p.peers
  {
    assert NodeInv(f, b, s.nodes[b]) && Quiet(s.nodes[b]);
  }

  lemma IdleStays(f: Format, x: Addr, n: Node, n': Node)
    requires Idle(n)
    ensures !LocalStep(f, x, n, n')
  {
  }

  lemma RmClears(f: Format, a: Addr, n: Node, n1: Node, n2: Node)
    requires Idle(n) && RmStep(n, n1) && LocalStep(f, a, n1, n2)
    ensures n2 == n1.(hashes := {}, dbPc := DbFilling(n1.store.Keys))
  {
  }

  /** At rest, with nothing due. */
  ghost predicate AllIdle(s: System) {
    forall x :: x in s.nodes ==> Idle(s.nodes[x]) && s.nodes[x].hashes == s.nodes[x].store.Keys
  }

  lemma AllIdleAtRest(f: Format, s: System)
    requires SafeInv(f, s) && Quiescent(s)
    ensures AllIdle(s)
  {
    forall x | x in s.nodes ensures Idle(s.nodes[x]) && s.nodes[x].hashes == s.nodes[x].store.Keys {
      IdleAtRest(f, s, x);
    }
  }

  lemma RemovesSilently(f: Format, s: System, a: Addr, s1: System, s2: System)
    requires AllIdle(s) && ClientRm(s, a, s1)
    ensures forall src, dst :: !Deliver(f, s1, src, dst, s2)
  {
    forall x | x in s1.nodes ensures s1.nodes[x].p2p == s.nodes[x].p2p {}
  }

  /** After a removal from rest all that can happen is that the hash set is emptied. */
  lemma ClearsFirst(f: Format, s: System, a: Addr, s1: System, s2: System)
    requires AllIdle(s) && ClientRm(s, a, s1) && ProtocolStep(f, s1, s2)
    ensures a in s1.nodes
    ensures var n := s1.nodes[a]; s2 == s1.(nodes := s1.nodes[a := n.(hashes := {}, dbPc := DbFilling(n.store.Keys))])
  {
    RemovesSilently(f, s, a, s1, s2);
    forall x | x in s1.nodes && x in s2.nodes && x != a ensures !Local(f, s1, x, s2) {
      IdleStays(f, x, s1.nodes[x], s2.nodes[x]);
    }
    assert Local(f, s1, a, s2);
    RmClears(f, a, s.nodes[a], s1.nodes[a], s2.nodes[a]);
  }

  lemma RunGood(f: Format, run: seq<System>)
    requires Run(f, run)
    ensures SafeInv(f, Last(run)) && Confined(f, Last(run), Last(run).nodes.Keys)
    ensures Last(run).nodes.Keys == run[0].nodes.Keys
  {
    assert Closed(run[0], run[0].nodes.Keys);
    RunSafe(f, run);
    RunConfined(f, run, run[0].nodes.Keys);
  }

  lemma RemovedGood(f: Format, s: System, a: Addr, s1: System)
    requires SafeInv(f, s) && Confined(f, s, s.nodes.Keys) && ClientRm(s, a, s1)
    ensures SafeInv(f, s1) && Confined(f, s1, s1.nodes.Keys) && s1.nodes.Keys == s.nodes.Keys
  {
    ClientSafe(f, s, a, {}, s1);
    SafeNoLoops(f, s);
    ClientAllConfined(f, s, a, {}, s1, s.nodes.Keys);
    assert s1.nodes.Keys == s.nodes.Keys;
  }

  lemma StepGoodOn(f: Format, s: System, s': System)
    requires SafeInv(f, s) && Confined(f, s, s.nodes.Keys) && AddOnlyStep(f, s, s')
    ensures SafeInv(f, s') && Confined(f, s', s'.nodes.Keys) && s'.nodes.Keys == s.nodes.Keys
  {
    StepSafe(f, s, s');
    StepConfined(f, s, s', s.nodes.Keys);
  }

  // ---------------------------------------------------------------- what stays away

  /** The documents the daemons in `M` have. */
  ghost function Held(s: System, M: set<Addr>): set<Text> {
    set x, h | x in M && x in s.nodes && h in s.nodes[x].store :: s.nodes[x].store[h]
  }

  /** All that a daemon in `M` has in `s1`, its peers outside had in `s`. */
  ghost predicate Covered(s: System, s1: System, M: set<Addr>) {
    forall x, c :: x in M && x in s.nodes && c in s.nodes[x].p2p.peers && c in s.nodes && c !in M ==>
      forall y :: y in M && y in s1.nodes ==> s1.nodes[y].store.Keys <= s.nodes[c].store.Keys
  }

  /** Texts are under their digests, and only daemons of the network are named. */
  ghost predicate Orderly(f: Format, s: System) {
    forall x :: x in s.nodes ==> ContentAddressed(f, s.nodes[x]) && NamesOnly(s.nodes[x], s.nodes.Keys)
  }

  lemma SafeOrderly(f: Format, s: System)
    requires SafeInv(f, s)
    ensures Orderly(f, s)
  {
    forall x | x in s.nodes ensures ContentAddressed(f, s.nodes[x]) && NamesOnly(s.nodes[x], s.nodes.Keys) {
      assert NodeInv(f, x, s.nodes[x]);
    }
  }

  lemma HeldDigests(f: Format, s: System, M: set<Addr>, h: Hash)
    requires Orderly(f, s)
    ensures h in f.Digests(Held(s, M)) <==> exists x :: x in M && x in s.nodes && h in s.nodes[x].store
  {
    if x :| x in M && x in s.nodes && h in s.nodes[x].store {
      assert s.nodes[x].store[h] in Held(s, M);
    }
  }

  lemma HeldSettled(f: Format, s: System, M: set<Addr>)
    requires Confined(f, s, s.nodes.Keys)
    ensures AllSettled(f, Held(s, M))
  {
    forall t | t in Held(s, M) ensures f.Settled(t) {
      var x, h :| x in M && x in s.nodes && h in s.nodes[x].store && s.nodes[x].store[h] == t;
      assert NodeConfined(f, s.nodes[x], s.nodes.Keys, Injected(s, s.nodes.Keys));
      assert t in s.nodes[x].store.Values;
    }
  }

  lemma BeginsNode(f: Format, x: Addr, n: Node, S: set<Addr>, M: set<Addr>, T: set<Text>)
    requires NamesOnly(n, S) && ContentAddressed(f, n) && n.store.Values <= T && n.hashes <= n.store.Keys
    requires n.toDb == [] && n.toP2p == [] && n.p2p.requests == map[] && !n.p2p.bcastPeers
    requires forall c :: c in n.p2p.peers ==> n.p2p.peers[c] == []
    ensures NodeConfined(f, n, S, T) && Aimed(x, n, M)
  {
    StoreDigests(f, n, T);
  }

  lemma CoversPeer(f: Format, s: System, s1: System, M: set<Addr>, x: Addr, c: Addr)
    requires AllIdle(s) && Orderly(f, s1) && Covered(s, s1, M) && x in M && x in s.nodes
    requires c in s.nodes[x].p2p.peers && c in s.nodes && c !in M
    ensures f.Digests(Held(s1, M)) <= s.nodes[c].hashes
  {
    forall h | h in f.Digests(Held(s1, M)) ensures h in s.nodes[c].hashes {
      HeldDigests(f, s1, M, h);
    }
  }

  lemma RefillsFirst(f: Format, s: System, a: Addr, s1: System, s2: System, x: Addr)
    requires AllIdle(s) && ClientRm(s, a, s1) && ProtocolStep(f, s1, s2) && x in s.nodes
    ensures s2.nodes.Keys == s.nodes.Keys && s2.nodes[x].store == s1.nodes[x].store
    ensures var n := s2.nodes[x];
            n.p2p == s.nodes[x].p2p && n.hashes <= n.store.Keys && n.toDb == [] && n.toP2p == []
    ensures x != a ==> s2.nodes[x] == s.nodes[x]
  {
    ClearsFirst(f, s, a, s1, s2);
    assert Idle(s.nodes[x]);
  }

  lemma BeginsPlace(f: Format, s: System, s1: System, M: set<Addr>, x: Addr, n: Node)
    requires AllIdle(s) && Orderly(f, s1) && Covered(s, s1, M) && s1.nodes.Keys == s.nodes.Keys && x in s.nodes
    requires n.store == s1.nodes[x].store && n.p2p == s1.nodes[x].p2p == s.nodes[x].p2p
    requires n.hashes <= n.store.Keys && n.toDb == [] && n.toP2p == [] && (x in M || n == s.nodes[x])
    ensures Place(f, s, M, Held(s1, M), x, n)
  {
    assert Idle(s.nodes[x]);
    assert ContentAddressed(f, s1.nodes[x]) && NamesOnly(s1.nodes[x], s.nodes.Keys);
    if x in M {
      assert n.store.Values <= Held(s1, M);
      BeginsNode(f, x, n, s.nodes.Keys, M, Held(s1, M));
      forall c | c in n.p2p.peers && c in s.nodes && c !in M ensures f.Digests(Held(s1, M)) <= s.nodes[c].hashes {
        CoversPeer(f, s, s1, M, x, c);
      }
    }
  }

  /** The hash set emptied, the daemons in `M` have only each other to tell anything. */
  lemma CircleBegins(f: Format, s: System, a: Addr, s1: System, s2: System, M: set<Addr>)
    requires AllIdle(s) && Orderly(f, s1) && AllSettled(f, Held(s1, M))
    requires ClientRm(s, a, s1) && ProtocolStep(f, s1, s2) && a in M && Covered(s, s1, M)
    ensures Circle(f, s, M, Held(s1, M), s2)
    ensures forall x :: x in s1.nodes ==> x in s2.nodes && s2.nodes[x].store == s1.nodes[x].store
  {
    assert s.nodes.Keys == s1.nodes.Keys && a in s.nodes;
    RefillsFirst(f, s, a, s1, s2, a);
    forall x | x in s.nodes
      ensures Place(f, s, M, Held(s1, M), x, s2.nodes[x]) && s2.nodes[x].store == s1.nodes[x].store
    {
      RefillsFirst(f, s, a, s1, s2, x);
      BeginsPlace(f, s, s1, M, x, s2.nodes[x]);
    }
  }

  lemma CircleEnds(f: Format, s: System, s1: System, M: set<Addr>, s': System)
    requires Orderly(f, s1) && Orderly(f, s') && Circle(f, s, M, Held(s1, M), s')
    ensures forall x, h :: x in M && x in s'.nodes && h in s'.nodes[x].store ==>
              exists y :: y in M && y in s1.nodes && h in s1.nodes[y].store
    ensures forall b :: b in s'.nodes && b !in M ==> s'.nodes[b].store == s.nodes[b].store
  {
    forall x, h | x in M && x in s'.nodes && h in s'.nodes[x].store
      ensures exists y :: y in M && y in s1.nodes && h in s1.nodes[y].store
    {
      assert Place(f, s, M, Held(s1, M), x, s'.nodes[x]);
      StoreDigests(f, s'.nodes[x], Held(s1, M));
      HeldDigests(f, s1, M, h);
    }
    forall b | b in s'.nodes && b !in M ensures s'.nodes[b].store == s.nodes[b].store {
      assert Place(f, s, M, Held(s1, M), b, s'.nodes[b]);
    }
  }

  lemma FirstCircle(f: Format, s: System, a: Addr, s1: System, s2: System, M: set<Addr>)
    requires SafeInv(f, s) && SafeInv(f, s1) && Confined(f, s1, s1.nodes.Keys) && Quiescent(s)
    requires ClientRm(s, a, s1) && ProtocolStep(f, s1, s2) && a in M && Covered(s, s1, M)
    ensures SafeInv(f, s2) && Circle(f, s, M, Held(s1, M), s2)
    ensures forall x :: x in s1.nodes ==> x in s2.nodes && s2.nodes[x].store == s1.nodes[x].store
  {
    AllIdleAtRest(f, s);
    SafeOrderly(f, s1);
    HeldSettled(f, s1, M);
    CircleBegins(f, s, a, s1, s2, M);
    StepSafe(f, s1, s2);
  }

  /** Outside `M` the databases are as in `s`; inside, each has only what some had in `s1`, and if there is only one it
      has the database it had. */
  ghost predicate Secluded(s: System, s1: System, M: set<Addr>, s': System) {
    && s1.nodes.Keys == s.nodes.Keys && s'.nodes.Keys == s.nodes.Keys
    && (forall b :: b in s.nodes && b !in M ==> s'.nodes[b].store == s.nodes[b].store)
    && (forall x, h :: x in M && x in s.nodes && h in s'.nodes[x].store ==>
          exists y :: y in M && y in s.nodes && h in s1.nodes[y].store)
    && (forall y :: y in s.nodes && M <= {y} ==> s'.nodes[y].store == s1.nodes[y].store)
  }

  lemma RmSecluded(s: System, a: Addr, s1: System, M: set<Addr>)
    requires ClientRm(s, a, s1) && a in M
    ensures Secluded(s, s1, M, s1)
  {
  }

  lemma LaterCircle(f: Format, s: System, s1: System, M: set<Addr>, after: seq<System>)
    requires ProtocolRun(f, after) && Orderly(f, s1) && s1.nodes.Keys == s.nodes.Keys
    requires SafeInv(f, after[0]) && Circle(f, s, M, Held(s1, M), after[0])
    requires forall x :: x in s1.nodes ==> x in after[0].nodes && after[0].nodes[x].store == s1.nodes[x].store
    ensures Secluded(s, s1, M, Last(after))
  {
    RunCircle(f, s, M, Held(s1, M), after);
    SafeOrderly(f, Last(after));
    CircleEnds(f, s, s1, M, Last(after));
  }

  lemma TailRun(f: Format, after: seq<System>)
    requires ProtocolRun(f, after) && |after| > 1
    ensures ProtocolRun(f, after[1..]) && ProtocolStep(f, after[0], after[1..][0]) && Last(after[1..]) == Last(after)
  {
    assert ProtocolStep(f, after[0], after[0+1]);
    forall i | 0 <= i < |after[1..]| - 1 ensures ProtocolStep(f, after[1..][i], after[1..][i+1]) {
      assert ProtocolStep(f, after[i+1], after[i+1+1]);
    }
  }

  lemma LaterWithin(f: Format, s: System, a: Addr, s1: System, later: seq<System>, M: set<Addr>)
    requires SafeInv(f, s) && SafeInv(f, s1) && Confined(f, s1, s1.nodes.Keys) && Quiescent(s)
    requires ClientRm(s, a, s1) && a in M && Covered(s, s1, M) && s1.nodes.Keys == s.nodes.Keys
    requires ProtocolRun(f, later) && ProtocolStep(f, s1, later[0])
    ensures Secluded(s, s1, M, Last(later))
  {
    FirstCircle(f, s, a, s1, later[0], M);
    SafeOrderly(f, s1);
    LaterCircle(f, s, s1, M, later);
  }

  /** From rest, after a removal at `a`: if what the daemons in `M` then have is covered by their peers outside, no one
      outside stirs, and no daemon in `M` comes to have anything that none of them had. */
  lemma StaysWithin(f: Format, s: System, a: Addr, after: seq<System>, M: set<Addr>)
    requires SafeInv(f, s) && Confined(f, s, s.nodes.Keys) && Quiescent(s)
    requires ProtocolRun(f, after) && ClientRm(s, a, after[0]) && a in M && Covered(s, after[0], M)
    ensures Secluded(s, after[0], M, Last(after))
  {
    if |after| == 1 {
      RmSecluded(s, a, after[0], M);
    } else {
      RemovedGood(f, s, a, after[0]);
      TailRun(f, after);
      LaterWithin(f, s, a, after[0], after[1..], M);
    }
  }

  lemma CoveredAlone(s: System, a: Addr, s1: System)
    requires ClientRm(s, a, s1)
    requires forall b :: b in s.nodes[a].p2p.peers && b in s.nodes ==>
               s1.nodes[a].store.Keys <= s.nodes[b].store.Keys
    ensures Covered(s, s1, {a})
  {
  }

  lemma AloneSecluded(s: System, a: Addr, s1: System, s': System)
    requires a in s.nodes && Secluded(s, s1, {a}, s')
    ensures s'.nodes.Keys == s.nodes.Keys && s'.nodes[a].store == s1.nodes[a].store
    ensures forall b :: b in s.nodes && b != a ==> s'.nodes[b].store == s.nodes[b].store
  {
  }

  /** A removal stays where it was made, in whatever run the network has come to rest before, if the peers of the
      daemon have all that it kept: it keeps what it kept, and every other database is what it was; so a peer that had
      something it did not keep goes on having it alone. */
  lemma RemovalStaysLocal(f: Format, run: seq<System>, a: Addr, after: seq<System>)
    requires Run(f, run) && Quiescent(Last(run)) && ProtocolRun(f, after) && ClientRm(Last(run), a, after[0])
    requires forall b :: b in Last(run).nodes[a].p2p.peers && b in Last(run).nodes ==>
               after[0].nodes[a].store.Keys <= Last(run).nodes[b].store.Keys
    ensures Last(after).nodes.Keys == Last(run).nodes.Keys
    ensures Last(after).nodes[a].store == after[0].nodes[a].store
    ensures forall b :: b in Last(run).nodes && b != a ==> Last(after).nodes[b].store == Last(run).nodes[b].store
    ensures forall b, h :: b in Last(run).nodes && h in Last(run).nodes[b].store.Keys - after[0].nodes[a].store.Keys ==>
              h !in Last(after).nodes[a].store && (b != a ==> h in Last(after).nodes[b].store)
  {
    RunGood(f, run);
    CoveredAlone(Last(run), a, after[0]);
    StaysWithin(f, Last(run), a, after, {a});
    AloneSecluded(Last(run), a, after[0], Last(after));
  }

  /** The daemons of a part that lack `h`, and the one that removed it. */
  ghost function Lacking(s: System, C: set<Addr>, a: Addr, h: Hash): set<Addr> {
    set x | x in C && x in s.nodes && (x == a || h !in s.nodes[x].store)
  }

  lemma LackingCovered(f: Format, run: seq<System>, a: Addr, s1: System, h: Hash)
    requires Run(f, run) && Quiescent(Last(run)) && a in run[0].nodes && ClientRm(Last(run), a, s1)
    requires forall b :: b in Component(run[0], a) && b in Last(run).nodes && h in Last(run).nodes[b].store ==>
               s1.nodes[a].store.Keys <= Last(run).nodes[b].store.Keys
    ensures Covered(Last(run), s1, Lacking(Last(run), Component(run[0], a), a, h))
  {
    var s, C := Last(run), Component(run[0], a);
    var M := Lacking(s, C, a, h);
    forall x, c, y | x in M && x in s.nodes && c in s.nodes[x].p2p.peers && c in s.nodes && c !in M &&
                     y in M && y in s1.nodes
      ensures s1.nodes[y].store.Keys <= s.nodes[c].store.Keys
    {
      PeersAtRest(f, run, x);
      SameComponent(run[0], a, x);
      SameComponent(run[0], a, y);
      assert h in s.nodes[c].store;
      if y != a { ChainAtRest(f, run, y, c); }
    }
  }

  /** What `a` removed stays away from it, if whoever has it has all that `a` kept. */
  lemma StaysAway(f: Format, run: seq<System>, a: Addr, after: seq<System>, h: Hash)
    requires Run(f, run) && Quiescent(Last(run)) && a in run[0].nodes
    requires ProtocolRun(f, after) && ClientRm(Last(run), a, after[0]) && h !in after[0].nodes[a].store
    requires forall b :: b in Component(run[0], a) && b in Last(run).nodes && h in Last(run).nodes[b].store ==>
               after[0].nodes[a].store.Keys <= Last(run).nodes[b].store.Keys
    ensures a in Last(after).nodes && h !in Last(after).nodes[a].store
  {
    var M := Lacking(Last(run), Component(run[0], a), a, h);
    RunGood(f, run);
    ComponentHas(run[0], a);
    LackingCovered(f, run, a, after[0], h);
    LackingStill(Last(run), Component(run[0], a), a, after[0], h);
    StaysWithin(f, Last(run), a, after, M);
  }

  lemma LackingStill(s: System, C: set<Addr>, a: Addr, s1: System, h: Hash)
    requires ClientRm(s, a, s1) && h !in s1.nodes[a].store
    ensures forall y :: y in Lacking(s, C, a, h) ==> y in s1.nodes && h !in s1.nodes[y].store
  {
  }

  lemma ComponentHas(s: System, a: Addr)
    requires a in s.nodes
    ensures a in Component(s, a)
  {
    assert Path(s, [a]);
  }

  // ---------------------------------------------------------------- what comes back

  lemma AddOnlyAfter(f: Format, after: seq<System>)
    requires ProtocolRun(f, after)
    ensures AddOnlySteps(f, after)
  {
  }

  lemma {:induction false} GrowsFrom(f: Format, after: seq<System>, c: Addr)
    requires AddOnlySteps(f, after) && c in after[0].nodes
    requires SafeInv(f, after[0]) && Confined(f, after[0], after[0].nodes.Keys)
    ensures SafeInv(f, Last(after)) && Confined(f, Last(after), Last(after).nodes.Keys)
    ensures Last(after).nodes.Keys == after[0].nodes.Keys && Grown(f, after[0].nodes[c], Last(after).nodes[c])
  {
    if |after| > 1 {
      var before := after[..|after|-1];
      GrowsFrom(f, before, c);
      assert AddOnlyStep(f, after[|after|-2], after[|after|-1]);
      StepGrows(f, Last(before), Last(after), c);
      StepGoodOn(f, Last(before), Last(after));
    }
  }

  lemma {:induction false} OneRun(f: Format, run: seq<System>, after: seq<System>)
    requires Run(f, run) && AddOnlySteps(f, after) && Step(f, Last(run), after[0])
    ensures Run(f, run + after) && Last(run + after) == Last(after) && (run + after)[0] == run[0]
  {
    var r := run + after;
    forall i | 0 <= i < |r| - 1 ensures Step(f, r[i], r[i+1]) {
      if i < |run| - 1 {
        assert Step(f, run[i], run[i+1]);
      } else if i >= |run| {
        assert AddOnlyStep(f, after[i-|run|], after[i-|run|+1]);
      }
    }
  }

  /** Nothing is waiting or in flight. */
  ghost predicate Resting(n: Node) {
    && n.hashes <= n.store.Keys && n.toDb == [] && n.toP2p == [] && n.p2p.requests == map[]
    && forall c :: c in n.p2p.peers ==> n.p2p.peers[c] == []
  }

  lemma RestingAdd(f: Format, s: System)
    requires forall x :: x in s.nodes ==> Resting(s.nodes[x])
    ensures AddInv(f, s, {})
  {
    forall x | x in s.nodes ensures Honest(s.nodes[x]) {
      assert Resting(s.nodes[x]);
    }
    forall x, c | x in s.nodes && c in s.nodes[x].p2p.peers && c in s.nodes
      ensures Synced(f, x in {}, x, s.nodes[x], c, s.nodes[c])
    {
      assert Resting(s.nodes[x]);
    }
  }

  lemma QuietAdd(f: Format, s: System)
    requires SafeInv(f, s) && Quiescent(s)
    ensures AddInv(f, s, {})
  {
    forall x | x in s.nodes ensures Resting(s.nodes[x]) {
      IdleAtRest(f, s, x);
    }
    RestingAdd(f, s);
  }

  lemma LocalNews(f: Format, x: Addr, n: Node, n': Node)
    requires LocalStep(f, x, n, n') && n'.store.Keys != n.store.Keys
    ensures News(n')
  {
  }

  lemma LocalStepNews(f: Format, s: System, x: Addr, s': System, b: Addr)
    requires Local(f, s, x, s') && b in s.nodes && s'.nodes[b].store.Keys != s.nodes[b].store.Keys
    ensures News(s'.nodes[b])
  {
    LocalNews(f, b, s.nodes[b], s'.nodes[b]);
  }

  /** A database that grows, if not by a client, is news. */
  lemma GrowthIsNews(f: Format, s: System, s': System, b: Addr)
    requires SafeInv(f, s) && ProtocolStep(f, s, s') && b in s.nodes && b in s'.nodes
    ensures s'.nodes[b].store.Keys == s.nodes[b].store.Keys || News(s'.nodes[b])
  {
    if src, dst :| Deliver(f, s, src, dst, s') {
      DeliverKeepsStores(f, s, src, dst, s', b);
    } else if s'.nodes[b].store.Keys != s.nodes[b].store.Keys {
      var x :| Local(f, s, x, s');
      LocalStepNews(f, s, x, s', b);
    }
  }

  lemma NewsTold(f: Format, s: System, b: Addr)
    requires AddInv(f, s, {}) && b in s.nodes && News(s.nodes[b])
    ensures AddInv(f, s, {b})
  {
    forall a, c | a in s.nodes && c in s.nodes[a].p2p.peers && c in s.nodes
      ensures Synced(f, a in {b}, a, s.nodes[a], c, s.nodes[c])
    {
      assert Synced(f, a in {}, a, s.nodes[a], c, s.nodes[c]);
    }
  }

  /** The database of `b` is what it was, or nothing that `b` should tell is lost. */
  ghost predicate SameOrTold(f: Format, s0: System, s: System, b: Addr) {
    b in s0.nodes && b in s.nodes && (s.nodes[b].store.Keys == s0.nodes[b].store.Keys || AddInv(f, s, {b}))
  }

  /** Nobody tells, or is told, what is not so. */
  ghost predicate Sane(f: Format, s: System) {
    SafeInv(f, s) && Confined(f, s, s.nodes.Keys) && AddInv(f, s, {})
  }

  lemma SameOrToldStep(f: Format, s0: System, s: System, s': System, b: Addr)
    requires Sane(f, s) && ProtocolStep(f, s, s') && SameOrTold(f, s0, s, b)
    ensures Sane(f, s') && SameOrTold(f, s0, s', b)
  {
    StepGoodOn(f, s, s');
    StepAdd(f, {}, s, s');
    if AddInv(f, s, {b}) {
      StepAdd(f, {b}, s, s');
    } else {
      GrowthIsNews(f, s, s', b);
      if News(s'.nodes[b]) { NewsTold(f, s', b); }
    }
  }

  lemma {:induction false} SameOrToldFrom(f: Format, after: seq<System>, b: Addr)
    requires ProtocolRun(f, after) && b in after[0].nodes && Sane(f, after[0])
    ensures Sane(f, Last(after)) && SameOrTold(f, after[0], Last(after), b)
  {
    if |after| > 1 {
      var before := after[..|after|-1];
      SameOrToldFrom(f, before, b);
      assert ProtocolStep(f, after[|after|-2], after[|after|-1]);
      SameOrToldStep(f, after[0], Last(before), Last(after), b);
    }
  }

  lemma ClearedSane(f: Format, s: System, a: Addr, s1: System, s2: System)
    requires SafeInv(f, s) && Confined(f, s, s.nodes.Keys) && Quiescent(s)
    requires ClientRm(s, a, s1) && ProtocolStep(f, s1, s2)
    ensures Sane(f, s2)
  {
    RemovedGood(f, s, a, s1);
    StepGoodOn(f, s1, s2);
    AllIdleAtRest(f, s);
    ClearedAdd(f, s, a, s1, s2);
  }

  lemma ClearedAdd(f: Format, s: System, a: Addr, s1: System, s2: System)
    requires AllIdle(s) && ClientRm(s, a, s1) && ProtocolStep(f, s1, s2)
    ensures AddInv(f, s2, {})
  {
    RefillsFirst(f, s, a, s1, s2, a);
    forall x | x in s2.nodes ensures Resting(s2.nodes[x]) {
      RefillsFirst(f, s, a, s1, s2, x);
      assert Idle(s.nodes[x]);
    }
    RestingAdd(f, s2);
  }

  /** Daemon `b` has `h`, with an author, and lacks something that `a` kept: it has something to ask for, and `h` to
      tell. */
  ghost predicate Reminds(f: Format, s: System, s1: System, a: Addr, b: Addr, h: Hash) {
    && b in s.nodes && a in s1.nodes && Has(f, false, s.nodes[b], h)
    && !(s1.nodes[a].store.Keys <= s.nodes[b].store.Keys)
  }

  lemma ToldAtRest(f: Format, run: seq<System>, b: Addr, a: Addr, h: Hash)
    requires Run(f, run) && Quiescent(Last(run)) && a in run[0].nodes && b in Component(run[0], a) && b != a
    requires AddInv(f, Last(run), {b}) && b in Last(run).nodes && Has(f, false, Last(run).nodes[b], h)
    ensures a in Last(run).nodes && h in Last(run).nodes[a].store
  {
    ComponentSymmetric(run[0], a, b);
    PeersAtRest(f, run, b);
    assert Knows(Last(run), b, a);
    RunSafe(f, run);
    QuietSynced(f, Last(run), {b}, b, a, h);
  }

  /** At rest again: `b` has been told what `a` kept, or `a` has been told all that `b` has. */
  lemma ToldOrTelling(f: Format, run: seq<System>, s0: System, a: Addr, b: Addr, h: Hash)
    requires Run(f, run) && Quiescent(Last(run)) && a in run[0].nodes && b in Component(run[0], a) && b != a
    requires Sane(f, Last(run)) && SameOrTold(f, s0, Last(run), b) && Has(f, false, Last(run).nodes[b], h)
    requires a in Last(run).nodes && a in s0.nodes && s0.nodes[a].store.Keys <= Last(run).nodes[a].store.Keys
    requires !(s0.nodes[a].store.Keys <= s0.nodes[b].store.Keys)
    ensures h in Last(run).nodes[a].store
  {
    if Last(run).nodes[b].store.Keys == s0.nodes[b].store.Keys {
      ChainAtRest(f, run, a, b);
    } else {
      ToldAtRest(f, run, b, a, h);
    }
  }

  lemma ComesBackLater(f: Format, run: seq<System>, later: seq<System>, a: Addr, b: Addr, h: Hash)
    requires Run(f, run) && Quiescent(Last(run)) && a in run[0].nodes && b in Component(run[0], a) && b != a
    requires ProtocolRun(f, later) && Last(later) == Last(run) && Sane(f, later[0])
    requires a in later[0].nodes && Reminds(f, later[0], later[0], a, b, h)
    ensures a in Last(run).nodes && h in Last(run).nodes[a].store
  {
    AddOnlyAfter(f, later);
    GrowsFrom(f, later, a);
    GrowsFrom(f, later, b);
    SameOrToldFrom(f, later, b);
    ToldOrTelling(f, run, later[0], a, b, h);
  }

  /** What `a` removed comes back to it, if a daemon reminds it. */
  lemma ComesBack(f: Format, run: seq<System>, a: Addr, after: seq<System>, b: Addr, h: Hash)
    requires Run(f, run) && Quiescent(Last(run)) && a in run[0].nodes && b in Component(run[0], a)
    requires ProtocolRun(f, after) && ClientRm(Last(run), a, after[0]) && Quiescent(Last(after))
    requires Reminds(f, Last(run), after[0], a, b, h)
    ensures a in Last(after).nodes && h in Last(after).nodes[a].store
  {
    var s, s1 := Last(run), after[0];
    assert |after| > 1 by { assert !Quiet(s1.nodes[a]); }
    TailRun(f, after);
    var later := after[1..];
    RunGood(f, run);
    ClearedSane(f, s, a, s1, later[0]);
    AllIdleAtRest(f, s);
    RefillsFirst(f, s, a, s1, later[0], a);
    RefillsFirst(f, s, a, s1, later[0], b);
    AddOnlyAfter(f, after);
    OneRun(f, run, after);
    ComesBackLater(f, run + after, later, a, b, h);
  }

  // ---------------------------------------------------------------- exactly when

  lemma {:induction false} OrphansFrom(f: Format, after: seq<System>, a: Addr)
    requires ProtocolRun(f, after) && Good(f, after[0]) && a in after[0].nodes
    ensures Good(f, Last(after)) && Last(after).injected == after[0].injected
    ensures Last(after).nodes.Keys == after[0].nodes.Keys
    ensures Orphaned(f, Last(after).nodes[a]) == Orphaned(f, after[0].nodes[a])
  {
    if |after| > 1 {
      var before := after[..|after|-1];
      OrphansFrom(f, before, a);
      assert ProtocolStep(f, after[|after|-2], after[|after|-1]);
      StaysOrphaned(f, Last(before), Last(after));
    }
  }

  lemma StoredCameIn(f: Format, s: System, x: Addr, h: Hash)
    requires Good(f, s) && x in s.nodes && h in s.nodes[x].store
    ensures s.nodes[x].store[h] in Injected(s, s.nodes.Keys) && f.sha(s.nodes[x].store[h]) == h
  {
    assert NodeConfined(f, s.nodes[x], s.nodes.Keys, Injected(s, s.nodes.Keys)) && NodeInv(f, x, s.nodes[x]);
    assert s.nodes[x].store[h] in s.nodes[x].store.Values;
  }

  /** The digest of a document without author does not come back at all. */
  lemma OrphanStaysAway(f: Format, s: System, a: Addr, after: seq<System>, x: Addr, h: Hash)
    requires Good(f, s) && ProtocolRun(f, after) && ClientRm(s, a, after[0])
    requires x in s.nodes && h in Orphaned(f, s.nodes[x]) && h !in after[0].nodes[a].store
    ensures a in Last(after).nodes && h !in Last(after).nodes[a].store
  {
    var s1, s' := after[0], Last(after);
    RemovedGood(f, s, a, s1);
    assert s1.injected == s.injected && Injected(s1, s1.nodes.Keys) == Injected(s, s.nodes.Keys);
    OrphansFrom(f, after, a);
    assert Injected(s', s'.nodes.Keys) == Injected(s, s.nodes.Keys);
    StoredCameIn(f, s, x, h);
    forall k | k in s'.nodes[a].store && k !in s1.nodes[a].store ensures k != h {
      StoredCameIn(f, s', a, k);
      assert k !in Orphaned(f, s'.nodes[a]);
    }
  }

  lemma StaysAwayUnreminded(f: Format, run: seq<System>, a: Addr, after: seq<System>, h: Hash)
    requires Run(f, run) && Quiescent(Last(run)) && a in run[0].nodes
    requires ProtocolRun(f, after) && ClientRm(Last(run), a, after[0]) && h !in after[0].nodes[a].store
    requires f.Discerning(Injected(Last(run), run[0].nodes.Keys))
    requires forall b :: b in Component(run[0], a) ==> !Reminds(f, Last(run), after[0], a, b, h)
    ensures a in Last(after).nodes && h !in Last(after).nodes[a].store
  {
    RunGood(f, run);
    if x :| x in Last(run).nodes && h in Orphaned(f, Last(run).nodes[x]) {
      OrphanStaysAway(f, Last(run), a, after, x, h);
    } else {
      forall b | b in Component(run[0], a) && b in Last(run).nodes && h in Last(run).nodes[b].store
        ensures after[0].nodes[a].store.Keys <= Last(run).nodes[b].store.Keys
      {
        assert !Reminds(f, Last(run), after[0], a, b, h) && h !in Orphaned(f, Last(run).nodes[b]);
      }
      StaysAway(f, run, a, after, h);
    }
  }

  lemma KeepsKept(f: Format, run: seq<System>, a: Addr, after: seq<System>)
    requires Run(f, run) && ProtocolRun(f, after) && ClientRm(Last(run), a, after[0])
    ensures a in Last(after).nodes && after[0].nodes[a].store.Keys <= Last(after).nodes[a].store.Keys
  {
    RunGood(f, run);
    RemovedGood(f, Last(run), a, after[0]);
    AddOnlyAfter(f, after);
    GrowsFrom(f, after, a);
  }

  /** What a daemon has, at rest again after a client removed something there, whatever run had come to rest before:
      what it kept, and what has an author and is at a daemon of the part that lacked something it kept.  So a
      document that it removed is back exactly if it has an author and is at such a daemon. */
  lemma RemovalComesBackIff(f: Format, run: seq<System>, a: Addr, after: seq<System>, h: Hash)
    requires Run(f, run) && Quiescent(Last(run)) && a in run[0].nodes
    requires ProtocolRun(f, after) && ClientRm(Last(run), a, after[0]) && Quiescent(Last(after))
    requires f.Discerning(Injected(Last(run), run[0].nodes.Keys))
    ensures a in Last(after).nodes
    ensures h in Last(after).nodes[a].store <==>
            h in after[0].nodes[a].store ||
            exists b :: b in Component(run[0], a) && Reminds(f, Last(run), after[0], a, b, h)
  {
    KeepsKept(f, run, a, after);
    if b :| b in Component(run[0], a) && Reminds(f, Last(run), after[0], a, b, h) {
      ComesBack(f, run, a, after, b, h);
    } else if h !in after[0].nodes[a].store {
      StaysAwayUnreminded(f, run, a, after, h);
    }
  }

  // ---------------------------------------------------------------- undone by an addition

  lemma AddedTold(f: Format, s: System, c: Addr, docs: set<Text>, s': System)
    requires SafeInv(f, s) && Quiescent(s) && ClientAdd(f, s, c, docs, s')
    ensures AddInv(f, s', {c})
  {
    QuietAdd(f, s);
    SafeNoLoops(f, s);
    ClientAddAdd(f, {}, s, c, docs, s');
    assert {} + {c} == {c};
  }

  lemma AddedSafe(f: Format, s: System, c: Addr, docs: set<Text>, s': System)
    requires SafeInv(f, s) && Confined(f, s, s.nodes.Keys) && ClientAdd(f, s, c, docs, s')
    ensures SafeInv(f, s') && Confined(f, s', s'.nodes.Keys)
  {
    ClientSafe(f, s, c, docs, s');
    SafeNoLoops(f, s);
    ClientAllConfined(f, s, c, docs, s', s.nodes.Keys);
    assert s'.nodes.Keys == s.nodes.Keys;
  }

  lemma AddedHas(f: Format, s: System, c: Addr, docs: set<Text>, s': System, h: Hash)
    requires SafeInv(f, s) && ClientAdd(f, s, c, docs, s') && Has(f, false, s.nodes[c], h)
    ensures Has(f, false, s'.nodes[c], h)
  {
    assert NodeInv(f, c, s.nodes[c]);
    ClientStepGrows(f, s, c, docs, s', c);
  }

  /** Once a client adds anything at a daemon `c`, after whatever run, and the clients then only add, the network
      is at rest again only when every document with an author that `c` had is at every daemon of the part, also
      where it had been removed. */
  lemma RemovalUndone(f: Format, run: seq<System>, c: Addr, docs: set<Text>, after: seq<System>, a: Addr, h: Hash)
    requires Run(f, run) && Quiescent(Last(run)) && c in run[0].nodes && a in Component(run[0], c)
    requires AddOnlySteps(f, after) && ClientAdd(f, Last(run), c, docs, after[0]) && Quiescent(Last(after))
    requires Has(f, false, Last(run).nodes[c], h)
    ensures a in Last(after).nodes && h in Last(after).nodes[a].store
  {
    OneRun(f, run, after);
    RunGood(f, run);
    AddedSafe(f, Last(run), c, docs, after[0]);
    AddedTold(f, Last(run), c, docs, after[0]);
    AddedHas(f, Last(run), c, docs, after[0], h);
    GrowsFrom(f, after, c);
    AddFrom(f, {c}, after);
    if a != c {
      ComponentSymmetric(run[0], c, a);
      ToldAtRest(f, run + after, c, a, h);
    }
  }
}
