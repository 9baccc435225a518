/** When the network comes to rest, and what it has come to then. */
module Rest {
  import opened Messages
  import opened Gossip
  import opened Safety
  import opened Confinement
  import opened NoLostUpdate
  import opened Convergence
  import opened Chains
  import opened Circles
  import opened Termination
  import opened Progress

  // ---------------------------------------------------------------- exactly when

  /** The same history, and the same documents without author at every daemon. */
  ghost predicate SameOrphans(f: Format, s: System, s': System) {
    && s'.injected == s.injected && s'.nodes.Keys == s.nodes.Keys
    && forall a :: a in s.nodes && a in s'.nodes ==> Orphaned(f, s'.nodes[a]) == Orphaned(f, s.nodes[a])
  }

  lemma SilentStep(f: Format, b: nat -> System, k: nat, i: nat)
    requires Behaviour(f, b) && SilentFrom(f, b, k) && i >= k && f.Discerning(Injected(b(i), b(0).nodes.Keys))
    ensures SameOrphans(f, b(i), b(i+1))
  {
    assert ProtocolStep(f, b(i), b(i+1)) || b(i+1) == b(i);
    if b(i+1) != b(i) {
      BehaviourGood(f, b, i);
      StaysOrphaned(f, b(i), b(i+1));
    }
  }

  lemma {:induction false} SilentKeeps(f: Format, b: nat -> System, k: nat, j: nat)
    requires Behaviour(f, b) && SilentFrom(f, b, k) && f.Discerning(Injected(b(k), b(0).nodes.Keys)) && j >= k
    ensures SameOrphans(f, b(k), b(j)) && Injected(b(j), b(0).nodes.Keys) == Injected(b(k), b(0).nodes.Keys)
    decreases j
  {
    if j > k {
      SilentKeeps(f, b, k, j-1);
      SilentStep(f, b, k, j-1);
      OrphansChain(f, b(k), b(j-1), b(j));
      SameInjected(b(j-1), b(j), b(0).nodes.Keys);
    }
  }

  lemma OrphansChain(f: Format, s: System, s': System, s'': System)
    requires SameOrphans(f, s, s') && SameOrphans(f, s', s'')
    ensures SameOrphans(f, s, s'')
  {
  }

  lemma SameInjected(s: System, s': System, S: set<Addr>)
    requires s'.injected == s.injected
    ensures Injected(s', S) == Injected(s, S)
  {
  }

  /** At rest, of any two daemons of a part one stores all the other stores. */
  lemma RestIsComparable(f: Format, run: seq<System>)
    requires Run(f, run) && Quiescent(Last(run)) && f.Discerning(Injected(Last(run), run[0].nodes.Keys))
    ensures Comparable(f, run[0], Last(run))
  {
    RunIsGood(f, run);
    var s := Last(run);
    forall a, c | a in s.nodes && c in s.nodes && c in Component(run[0], a)
      ensures Orphaned(f, s.nodes[a]) <= Orphaned(f, s.nodes[c]) || Orphaned(f, s.nodes[c]) <= Orphaned(f, s.nodes[a])
    {
      ChainAtRest(f, run, a, c);
      OrphanedIsOwn(f, s, a);
      OrphanedIsOwn(f, s, c);
    }
  }

  /** The network comes to rest, once the clients are silent, exactly if within each connected part of the start-up
      graph, of any two daemons one then stores all documents without author that the other stores.  Removals may
      have come before. */
  lemma RestIff(f: Format, b: nat -> System, k: nat)
    requires Behaviour(f, b) && SilentFrom(f, b, k) && f.Discerning(Injected(b(k), b(0).nodes.Keys))
    ensures (exists j: nat :: j >= k && Quiescent(b(j))) <==> Comparable(f, b(0), b(k))
  {
    if j: nat :| j >= k && Quiescent(b(j)) {
      SilentKeeps(f, b, k, j);
      var run := RunUpTo(f, b, j);
      RestIsComparable(f, run);
    }
    if Comparable(f, b(0), b(k)) {
      var j := ComesToRest(f, b, k);
    }
  }

  // ---------------------------------------------------------------- histories exist

  /** Some step, if one can be taken. */
  ghost function Next(f: Format, s: System): System {
    if exists s' :: ProtocolStep(f, s, s') then
      var s' :| ProtocolStep(f, s, s'); s'
    else s
  }

  ghost function History(f: Format, s: System, i: nat): System {
    if i == 0 then s else Next(f, History(f, s, i - 1))
  }

  lemma {:induction false} HistorySafe(f: Format, s: System, i: nat)
    requires Init(f, s)
    ensures SafeInv(f, History(f, s, i))
  {
    if i == 0 {
      InitSafe(f, s);
    } else {
      HistorySafe(f, s, i - 1);
      var before := History(f, s, i - 1);
      if exists s' :: ProtocolStep(f, before, s') {
        StepSafe(f, before, History(f, s, i));
      }
    }
  }

  lemma HistoryStep(f: Format, s: System, i: nat)
    requires Init(f, s)
    ensures var h, h' := History(f, s, i), History(f, s, i + 1); ProtocolStep(f, h, h') || (Quiescent(h) && h' == h)
  {
    HistorySafe(f, s, i);
    StuckIffQuiescent(f, History(f, s, i));
  }

  lemma StepFirst(f: Format, s: System, later: seq<System>)
    requires ProtocolRun(f, later) && ProtocolStep(f, s, later[0])
    ensures ProtocolRun(f, [s] + later) && Last([s] + later) == Last(later)
  {
  }

  lemma RunOn(f: Format, run: seq<System>, s': System)
    requires Run(f, run) && ProtocolStep(f, Last(run), s')
    ensures Run(f, run + [s']) && Last(run + [s']) == s' && (run + [s'])[0] == run[0]
  {
    var r := run + [s'];
    forall i | 0 <= i < |r| - 1 ensures Step(f, r[i], r[i+1]) {
      assert i < |run| - 1 ==> Step(f, run[i], run[i+1]);
    }
  }

  /** A network not at rest can come nearer to it. */
  lemma Nearer(f: Format, run: seq<System>) returns (s': System)
    requires Run(f, run) && f.Discerning(Injected(Last(run), run[0].nodes.Keys)) && Comparable(f, run[0], Last(run))
    requires !Quiescent(Last(run))
    ensures ProtocolStep(f, Last(run), s') && Decreased(f, StakesOf(f, Last(run)), Last(run), s')
    ensures StakesOf(f, s') == StakesOf(f, Last(run)) && Comparable(f, run[0], s')
    ensures f.Discerning(Injected(s', run[0].nodes.Keys))
  {
    RunSafe(f, run);
    StuckIffQuiescent(f, Last(run));
    s' :| ProtocolStep(f, Last(run), s');
    OneStepNearer(f, run, s');
  }

  /** After any run that leaves the documents without author comparable, the daemons can go on to rest. */
  lemma {:induction false} RestReached(f: Format, run: seq<System>) returns (after: seq<System>)
    requires Run(f, run) && f.Discerning(Injected(Last(run), run[0].nodes.Keys)) && Comparable(f, run[0], Last(run))
    ensures ProtocolRun(f, after) && after[0] == Last(run) && Quiescent(Last(after))
    decreases Missing(StakesOf(f, Last(run)), Last(run)), WorkLeft(f, StakesOf(f, Last(run)), Last(run))
  {
    if Quiescent(Last(run)) {
      after := [Last(run)];
    } else {
      var s' := Nearer(f, run);
      RunOn(f, run, s');
      var later := RestReached(f, run + [s']);
      StepFirst(f, Last(run), later);
      after := [Last(run)] + later;
    }
  }

  /** Whatever the daemons are started with, the network has an unending history without any client. */
  lemma EveryStartGoesOn(f: Format, s: System) returns (b: nat -> System)
    requires Init(f, s)
    ensures b(0) == s && Behaviour(f, b) && SilentFrom(f, b, 0)
  {
    b := (i: nat) => History(f, s, i);
    forall i: nat ensures ProtocolStep(f, b(i), b(i+1)) || (Quiescent(b(i)) && b(i+1) == b(i)) {
      HistoryStep(f, s, i);
    }
  }

  /** So two daemons of one part, each with a document without author that the other lacks, never come to rest,
      whatever happens. */
  lemma NeverAtRest(f: Format, b: nat -> System, k: nat, x: Addr, y: Addr, h: Hash, i: Hash)
    requires Behaviour(f, b) && SilentFrom(f, b, k) && f.Discerning(Injected(b(k), b(0).nodes.Keys))
    requires x in b(k).nodes && y in b(k).nodes && y in Component(b(0), x)
    requires h in Orphaned(f, b(k).nodes[x]) && h !in b(k).nodes[y].store
    requires i in Orphaned(f, b(k).nodes[y]) && i !in b(k).nodes[x].store
    ensures forall j: nat :: j >= k ==> !Quiescent(b(j))
  {
    assert !Comparable(f, b(0), b(k));
    RestIff(f, b, k);
  }

  // ---------------------------------------------------------------- while clients only add

  ghost predicate AddOnlyBehaviour(f: Format, b: nat -> System) {
    && Init(f, b(0))
    && forall i: nat {:trigger AddOnlyStep(f, b(i), b(i+1))} ::
         AddOnlyStep(f, b(i), b(i+1)) || (Quiescent(b(i)) && b(i+1) == b(i))
  }

  lemma AddOnlyBehaviourStep(f: Format, b: nat -> System, i: nat)
    requires AddOnlyBehaviour(f, b)
    ensures AddOnlyStep(f, b(i), b(i+1)) || b(i+1) == b(i)
  {
  }

  lemma {:induction false} AddOnlyUpTo(f: Format, b: nat -> System, i: nat) returns (run: seq<System>)
    requires AddOnlyBehaviour(f, b)
    ensures AddOnlyRun(f, run) && run[0] == b(0) && Last(run) == b(i)
  {
    if i == 0 {
      run := [b(0)];
    } else {
      var before := AddOnlyUpTo(f, b, i-1);
      AddOnlyBehaviourStep(f, b, i-1);
      if b(i) == b(i-1) {
        run := before;
      } else {
        run := before + [b(i)];
      }
    }
  }

  /** The documents without author that a daemon stores are those that came in at it. */
  lemma OrphanedCameIn(f: Format, run: seq<System>, a: Addr)
    requires AddOnlyRun(f, run) && a in run[0].nodes && f.Discerning(Injected(Last(run), run[0].nodes.Keys))
    ensures a in Last(run).nodes && a in Last(run).injected
    ensures Orphaned(f, Last(run).nodes[a]) == f.Digests(f.Orphans(Last(run).injected[a]))
  {
    var s := Last(run);
    AddOnlyIsRun(f, run);
    OwnHistory(f, run, a);
    StoreWithin(f, run, a);
    RunKept(f, run);
    InjectedSubset(s, Component(run[0], a), run[0].nodes.Keys);
    var n, T := s.nodes[a], s.injected[a];
    forall h | h in Orphaned(f, n) ensures h in f.Digests(f.Orphans(T)) {
      assert n.store[h] in f.Orphans(T);
    }
    forall h | h in f.Digests(f.Orphans(T)) ensures h in Orphaned(f, n) {
      var t :| t in f.Orphans(T) && f.sha(t) == h;
      assert h in f.Digests(T);
      assert n.store[h] in n.store.Values;
    }
  }

  /** Within each part, of any two daemons all documents without author that came in at one came in at the other too. */
  ghost predicate OrphansComparable(f: Format, s0: System, s: System) {
    forall a, c :: a in s.injected && c in s.injected && c in Component(s0, a) ==>
      f.Digests(f.Orphans(s.injected[a])) <= f.Digests(f.Orphans(s.injected[c])) ||
      f.Digests(f.Orphans(s.injected[c])) <= f.Digests(f.Orphans(s.injected[a]))
  }

  lemma AddOnlyIsBehaviour(f: Format, b: nat -> System)
    requires AddOnlyBehaviour(f, b)
    ensures Behaviour(f, b)
  {
    forall i: nat ensures Step(f, b(i), b(i+1)) || (Quiescent(b(i)) && b(i+1) == b(i)) {
      assert AddOnlyStep(f, b(i), b(i+1)) || (Quiescent(b(i)) && b(i+1) == b(i));
    }
  }

  lemma ComparableIff(f: Format, b: nat -> System, k: nat)
    requires AddOnlyBehaviour(f, b) && f.Discerning(Injected(b(k), b(0).nodes.Keys))
    ensures Comparable(f, b(0), b(k)) <==> OrphansComparable(f, b(0), b(k))
  {
    AddOnlyIsBehaviour(f, b);
    BehaviourGood(f, b, k);
    var run := AddOnlyUpTo(f, b, k);
    forall a | a in b(k).nodes
      ensures a in b(k).injected && Orphaned(f, b(k).nodes[a]) == f.Digests(f.Orphans(b(k).injected[a]))
    {
      OrphanedCameIn(f, run, a);
    }
    assert b(k).injected.Keys == b(k).nodes.Keys;
  }

  /** A daemon knows exactly the others of its part, and stores exactly what is due to it. */
  ghost predicate Consistent(f: Format, s0: System, s: System, a: Addr) {
    && a in s.nodes && a in s.injected
    && s.nodes[a].p2p.peers.Keys == Component(s0, a) - {a}
    && s.nodes[a].store.Keys == f.Digests(Due(f, s, Component(s0, a), a))
    && (f.Injective(Injected(s, s0.nodes.Keys)) ==> s.nodes[a].store.Values == Due(f, s, Component(s0, a), a))
  }

  lemma RestHolds(f: Format, b: nat -> System, j: nat, a: Addr)
    requires AddOnlyBehaviour(f, b) && Quiescent(b(j)) && a in b(0).nodes
    requires f.Discerning(Injected(b(j), b(0).nodes.Keys))
    ensures Consistent(f, b(0), b(j), a)
  {
    var run := AddOnlyUpTo(f, b, j);
    AddOnlyIsRun(f, run);
    PeersAtRest(f, run, a);
    StoresAtRest(f, run, a);
    if f.Injective(Injected(b(j), b(0).nodes.Keys)) {
      UnionAtRest(f, run, a);
    }
  }

  /** Eventual consistency: a history in which clients only add and at moment `k` fall silent comes to rest exactly
      if the documents without author that came in are comparable; and whenever it is at rest, every daemon knows
      exactly the others of its connected part of the start-up graph, and stores exactly what came in at it and
      what has an author and came in anywhere in that part. */
  lemma EventuallyConsistent(f: Format, b: nat -> System, k: nat)
    requires AddOnlyBehaviour(f, b) && SilentFrom(f, b, k) && f.Discerning(Injected(b(k), b(0).nodes.Keys))
    ensures (exists j: nat :: j >= k && Quiescent(b(j))) <==> OrphansComparable(f, b(0), b(k))
    ensures forall j: nat, a :: j >= k && Quiescent(b(j)) && a in b(0).nodes ==>
              b(j).injected == b(k).injected && Consistent(f, b(0), b(j), a)
  {
    AddOnlyIsBehaviour(f, b);
    RestIff(f, b, k);
    ComparableIff(f, b, k);
    forall j: nat, a | j >= k && Quiescent(b(j)) && a in b(0).nodes
      ensures b(j).injected == b(k).injected && Consistent(f, b(0), b(j), a)
    {
      SilentKeeps(f, b, k, j);
      RestHolds(f, b, j, a);
    }
  }
}
