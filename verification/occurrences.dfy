/** That what is promised does fail: for any two addresses and documents of the kinds in question, a network in which
    it does. */
module Occurrences {
  import opened Messages
  import opened Daemon
  import opened Gossip
  import opened Updates
  import opened Origins
  import opened NoLostUpdate
  import opened Convergence
  import opened Circles
  import opened Termination
  import opened Rest
  import opened Removal
  import opened TwoDaemons

  function Only(f: Format, t: Text): map<Hash, Text> {
    map[f.sha(t) := t]
  }

  lemma OnlyHas(f: Format, t: Text)
    ensures Only(f, t).Values == {t} && Only(f, t).Keys == {f.sha(t)}
    ensures f.Settled(t) ==> Proper(f, Only(f, t))
  {
    assert Only(f, t)[f.sha(t)] in Only(f, t).Values;
  }

  lemma Nothing(f: Format)
    ensures var none: map<Hash, Text> := map[]; Proper(f, none) && none.Values == {}
  {
  }

  /** Two daemons go on from a start with two databases. */
  lemma GoesOn(f: Format, x: Addr, mx: map<Hash, Text>, y: Addr, my: map<Hash, Text>) returns (b: nat -> System)
    requires x != y && Proper(f, mx) && Proper(f, my)
    ensures b(0) == Starting(x, mx, y, my) && Behaviour(f, b) && SilentFrom(f, b, 0)
    ensures y in Component(b(0), x) && Injected(b(0), b(0).nodes.Keys) == mx.Values + my.Values
    ensures x in b(0).nodes && b(0).nodes[x].store == mx && x in b(0).injected && b(0).injected[x] == mx.Values
    ensures y in b(0).nodes && b(0).nodes[y].store == my && y in b(0).injected && b(0).injected[y] == my.Values
  {
    StartingIsInit(f, x, mx, y, my);
    StartingInjected(x, mx, y, my);
    Neighbours(x, mx, y, my);
    b := EveryStartGoesOn(f, Starting(x, mx, y, my));
  }

  // ---------------------------------------------------------------- gossip does not end

  lemma AllOrphansDiscerned(f: Format, T: set<Text>)
    requires f.Authored(T) == {}
    ensures f.Discerning(T)
  {
    forall t | t in T ensures f.author(t) == "" {
      assert t !in f.Authored(T);
    }
  }

  lemma StoredOrphan(f: Format, n: Node, t: Text)
    requires n.store == Only(f, t) && f.author(t) == ""
    ensures Orphaned(f, n) == {f.sha(t)} && n.store.Keys == {f.sha(t)}
  {
    OnlyHas(f, t);
  }

  lemma OrphansOnly(f: Format, b: nat -> System, x: Addr, t: Text, y: Addr, u: Text)
    requires Behaviour(f, b) && SilentFrom(f, b, 0) && y in Component(b(0), x)
    requires Injected(b(0), b(0).nodes.Keys) <= {t, u} && f.sha(t) != f.sha(u) && f.author(t) == "" == f.author(u)
    requires x in b(0).nodes && b(0).nodes[x].store == Only(f, t)
    requires y in b(0).nodes && b(0).nodes[y].store == Only(f, u)
    ensures forall j: nat :: !Quiescent(b(j))
  {
    AllOrphansDiscerned(f, Injected(b(0), b(0).nodes.Keys));
    StoredOrphan(f, b(0).nodes[x], t);
    StoredOrphan(f, b(0).nodes[y], u);
    NeverAtRest(f, b, 0, x, y, f.sha(t), f.sha(u));
  }

  /** Two daemons that are started with one document without author each never come to rest. */
  lemma GossipUnending(f: Format, x: Addr, t: Text, y: Addr, u: Text) returns (b: nat -> System)
    requires x != y && f.Settled(t) && f.Settled(u) && f.sha(t) != f.sha(u) && f.author(t) == "" == f.author(u)
    ensures b(0) == Starting(x, Only(f, t), y, Only(f, u)) && Behaviour(f, b) && SilentFrom(f, b, 0)
    ensures forall j: nat :: !Quiescent(b(j))
  {
    OnlyHas(f, t);
    OnlyHas(f, u);
    b := GoesOn(f, x, Only(f, t), y, Only(f, u));
    OrphansOnly(f, b, x, t, y, u);
  }

  // ---------------------------------------------------------------- databases stay different

  lemma SilentAddsOnly(f: Format, b: nat -> System)
    requires Behaviour(f, b) && SilentFrom(f, b, 0)
    ensures AddOnlyBehaviour(f, b)
  {
    forall i: nat ensures AddOnlyStep(f, b(i), b(i+1)) || (Quiescent(b(i)) && b(i+1) == b(i)) {
      assert ProtocolStep(f, b(i), b(i+1)) || (Quiescent(b(i)) && b(i+1) == b(i));
    }
  }

  lemma DifferAtRest(f: Format, b: nat -> System, x: Addr, y: Addr, j: nat)
    requires Behaviour(f, b) && SilentFrom(f, b, 0) && Quiescent(b(j)) && b(j).injected == b(0).injected
    requires x in b(0).nodes && y in Component(b(0), x) && f.Injective(Injected(b(0), b(0).nodes.Keys))
    requires x in b(0).injected && y in b(0).injected
    requires f.Orphans(b(0).injected[x]) != f.Orphans(b(0).injected[y])
    ensures x in b(j).nodes && y in b(j).nodes && b(j).nodes[x].store != b(j).nodes[y].store
  {
    SilentAddsOnly(f, b);
    var run := AddOnlyUpTo(f, b, j);
    SameInjected(b(0), b(j), b(0).nodes.Keys);
    EqualAtRestIff(f, run, x, y);
  }

  lemma OneOrphanComparable(f: Format, x: Addr, mx: map<Hash, Text>, y: Addr, my: map<Hash, Text>)
    requires x != y && forall h :: h in my && f.author(my[h]) == "" ==> h in mx && f.author(mx[h]) == ""
    ensures var s := Starting(x, mx, y, my); Comparable(f, s, s)
  {
    var s := Starting(x, mx, y, my);
    assert s.nodes[x].store == mx && s.nodes[y].store == my && s.nodes.Keys == {x, y};
    assert Orphaned(f, s.nodes[y]) <= Orphaned(f, s.nodes[x]);
  }

  lemma OrphanAlone(f: Format, b: nat -> System, x: Addr, t: Text, y: Addr) returns (j: nat)
    requires Behaviour(f, b) && SilentFrom(f, b, 0) && x in b(0).nodes && y in Component(b(0), x)
    requires Injected(b(0), b(0).nodes.Keys) == {t} && Comparable(f, b(0), b(0)) && f.author(t) == ""
    requires x in b(0).injected && b(0).injected[x] == {t} && y in b(0).injected && b(0).injected[y] == {}
    ensures Quiescent(b(j)) && x in b(j).nodes && y in b(j).nodes && b(j).nodes[x].store != b(j).nodes[y].store
  {
    j := ComesToRest(f, b, 0);
    assert t in f.Orphans({t}) && t !in f.Orphans({});
    DifferAtRest(f, b, x, y, j);
  }

  /** Two daemons of which one is started with a document without author, the other with nothing, come to rest with
      different databases. */
  lemma DatabasesDiffer(f: Format, x: Addr, t: Text, y: Addr) returns (b: nat -> System, j: nat)
    requires x != y && f.Settled(t) && f.author(t) == ""
    ensures b(0) == Starting(x, Only(f, t), y, map[]) && Behaviour(f, b) && SilentFrom(f, b, 0)
    ensures y in Component(b(0), x) && Quiescent(b(j)) && x in b(j).nodes && y in b(j).nodes
    ensures b(j).nodes[x].store != b(j).nodes[y].store
  {
    OnlyHas(f, t);
    Nothing(f);
    b := GoesOn(f, x, Only(f, t), y, map[]);
    OneOrphanComparable(f, x, Only(f, t), y, map[]);
    j := OrphanAlone(f, b, x, t, y);
  }

  // ---------------------------------------------------------------- removals

  lemma ProtocolOnly(f: Format, after: seq<System>)
    requires ProtocolRun(f, after) && Init(f, after[0])
    ensures AddOnlyRun(f, after)
  {
  }

  /** Daemons come to rest by themselves from a start with comparable documents without author. */
  lemma RestsFrom(f: Format, s: System, x: Addr) returns (run: seq<System>)
    requires Init(f, s) && f.Discerning(Injected(s, s.nodes.Keys)) && Comparable(f, s, s) && x in s.nodes
    ensures AddOnlyRun(f, run) && run[0] == s && Quiescent(Last(run))
    ensures Last(run).injected == s.injected && Last(run).nodes.Keys == s.nodes.Keys
  {
    run := RestReached(f, [s]);
    ProtocolOnly(f, run);
    RunIsGood(f, [s]);
    OrphansFrom(f, run, x);
  }

  /** Two daemons, to be precise. */
  lemma RestsFirst(f: Format, x: Addr, mx: map<Hash, Text>, y: Addr, my: map<Hash, Text>) returns (run: seq<System>)
    requires x != y && Proper(f, mx) && Proper(f, my) && f.Discerning(mx.Values + my.Values)
    requires forall h :: h in my && f.author(my[h]) == "" ==> h in mx && f.author(mx[h]) == ""
    ensures AddOnlyRun(f, run) && run[0] == Starting(x, mx, y, my) && Quiescent(Last(run))
    ensures run[0].nodes.Keys == {x, y} == Last(run).nodes.Keys
    ensures y in Component(run[0], x) && x in Component(run[0], y)
    ensures Last(run).injected == map[x := mx.Values, y := my.Values]
    ensures Injected(Last(run), run[0].nodes.Keys) == mx.Values + my.Values
  {
    var s := Starting(x, mx, y, my);
    StartingIsInit(f, x, mx, y, my);
    StartingInjected(x, mx, y, my);
    Neighbours(x, mx, y, my);
    OneOrphanComparable(f, x, mx, y, my);
    assert s.nodes.Keys == {x, y};
    run := RestsFrom(f, s, x);
    SameInjected(s, Last(run), {x, y});
  }

  /** A client removes `gone`, which all have an author, and the network comes to rest again. */
  lemma RemovesAndRests(f: Format, run: seq<System>, x: Addr, gone: set<Hash>) returns (after: seq<System>)
    requires Run(f, run) && Quiescent(Last(run)) && f.Discerning(Injected(Last(run), run[0].nodes.Keys))
    requires x in Last(run).nodes && gone !! Orphaned(f, Last(run).nodes[x])
    ensures ProtocolRun(f, after) && ClientRm(Last(run), x, after[0]) && Quiescent(Last(after))
    ensures after[0].nodes[x].store == Last(run).nodes[x].store - gone
  {
    var s := Last(run);
    var n := s.nodes[x].(store := s.nodes[x].store - gone, dbPc := DbStale);
    var s1 := s.(nodes := s.nodes[x := n]);
    assert ClientRm(s, x, s1);
    RestIsComparable(f, run);
    StillComparable(f, run[0], s, x, s1, gone);
    RunRm(f, run, x, s1);
    SameInjected(s, s1, run[0].nodes.Keys);
    after := RestReached(f, run + [s1]);
  }

  lemma StillComparable(f: Format, s0: System, s: System, x: Addr, s1: System, gone: set<Hash>)
    requires Comparable(f, s0, s) && ClientRm(s, x, s1) && gone !! Orphaned(f, s.nodes[x])
    requires s1.nodes[x].store == s.nodes[x].store - gone
    ensures Comparable(f, s0, s1)
  {
    assert Orphaned(f, s1.nodes[x]) == Orphaned(f, s.nodes[x]);
    forall a | a in s1.nodes ensures a in s.nodes && Orphaned(f, s1.nodes[a]) == Orphaned(f, s.nodes[a]) {
      assert a != x ==> s1.nodes[a] == s.nodes[a];
    }
  }

  lemma RunRm(f: Format, run: seq<System>, x: Addr, s1: System)
    requires Run(f, run) && ClientRm(Last(run), x, s1)
    ensures Run(f, run + [s1]) && Last(run + [s1]) == s1 && (run + [s1])[0] == run[0]
  {
    var r := run + [s1];
    forall i | 0 <= i < |r| - 1 ensures Step(f, r[i], r[i+1]) {
      assert i < |run| - 1 ==> Step(f, run[i], run[i+1]);
    }
  }

  /** What has come in at the daemons is all they have, and all that came in at one it has. */
  lemma StoresThen(f: Format, run: seq<System>, a: Addr)
    requires AddOnlyRun(f, run) && a in run[0].nodes && a in Last(run).injected && a in Last(run).nodes
    requires f.Injective(Injected(Last(run), run[0].nodes.Keys))
    ensures forall h :: h in Last(run).nodes[a].store ==> f.sha(Last(run).nodes[a].store[h]) == h
    ensures forall h :: h in Last(run).nodes[a].store ==>
              || Last(run).nodes[a].store[h] in Last(run).injected[a]
              || (Last(run).nodes[a].store[h] in Injected(Last(run), run[0].nodes.Keys) &&
                  f.author(Last(run).nodes[a].store[h]) != "")
    ensures forall t :: t in Last(run).injected[a] ==> f.sha(t) in Last(run).nodes[a].store
  {
    AddOnlyIsRun(f, run);
    RunKept(f, run);
    RunOrigin(f, run);
    RunIsGood(f, run);
    forall h | h in Last(run).nodes[a].store
      ensures f.sha(Last(run).nodes[a].store[h]) == h
      ensures Last(run).nodes[a].store[h] in Injected(Last(run), run[0].nodes.Keys)
    {
      StoredCameIn(f, Last(run), a, h);
    }
    forall t | t in Last(run).injected[a] ensures f.sha(t) in Last(run).nodes[a].store {
      assert f.sha(t) in f.Digests(Last(run).injected[a]);
    }
  }

  function Both(f: Format, t: Text, o: Text): map<Hash, Text> {
    map[f.sha(t) := t, f.sha(o) := o]
  }

  lemma BothHas(f: Format, t: Text, o: Text)
    requires f.sha(t) != f.sha(o) && f.Settled(t) && f.Settled(o)
    ensures Both(f, t, o).Values == {t, o} && Proper(f, Both(f, t, o))
  {
    assert Both(f, t, o)[f.sha(t)] in Both(f, t, o).Values && Both(f, t, o)[f.sha(o)] in Both(f, t, o).Values;
  }

  lemma AheadThen(f: Format, run: seq<System>, x: Addr, t: Text, o: Text, y: Addr)
    requires AddOnlyRun(f, run) && x in run[0].nodes && y in run[0].nodes
    requires x in Last(run).nodes && y in Last(run).nodes
    requires f.sha(t) != f.sha(o) && f.author(t) != "" == f.author(o)
    requires Injected(Last(run), run[0].nodes.Keys) == {t, o}
    requires x in Last(run).injected && Last(run).injected[x] == {t, o}
    requires y in Last(run).injected && Last(run).injected[y] == {t}
    ensures f.sha(t) in Last(run).nodes[x].store && f.sha(t) !in Orphaned(f, Last(run).nodes[x])
    ensures f.sha(o) in Last(run).nodes[x].store && f.sha(o) !in Last(run).nodes[y].store
    ensures Has(f, false, Last(run).nodes[y], f.sha(t))
  {
    StoresThen(f, run, x);
    StoresThen(f, run, y);
  }

  /** At rest `x` has the documents `t` and `o` and `y` has `t` only, `o` being without author. */
  lemma OneAhead(f: Format, x: Addr, t: Text, o: Text, y: Addr) returns (run: seq<System>)
    requires x != y && f.Settled(t) && f.Settled(o) && f.sha(t) != f.sha(o) && f.author(t) != "" == f.author(o)
    ensures AddOnlyRun(f, run) && Quiescent(Last(run)) && y in Component(run[0], x) && x in run[0].nodes
    ensures f.Discerning(Injected(Last(run), run[0].nodes.Keys))
    ensures x in Last(run).nodes && y in Last(run).nodes
    ensures f.sha(t) in Last(run).nodes[x].store && f.sha(t) !in Orphaned(f, Last(run).nodes[x])
    ensures f.sha(o) in Last(run).nodes[x].store && f.sha(o) !in Last(run).nodes[y].store
    ensures Has(f, false, Last(run).nodes[y], f.sha(t))
  {
    OnlyHas(f, t);
    BothHas(f, t, o);
    assert {t, o} + {t} == {t, o};
    run := RestsFirst(f, x, Both(f, t, o), y, Only(f, t));
    AheadThen(f, run, x, t, o, y);
  }

  /** A document that a client removed comes back, and no client has done anything. */
  lemma RemovedIsBack(f: Format, x: Addr, t: Text, o: Text, y: Addr) returns (run: seq<System>, after: seq<System>)
    requires x != y && f.Settled(t) && f.Settled(o) && f.sha(t) != f.sha(o) && f.author(t) != "" == f.author(o)
    ensures AddOnlyRun(f, run) && Quiescent(Last(run))
    ensures ProtocolRun(f, after) && ClientRm(Last(run), x, after[0]) && Quiescent(Last(after))
    ensures f.sha(t) !in after[0].nodes[x].store && x in Last(after).nodes && f.sha(t) in Last(after).nodes[x].store
  {
    run := OneAhead(f, x, t, o, y);
    AddOnlyIsRun(f, run);
    after := RemovesAndRests(f, run, x, {f.sha(t)});
    assert Reminds(f, Last(run), after[0], x, y, f.sha(t));
    ComesBack(f, run, x, after, y, f.sha(t));
  }

  lemma SameThen(f: Format, run: seq<System>, a: Addr, t: Text)
    requires AddOnlyRun(f, run) && a in run[0].nodes && a in Last(run).nodes && f.author(t) != ""
    requires Injected(Last(run), run[0].nodes.Keys) == {t} && a in Last(run).injected && Last(run).injected[a] == {t}
    ensures Last(run).nodes[a].store.Keys == {f.sha(t)} && Orphaned(f, Last(run).nodes[a]) == {}
  {
    StoresThen(f, run, a);
  }

  lemma EmptiedStaysLocal(f: Format, run: seq<System>, x: Addr, after: seq<System>, y: Addr)
    requires Run(f, run) && Quiescent(Last(run)) && ProtocolRun(f, after) && ClientRm(Last(run), x, after[0])
    requires after[0].nodes[x].store.Keys == {} && y in Last(run).nodes && y != x
    ensures x in Last(after).nodes && Last(after).nodes[x].store.Keys == {}
    ensures y in Last(after).nodes && Last(after).nodes[y].store == Last(run).nodes[y].store
  {
    RemovalStaysLocal(f, run, x, after);
  }

  /** A document that a client removed is gone there and nowhere else. */
  lemma RemovedIsNotSynced(f: Format, x: Addr, t: Text, y: Addr) returns (run: seq<System>, after: seq<System>)
    requires x != y && f.Settled(t) && f.author(t) != ""
    ensures AddOnlyRun(f, run) && Quiescent(Last(run)) && y in Component(run[0], x)
    ensures ProtocolRun(f, after) && ClientRm(Last(run), x, after[0]) && Quiescent(Last(after))
    ensures x in Last(after).nodes && f.sha(t) !in Last(after).nodes[x].store
    ensures y in Last(after).nodes && f.sha(t) in Last(after).nodes[y].store
  {
    OnlyHas(f, t);
    run := RestsFirst(f, x, Only(f, t), y, Only(f, t));
    AddOnlyIsRun(f, run);
    SameThen(f, run, x, t);
    SameThen(f, run, y, t);
    after := RemovesAndRests(f, run, x, {f.sha(t)});
    EmptiedStaysLocal(f, run, x, after, y);
  }
}
