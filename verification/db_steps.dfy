/** The db thread between two looks for work, as steps of the network: storing, emptying the hash set, filling it
    hash by hash, telling the p2p thread. */
module DbSteps {
  import opened Messages
  import opened Daemon
  import opened NodeInvariant

  ghost predicate DbStep(f: Format, n: Node, n': Node) {
    DbGetStep(n, n') || DbInsStep(f, n, n') || DbClearStep(n, n') || DbFillStep(n, n') || DbNotifyStep(n, n')
  }

  ghost predicate DbRun(f: Format, ns: seq<Node>, n: Node, n': Node) {
    && ns != [] && ns[0] == n && ns[|ns|-1] == n'
    && forall i :: 0 <= i < |ns| - 1 ==> DbStep(f, ns[i], ns[i+1])
  }

  lemma Before(f: Format, n: Node, ns: seq<Node>, m: Node, n': Node)
    requires DbRun(f, ns, m, n') && DbStep(f, n, m)
    ensures DbRun(f, [n] + ns, n, n')
  {
  }

  /** Filling, in any order, ends with the hash set complete and a note to the p2p thread. */
  lemma {:induction false} FillRun(f: Format, n: Node) returns (ns: seq<Node>)
    requires n.dbPc.DbFilling?
    ensures DbRun(f, ns, n, n.(hashes := n.hashes + n.dbPc.todo, dbPc := DbIdle, toP2p := n.toP2p + [NEW]))
    decreases n.dbPc.todo
  {
    var last := n.(hashes := n.hashes + n.dbPc.todo, dbPc := DbIdle, toP2p := n.toP2p + [NEW]);
    if h :| h in n.dbPc.todo {
      var m := n.(hashes := n.hashes + {h}, dbPc := DbFilling(n.dbPc.todo - {h}));
      assert DbFillStep(n, m);
      ns := FillRun(f, m);
      assert m.hashes + m.dbPc.todo == n.hashes + n.dbPc.todo;
      Before(f, n, ns, m, last);
      ns := [n] + ns;
    } else {
      assert n.hashes + n.dbPc.todo == n.hashes;
      assert DbNotifyStep(n, last);
      ns := [n, last];
    }
  }

  /** A refresh, once begun, can run to its end, and then the hash set is that of the store and the p2p thread is
      told: what the class DbThread does in one go is a run of these steps. */
  lemma RefreshRun(f: Format, n: Node) returns (ns: seq<Node>)
    requires n.dbPc == DbStale
    ensures DbRun(f, ns, n, n.(hashes := n.store.Keys, dbPc := DbIdle, toP2p := n.toP2p + [NEW]))
  {
    var m := n.(hashes := {}, dbPc := DbFilling(n.store.Keys));
    assert DbClearStep(n, m);
    ns := FillRun(f, m);
    assert m.hashes + m.dbPc.todo == n.store.Keys;
    Before(f, n, ns, m, n.(hashes := n.store.Keys, dbPc := DbIdle, toP2p := n.toP2p + [NEW]));
    ns := [n] + ns;
  }

  lemma InsRun(f: Format, n: Node, store: map<Hash, Text>) returns (ns: seq<Node>)
    requires n.dbPc == DbIdle && n.toDb != [] && n.toDb[0].INS? && Unknown(f, n.toDb[0].docs, n.hashes) != {}
    requires Put(f, n.store, Unknown(f, n.toDb[0].docs, n.hashes), store)
    ensures DbRun(f, ns, n,
                  n.(toDb := n.toDb[1..], store := store, hashes := store.Keys, toP2p := n.toP2p + [NEW]))
  {
    var m := n.(toDb := n.toDb[1..], store := store, dbPc := DbStale);
    assert DbInsStep(f, n, m);
    ns := RefreshRun(f, m);
    Before(f, n, ns, m, n.(toDb := n.toDb[1..], store := store, hashes := store.Keys, toP2p := n.toP2p + [NEW]));
    ns := [n] + ns;
  }

  /** When the db thread has stored something and owes the p2p thread a note, the store has grown exactly if a
      document it did not know has an author and a canonical form that is new. */
  lemma NoteMeansGrowthIff(f: Format, self: Addr, n: Node, n': Node)
    requires NodeInv(f, self, n) && DbInsStep(f, n, n') && n'.dbPc == DbStale
    ensures n.store.Keys < n'.store.Keys <==>
            exists d :: d in Unknown(f, n.toDb[0].docs, n.hashes) && f.author(d) != "" && f.sha(f.canon(d)) !in n.store
  {
    var docs := Unknown(f, n.toDb[0].docs, n.hashes);
    if d :| d in docs && f.author(d) != "" && f.sha(f.canon(d)) !in n.store {
      assert StoredUnder(f, docs, f.sha(f.canon(d)));
      assert f.sha(f.canon(d)) in n'.store.Keys;
    }
    if h :| h in n'.store.Keys && h !in n.store.Keys {
      assert StoredUnder(f, docs, h);
    }
  }

  /** A document without author shows that a note need not mean growth: it is refused, and yet the other daemons
      are told of new documents. */
  lemma NoteWithoutGrowth(f: Format, n: Node, t: Text) returns (ns: seq<Node>)
    requires n.dbPc == DbIdle && n.toDb == [INS({t})] && f.sha(t) !in n.hashes && f.author(t) == ""
    requires n.hashes == n.store.Keys
    ensures DbRun(f, ns, n, n.(toDb := [], toP2p := n.toP2p + [NEW]))
  {
    assert t in Unknown(f, {t}, n.hashes);
    assert forall h :: !StoredUnder(f, Unknown(f, {t}, n.hashes), h);
    ns := InsRun(f, n, n.store);
  }
}
