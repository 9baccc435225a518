/** Where the documents in a database come from: what came in at the daemon itself may lack an author, everything
    else has one. */
module Origins {
  import opened Messages
  import opened Daemon
  import opened Gossip
  import opened Safety
  import opened Confinement

  ghost predicate OwnOrAuthored(f: Format, n: Node, T: set<Text>) {
    forall h :: h in n.store ==> n.store[h] in T || f.author(n.store[h]) != ""
  }

  ghost predicate Originates(f: Format, s: System) {
    forall a :: a in s.nodes && a in s.injected ==> OwnOrAuthored(f, s.nodes[a], s.injected[a])
  }

  lemma PutOrigin(f: Format, n: Node, docs: set<Text>, n': Node, T: set<Text>)
    requires OwnOrAuthored(f, n, T) && AllSettled(f, docs) && Put(f, n.store, docs, n'.store)
    ensures OwnOrAuthored(f, n', T)
  {
    forall h | h in n'.store ensures n'.store[h] in T || f.author(n'.store[h]) != "" {
      if StoredUnder(f, docs, h) {
        assert StoredAs(f, docs, h, n'.store[h]);
        var d :| d in docs && f.author(d) != "" && n'.store[h] == f.canon(d);
        assert f.Settled(d);
      }
    }
  }

  lemma LocalOrigin(f: Format, a: Addr, n: Node, n': Node, T: set<Text>)
    requires LocalStep(f, a, n, n') && OwnOrAuthored(f, n, T)
    requires n.toDb != [] && n.toDb[0].INS? ==> AllSettled(f, n.toDb[0].docs)
    ensures OwnOrAuthored(f, n', T)
  {
    if DbInsStep(f, n, n') {
      var docs := Unknown(f, n.toDb[0].docs, n.hashes);
      assert AllSettled(f, docs);
      if docs != {} { PutOrigin(f, n, docs, n', T); }
    }
  }

  lemma InsertsSettled(f: Format, s: System, x: Addr)
    requires x in s.nodes && Confined(f, s, s.nodes.Keys)
    ensures s.nodes[x].toDb != [] && s.nodes[x].toDb[0].INS? ==> AllSettled(f, s.nodes[x].toDb[0].docs)
  {
    assert PipesIn(f, s.nodes[x], Injected(s, s.nodes.Keys));
  }

  lemma ClientOrigin(f: Format, s: System, x: Addr, docs: set<Text>, s': System)
    requires Originates(f, s) && (ClientAdd(f, s, x, docs, s') || ClientRm(s, x, s'))
    ensures Originates(f, s')
  {
  }

  lemma DeliverOrigin(f: Format, s: System, src: Addr, dst: Addr, s': System)
    requires Originates(f, s) && Deliver(f, s, src, dst, s') && src != dst && s'.nodes[src] == Taken(s.nodes[src], dst)
    ensures Originates(f, s')
  {
    forall a | a in s'.nodes && a in s'.injected ensures OwnOrAuthored(f, s'.nodes[a], s'.injected[a]) {
      assert s'.nodes[a].store == s.nodes[a].store;
    }
  }

  lemma StepOrigin(f: Format, s: System, s': System)
    requires SafeInv(f, s) && Confined(f, s, s.nodes.Keys) && Originates(f, s) && Step(f, s, s')
    ensures Originates(f, s')
  {
    if x :| Local(f, s, x, s') {
      InsertsSettled(f, s, x);
      LocalOrigin(f, x, s.nodes[x], s'.nodes[x], s.injected[x]);
    } else if src, dst :| Deliver(f, s, src, dst, s') {
      DeliverKnown(f, s, src, dst, s');
      DeliverOrigin(f, s, src, dst, s');
    } else if x, docs :| ClientAdd(f, s, x, docs, s') {
      ClientOrigin(f, s, x, docs, s');
    } else if x :| ClientRm(s, x, s') {
      ClientOrigin(f, s, x, {}, s');
    }
  }

  /** In every run, a document without author is only ever in the database of a daemon where it came in. */
  lemma {:induction false} RunOrigin(f: Format, run: seq<System>)
    requires Run(f, run)
    ensures Originates(f, Last(run))
  {
    if |run| == 1 {
      forall a | a in run[0].nodes ensures OwnOrAuthored(f, run[0].nodes[a], run[0].injected[a]) {
        assert forall h :: h in run[0].nodes[a].store ==> run[0].nodes[a].store[h] in run[0].nodes[a].store.Values;
      }
    } else {
      var before := run[..|run|-1];
      RunOrigin(f, before);
      RunSafe(f, before);
      RunConfined(f, before, run[0].nodes.Keys);
      assert Step(f, run[|run|-2], run[|run|-1]);
      StepOrigin(f, Last(before), Last(run));
    }
  }
}
