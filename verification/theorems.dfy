/** What the invariants say about every run of the network, spelled out. */
module Theorems {
  import opened Messages
  import opened Daemon
  import opened Gossip
  import opened NodeInvariant
  import opened PeerDiscovery
  import opened Safety
  import opened Confinement
  import opened Updates
  import opened NoLostUpdate

  // ---------------------------------------------------------------- every run

  lemma ConfinedRun(f: Format, run: seq<System>, a: Addr) returns (T: set<Text>)
    requires Run(f, run) && a in run[0].nodes
    ensures T == Injected(Last(run), run[0].nodes.Keys) && AllSettled(f, T)
    ensures a in Last(run).nodes && NodeConfined(f, Last(run).nodes[a], run[0].nodes.Keys, T)
  {
    RunSafe(f, run);
    RunConfined(f, run, run[0].nodes.Keys);
    T := Injected(Last(run), run[0].nodes.Keys);
    assert NodeConfined(f, Last(run).nodes[a], run[0].nodes.Keys, T);
  }

  /** No fabrication: what a daemon stores, sends or passes between its threads came in at some daemon. */
  lemma NothingMadeUp(f: Format, run: seq<System>, a: Addr)
    requires Run(f, run) && a in run[0].nodes
    ensures a in Last(run).nodes
    ensures var n, T := Last(run).nodes[a], Injected(Last(run), run[0].nodes.Keys);
            && n.store.Values <= T
            && (forall c, m :: c in n.p2p.peers && m in n.p2p.peers[c] && m.DOC? ==> m.docs <= T)
            && (forall g :: g in n.toDb && g.INS? ==> g.docs <= T)
            && (forall u :: u in n.toP2p && u.PUT? ==> u.docs <= T)
    ensures forall t :: t in Injected(Last(run), run[0].nodes.Keys) ==> f.Settled(t)
  {
    var T := ConfinedRun(f, run, a);
    assert QueuesIn(f, Last(run).nodes[a], T);
    forall c, m | c in Last(run).nodes[a].p2p.peers && m in Last(run).nodes[a].p2p.peers[c] && m.DOC?
      ensures m.docs <= T
    {
      assert MsgIn(f, m, T);
    }
  }

  /** What the db thread is given to store is an advertisement, so that reading it is defined. */
  lemma InsertsLegible(f: Format, run: seq<System>, a: Addr, g: ToDb)
    requires Run(f, run) && a in run[0].nodes && a in Last(run).nodes && g in Last(run).nodes[a].toDb && g.INS?
    ensures forall d :: d in g.docs ==> f.legible(d) && f.Settled(d)
  {
    var T := ConfinedRun(f, run, a);
    assert PipesIn(f, Last(run).nodes[a], T);
  }

  /** The daemon advertises `h`, asks for it or has sent so, or its db thread is asked for it. */
  ghost predicate Handles(n: Node, h: Hash) {
    || h in n.hashes
    || (exists c :: c in n.p2p.requests && h in n.p2p.requests[c])
    || (exists c, m :: c in n.p2p.peers && m in n.p2p.peers[c] && (m.HASH? || m.REQ?) && h in m.hashes)
    || (exists g :: g in n.toDb && g.GET? && h in g.hashes)
  }

  lemma HandledIn(f: Format, n: Node, S: set<Addr>, T: set<Text>, h: Hash)
    requires NodeConfined(f, n, S, T) && Handles(n, h)
    ensures h in f.Digests(T)
  {
    if c, m :| c in n.p2p.peers && m in n.p2p.peers[c] && (m.HASH? || m.REQ?) && h in m.hashes {
      assert MsgIn(f, m, T);
    }
  }

  /** Every hash a daemon deals with is the 32-byte digest of a document that came in, and what it sends is signed. */
  lemma HashesInFlight(f: Format, run: seq<System>, a: Addr)
    requires f.Valid() && Run(f, run) && a in run[0].nodes
    ensures a in Last(run).nodes
    ensures forall h :: Handles(Last(run).nodes[a], h) ==>
              |h| == 32 && f.Carries(true, Injected(Last(run), run[0].nodes.Keys), h)
    ensures forall c, m :: c in Last(run).nodes[a].p2p.peers && m in Last(run).nodes[a].p2p.peers[c] ==>
              m.HASH? || m.REQ? ==> m.from == a
  {
    var T := ConfinedRun(f, run, a);
    var n := Last(run).nodes[a];
    RunSafe(f, run);
    assert NodeInv(f, a, n);
    forall h | Handles(n, h) ensures |h| == 32 && f.Carries(true, T, h) {
      HandledIn(f, n, run[0].nodes.Keys, T, h);
      var t :| t in T && f.sha(t) == h;
    }
    forall c, m | c in n.p2p.peers && m in n.p2p.peers[c] && (m.HASH? || m.REQ?) ensures m.from == a {
      assert Signed(a, m);
    }
  }

  /** Content addressing: a document is stored under its digest, so never twice. */
  lemma StoredOnce(f: Format, run: seq<System>, a: Addr, h: Hash, k: Hash)
    requires Run(f, run) && a in Last(run).nodes
    requires h in Last(run).nodes[a].store && k in Last(run).nodes[a].store
    ensures f.sha(Last(run).nodes[a].store[h]) == h
    ensures Last(run).nodes[a].store[h] == Last(run).nodes[a].store[k] ==> h == k
  {
    RunSafe(f, run);
    assert NodeInv(f, a, Last(run).nodes[a]);
  }

  /** The hash set and the store agree whenever the db thread looks for work. */
  lemma CacheAgrees(f: Format, run: seq<System>, a: Addr)
    requires Run(f, run) && a in Last(run).nodes && Last(run).nodes[a].dbPc == DbIdle
    ensures Last(run).nodes[a].hashes == Last(run).nodes[a].store.Keys
  {
    RunSafe(f, run);
    assert NodeInv(f, a, Last(run).nodes[a]);
  }

  /** Requests: the flag says whether any wait; none waiting, sent or handed to the db thread is empty; what waits
      is for peers. */
  lemma RequestsWellFormed(f: Format, run: seq<System>, a: Addr)
    requires Run(f, run) && a in Last(run).nodes
    ensures var p := Last(run).nodes[a].p2p;
            && (p.sendRequests <==> p.requests != map[])
            && (forall c :: c in p.requests ==> p.requests[c] != {} && c in p.peers)
            && (forall c, m :: c in p.peers && m in p.peers[c] && m.REQ? ==> m.hashes != {} && m.from == a)
    ensures forall g :: g in Last(run).nodes[a].toDb && g.GET? ==>
              g.hashes != {} && g.addr in Last(run).nodes[a].p2p.peers
  {
    RunSafe(f, run);
    var n := Last(run).nodes[a];
    assert NodeInv(f, a, n);
    forall c, m | c in n.p2p.peers && m in n.p2p.peers[c] && m.REQ? ensures m.hashes != {} && m.from == a {
      assert Signed(a, m);
    }
  }

  // ---------------------------------------------------------------- runs in which clients only add

  lemma Stages(f: Format, na: Node, c: Addr, nc: Node, a: Addr, h: Hash)
    requires c in na.p2p.peers && (Sending(f, false, na, c, h) || Receiving(f, false, nc, a, h))
    ensures || h in nc.store
            || na.p2p.bcastHashes || NEW in na.toP2p || na.dbPc != DbIdle
            || (exists m :: m in na.p2p.peers[c] && m.HASH? && h in m.hashes)
            || (a in nc.p2p.requests && h in nc.p2p.requests[a])
            || (a in nc.p2p.peers && exists m :: m in nc.p2p.peers[a] && m.REQ? && h in m.hashes)
            || (exists g :: g in na.toDb && g.GET? && g.addr == c && h in g.hashes)
            || (exists u :: u in na.toP2p && u.PUT? && u.addr == c && f.Carries(false, u.docs, h))
            || (exists m :: m in na.p2p.peers[c] && m.DOC? && f.Carries(false, m.docs, h))
            || (exists g :: g in nc.toDb && g.INS? && f.Carries(false, g.docs, h))
  {
    if Offered(f, false, na.p2p.peers[c], h) {
      var m :| m in na.p2p.peers[c] && ((m.HASH? && h in m.hashes) || (m.DOC? && f.Carries(false, m.docs, h)));
    }
  }

  lemma SyncedPair(f: Format, run: seq<System>, a: Addr, c: Addr)
    requires AddOnlyRun(f, run) && a in Last(run).nodes && c in Last(run).nodes[a].p2p.peers
    ensures c in Last(run).nodes && Synced(f, true, a, Last(run).nodes[a], c, Last(run).nodes[c])
  {
    assert NamesOnly(Last(run).nodes[a], Last(run).nodes.Keys) by {
      AddOnlyIsRun(f, run);
      RunSafe(f, run);
    }
    RunAdd(f, run);
    assert Synced(f, a in Last(run).nodes.Keys, a, Last(run).nodes[a], c, Last(run).nodes[c]);
  }

  /** No lost update: a document of `a` with an author, whatever else there is in the network, is held by `a`'s
      peer `c`, or one of these is pending: the broadcast of `a`'s hashes, or the note that asks for it; a HASH to
      `c` with its digest; `c`'s request, waiting or sent; the look-up at `a` or its result; the document itself,
      sent or handed to `c`'s db thread. */
  lemma NoUpdateLost(f: Format, run: seq<System>, a: Addr, c: Addr, h: Hash)
    requires AddOnlyRun(f, run)
    requires a in Last(run).nodes && c in Last(run).nodes[a].p2p.peers
    requires h in Last(run).nodes[a].store && f.author(Last(run).nodes[a].store[h]) != ""
    ensures c in Last(run).nodes
    ensures var na, nc := Last(run).nodes[a], Last(run).nodes[c];
            || h in nc.store
            || na.p2p.bcastHashes || NEW in na.toP2p || na.dbPc != DbIdle
            || (exists m :: m in na.p2p.peers[c] && m.HASH? && h in m.hashes)
            || (a in nc.p2p.requests && h in nc.p2p.requests[a])
            || (a in nc.p2p.peers && exists m :: m in nc.p2p.peers[a] && m.REQ? && h in m.hashes)
            || (exists g :: g in na.toDb && g.GET? && g.addr == c && h in g.hashes)
            || (exists u :: u in na.toP2p && u.PUT? && u.addr == c && f.Carries(false, u.docs, h))
            || (exists m :: m in na.p2p.peers[c] && m.DOC? && f.Carries(false, m.docs, h))
            || (exists g :: g in nc.toDb && g.INS? && f.Carries(false, g.docs, h))
  {
    SyncedPair(f, run, a, c);
    assert Has(f, false, Last(run).nodes[a], h);
    Stages(f, Last(run).nodes[a], c, Last(run).nodes[c], a, h);
  }

  lemma HonestNode(f: Format, run: seq<System>, a: Addr)
    requires AddOnlyRun(f, run) && a in Last(run).nodes
    ensures NodeInv(f, a, Last(run).nodes[a]) && Honest(Last(run).nodes[a])
  {
    assert NodeInv(f, a, Last(run).nodes[a]) by {
      AddOnlyIsRun(f, run);
      RunSafe(f, run);
    }
    assert Honest(Last(run).nodes[a]) by {
      RunAdd(f, run);
    }
  }

  /** A hash that either filter takes for known is that of a stored document, at every moment of the refresh. */
  lemma FiltersKeepNews(f: Format, run: seq<System>, a: Addr, docs: set<Text>, d: Text)
    requires AddOnlyRun(f, run) && a in Last(run).nodes
    requires d in docs && f.sha(d) !in Last(run).nodes[a].store
    ensures d in Unknown(f, docs, Last(run).nodes[a].hashes)
  {
    HonestNode(f, run, a);
  }

  lemma {:induction false} LookupSize(f: Format, store: map<Hash, Text>, hs: set<Hash>)
    requires hs <= store.Keys && forall h :: h in store ==> f.sha(store[h]) == h
    ensures |Lookup(store, hs)| == |hs|
    decreases hs
  {
    if h :| h in hs {
      LookupSize(f, store, hs - {h});
      assert Lookup(store, hs) == Lookup(store, hs - {h}) + {store[h]};
      forall k | k in hs - {h} ensures store[k] != store[h] {
        assert f.sha(store[k]) == k && f.sha(store[h]) == h;
      }
    }
  }

  lemma HeldLookup(f: Format, a: Addr, n: Node, g: ToDb)
    requires NodeInv(f, a, n) && Honest(n) && g in n.toDb && g.GET?
    ensures |Lookup(n.store, g.hashes)| == |g.hashes| > 0
  {
    LookupSize(f, n.store, g.hashes);
    assert g.hashes != {};
  }

  /** What is asked of a daemon it has, so its answer has exactly as many documents as were requested, and at least
      one. */
  lemma AnswersComplete(f: Format, run: seq<System>, a: Addr, g: ToDb)
    requires AddOnlyRun(f, run) && a in Last(run).nodes && g in Last(run).nodes[a].toDb && g.GET?
    ensures |Lookup(Last(run).nodes[a].store, g.hashes)| == |g.hashes| > 0
  {
    HonestNode(f, run, a);
    HeldLookup(f, a, Last(run).nodes[a], g);
  }

  /** So no answer is empty, neither between the threads nor between daemons. */
  lemma AnswersNotEmpty(f: Format, run: seq<System>, a: Addr)
    requires AddOnlyRun(f, run) && a in Last(run).nodes
    ensures forall u :: u in Last(run).nodes[a].toP2p && u.PUT? ==> u.docs != {}
    ensures forall c, m :: c in Last(run).nodes[a].p2p.peers && m in Last(run).nodes[a].p2p.peers[c] && m.DOC? ==>
              m.docs != {}
  {
    HonestNode(f, run, a);
  }

  /** Requests waiting at a daemon, or sent by it, are for documents the peer they go to has. */
  lemma RequestsHeld(f: Format, run: seq<System>, a: Addr, c: Addr)
    requires AddOnlyRun(f, run) && a in Last(run).nodes && c in Last(run).nodes[a].p2p.peers
    ensures c in Last(run).nodes
    ensures var p, store := Last(run).nodes[a].p2p, Last(run).nodes[c].store;
            && (c in p.requests ==> p.requests[c] <= store.Keys)
            && (forall m :: m in p.peers[c] && m.REQ? ==> m.hashes <= store.Keys)
  {
    SyncedPair(f, run, a, c);
  }
}
