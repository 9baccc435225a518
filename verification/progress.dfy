/** No daemon gets stuck: the look-ups that would throw never fail, and as long as anything is in flight or left to
    do, some step can be taken. */
module Progress {
  import opened Messages
  import opened Daemon
  import opened Gossip
  import opened NodeInvariant
  import opened PeerDiscovery
  import opened Safety

  /** Known addresses: in every run, removals included, every address a daemon looks up among its peers is there. */
  lemma NoCrash(f: Format, run: seq<System>, a: Addr)
    requires Run(f, run) && a in run[0].nodes
    ensures a in Last(run).nodes && !Crashes(Last(run).nodes[a])
  {
    RunSafe(f, run);
    var n := Last(run).nodes[a];
    assert NodeInv(f, a, n);
    if n.toP2p != [] {
      assert n.toP2p[0] in n.toP2p;
    }
  }

  /** Documents can be stored, whatever they are. */
  lemma PutExists(f: Format, store: map<Hash, Text>, docs: set<Text>) returns (store': map<Hash, Text>)
    ensures Put(f, store, docs, store')
  {
    if d :| d in docs {
      var rest := docs - {d};
      var before := PutExists(f, store, rest);
      if f.author(d) == "" {
        store' := before;
      } else {
        store' := before[f.sha(f.canon(d)) := f.canon(d)];
      }
      forall h
        ensures h in store' <==> h in store || StoredUnder(f, docs, h)
        ensures h in store' ==>
          if StoredUnder(f, docs, h) then StoredAs(f, docs, h, store'[h]) else store'[h] == store[h]
      {
        assert StoredUnder(f, docs, h) <==>
               StoredUnder(f, rest, h) || (f.author(d) != "" && h == f.sha(f.canon(d)));
        if h in before && StoredUnder(f, rest, h) {
          assert StoredAs(f, rest, h, before[h]);
        }
      }
    } else {
      store' := store;
    }
  }

  /** Apart from waiting for its peers, a daemon can always go on. */
  lemma LocalProgress(f: Format, a: Addr, n: Node) returns (n': Node)
    requires NodeInv(f, a, n)
    requires n.pc != AtPoll || n.dbPc != DbIdle || n.toDb != [] || n.toP2p != []
    ensures LocalStep(f, a, n, n')
  {
    if n.toP2p != [] { assert n.toP2p[0] in n.toP2p; }
    if n.pc == AtPeers {
      n' := n.(p2p := BcastPeers(a, n.p2p), pc := AtHashes);
    } else if n.pc == AtHashes {
      n' := n.(p2p := BcastHashes(a, n.p2p, n.hashes), pc := AtRequests);
    } else if n.pc == AtRequests {
      n' := n.(p2p := SendRequests(a, n.p2p), pc := AtPoll);
    } else if n.toP2p != [] {
      n' := n.(p2p := AnswerDb(n.p2p, n.toP2p[0]), toP2p := n.toP2p[1..], pc := AtPeers);
      assert AnswerDbStep(n, n');
    } else {
      n' := DbProgress(f, n);
    }
  }

  lemma DbProgress(f: Format, n: Node) returns (n': Node)
    requires n.dbPc != DbIdle || n.toDb != []
    ensures DbGetStep(n, n') || DbInsStep(f, n, n') || DbClearStep(n, n') || DbFillStep(n, n') || DbNotifyStep(n, n')
  {
    match n.dbPc
    case DbStale =>
      n' := n.(hashes := {}, dbPc := DbFilling(n.store.Keys));
    case DbFilling(todo) =>
      if h :| h in todo {
        n' := n.(hashes := n.hashes + {h}, dbPc := DbFilling(todo - {h}));
      } else {
        n' := n.(dbPc := DbIdle, toP2p := n.toP2p + [NEW]);
      }
    case DbIdle =>
      match n.toDb[0]
      case GET(addr, hs) =>
        n' := n.(toDb := n.toDb[1..], toP2p := n.toP2p + [PUT(addr, Lookup(n.store, hs))]);
      case INS(docs) =>
        var docs' := Unknown(f, docs, n.hashes);
        if docs' == {} {
          n' := n.(toDb := n.toDb[1..]);
        } else {
          var store' := PutExists(f, n.store, docs');
          n' := n.(toDb := n.toDb[1..], store := store', dbPc := DbStale);
        }
  }

  lemma DeliverExists(f: Format, s: System, src: Addr, dst: Addr) returns (s': System)
    requires src in s.nodes && dst in s.nodes && src != dst
    requires dst in s.nodes[src].p2p.peers && s.nodes[src].p2p.peers[dst] != []
    requires s.nodes[dst].pc == AtPoll
    ensures Deliver(f, s, src, dst, s')
  {
    var n := s.nodes[dst];
    var (p, out) := AnswerPeer(f, dst, n.p2p, s.nodes[src].p2p.peers[dst][0], n.hashes);
    var n' := n.(p2p := p, toDb := n.toDb + out, pc := AtPeers);
    s' := s.(nodes := s.nodes[src := Taken(s.nodes[src], dst)][dst := n']);
  }

  lemma SomeStep(f: Format, s: System) returns (s': System)
    requires SafeInv(f, s) && !Quiescent(s)
    ensures ProtocolStep(f, s, s')
  {
    var a :| a in s.nodes && !Quiet(s.nodes[a]);
    var n := s.nodes[a];
    assert NodeInv(f, a, n) && NamesOnly(n, s.nodes.Keys);
    if n.pc != AtPoll || n.dbPc != DbIdle || n.toDb != [] || n.toP2p != [] {
      var n' := LocalProgress(f, a, n);
      s' := s.(nodes := s.nodes[a := n']);
      assert Local(f, s, a, s');
    } else {
      var c :| c in n.p2p.peers && n.p2p.peers[c] != [];
      if s.nodes[c].pc == AtPoll {
        s' := DeliverExists(f, s, a, c);
      } else {
        assert NodeInv(f, c, s.nodes[c]);
        var n' := LocalProgress(f, c, s.nodes[c]);
        s' := s.(nodes := s.nodes[c := n']);
        assert Local(f, s, c, s');
      }
    }
  }

  lemma QuietNoLocal(f: Format, a: Addr, n: Node, n': Node)
    requires Quiet(n)
    ensures !LocalStep(f, a, n, n')
  {
  }

  lemma QuietNoStep(f: Format, s: System, s': System)
    requires Quiescent(s)
    ensures !ProtocolStep(f, s, s')
  {
    forall a ensures !Local(f, s, a, s') {
      if a in s.nodes && a in s'.nodes {
        QuietNoLocal(f, a, s.nodes[a], s'.nodes[a]);
      }
    }
  }

  /** The network can go on by itself exactly when it is not quiescent. */
  lemma StuckIffQuiescent(f: Format, s: System)
    requires SafeInv(f, s)
    ensures (exists s' :: ProtocolStep(f, s, s')) <==> !Quiescent(s)
  {
    if Quiescent(s) {
      forall s' ensures !ProtocolStep(f, s, s') {
        QuietNoStep(f, s, s');
      }
    } else {
      var s' := SomeStep(f, s);
    }
  }
}
