/** Counts that can be zero: an answer, once something was removed while it was asked for; and what is handed on to
    the db thread, once a document arrives that came in otherwise meanwhile. */
module EmptyCounts {
  import opened Messages
  import opened Daemon
  import opened Gossip
  import opened Updates
  import opened NoLostUpdate
  import opened DbSteps
  import opened TwoDaemons

  // ---------------------------------------------------------------- exactly when

  /** An answer is empty exactly if nothing that was asked for is stored any more; ... */
  lemma EmptyPutIff(n: Node, n': Node)
    requires DbGetStep(n, n')
    ensures PUT(n.toDb[0].addr, {}) == n'.toP2p[|n.toP2p|] <==> n.toDb[0].hashes * n.store.Keys == {}
  {
    var hs := n.toDb[0].hashes;
    LookupSome(n.store, hs);
    assert n'.toP2p[|n.toP2p|] == PUT(n.toDb[0].addr, Lookup(n.store, hs));
  }

  /** ... the peer is sent nothing exactly if the answer is empty; ... */
  lemma EmptyDocIff(n: Node, n': Node)
    requires AnswerDbStep(n, n') && n.toP2p[0].PUT?
    ensures n.toP2p[0].addr in n'.p2p.peers
    ensures n'.p2p.peers[n.toP2p[0].addr] == n.p2p.peers[n.toP2p[0].addr] + [DOC({})] <==> n.toP2p[0].docs == {}
  {
    var u := n.toP2p[0];
    assert n'.p2p.peers[u.addr][|n.p2p.peers[u.addr]|] == DOC(u.docs);
  }

  /** ... and the db thread is handed nothing exactly if all that arrived is known by then. */
  lemma EmptyInsIff(f: Format, self: Addr, n: Node, m: PeerMsg, n': Node)
    requires ReceiveStep(f, self, n, m, n') && m.DOC?
    ensures n'.toDb == n.toDb + [INS({})] <==> f.Digests(m.docs) <= n.hashes
  {
    var docs := Unknown(f, m.docs, n.hashes);
    assert n'.toDb == n.toDb + [INS(docs)] && n'.toDb[|n.toDb|] == INS(docs);
    if f.Digests(m.docs) <= n.hashes {
      forall d | d in m.docs ensures d !in docs {
        assert f.sha(d) in f.Digests(m.docs);
      }
      assert docs == {};
    } else {
      var d :| d in m.docs && f.sha(d) !in n.hashes;
      assert d in docs;
    }
  }

  // ---------------------------------------------------------------- runs of two daemons

  ghost predicate Reached(f: Format, run: seq<System>, s: System) {
    AddOnlyRun(f, run) && Last(run) == s
  }

  lemma Onward(f: Format, run: seq<System>, s: System, s': System) returns (run': seq<System>)
    requires Reached(f, run, s) && AddOnlyStep(f, s, s')
    ensures Reached(f, run', s')
  {
    run' := run + [s'];
    assert run'[0] == run[0];
    forall i | 0 <= i < |run'| - 1 ensures AddOnlyStep(f, run'[i], run'[i+1]) {
      assert i < |run| - 1 ==> run'[i] == run[i] && run'[i+1] == run[i+1];
    }
  }

  lemma Swap(inj: map<Addr, set<Text>>, x: Addr, nx: Node, y: Addr, ny: Node)
    requires x != y
    ensures Two(inj, x, nx, y, ny) == Two(inj, y, ny, x, nx)
  {
    Pair(x, nx, y, ny);
  }

  lemma Pair<K, V>(x: K, a: V, y: K, b: V)
    requires x != y
    ensures map[x := a, y := b] == map[y := b, x := a]
  {
  }

  lemma StepTwo(f: Format, inj: map<Addr, set<Text>>, x: Addr, nx: Node, y: Addr, ny: Node, nx': Node)
    requires x != y && LocalStep(f, x, nx, nx')
    ensures ProtocolStep(f, Two(inj, x, nx, y, ny), Two(inj, x, nx', y, ny))
  {
    var s, s' := Two(inj, x, nx, y, ny), Two(inj, x, nx', y, ny);
    assert s'.nodes == s.nodes[x := nx'];
    assert Local(f, s, x, s');
  }

  lemma DeliverTwo(f: Format, inj: map<Addr, set<Text>>, x: Addr, nx: Node, y: Addr, ny: Node, nx': Node)
    requires x != y && x in ny.p2p.peers && ny.p2p.peers[x] != []
    requires ReceiveStep(f, x, nx, ny.p2p.peers[x][0], nx')
    ensures ProtocolStep(f, Two(inj, x, nx, y, ny), Two(inj, x, nx', y, Taken(ny, x)))
  {
    var s, s' := Two(inj, x, nx, y, ny), Two(inj, x, nx', y, Taken(ny, x));
    var nodes := s.nodes[y := Taken(ny, x)];
    assert nodes[x] == nx && s'.nodes == nodes[x := nx'];
    assert Deliver(f, s, y, x, s');
  }

  /** A daemon's own steps, one after the other. */
  ghost predicate OwnRun(f: Format, x: Addr, ns: seq<Node>, n: Node, n': Node) {
    && ns != [] && ns[0] == n && ns[|ns|-1] == n'
    && forall i :: 0 <= i < |ns| - 1 ==> LocalStep(f, x, ns[i], ns[i+1])
  }

  lemma {:induction false} OwnOnward(f: Format, run: seq<System>, inj: map<Addr, set<Text>>, x: Addr, ns: seq<Node>,
                                     nx: Node, y: Addr, ny: Node, nx': Node)
    returns (run': seq<System>)
    requires x != y && OwnRun(f, x, ns, nx, nx') && Reached(f, run, Two(inj, x, nx, y, ny))
    ensures Reached(f, run', Two(inj, x, nx', y, ny))
    decreases |ns|
  {
    if |ns| == 1 {
      run' := run;
    } else {
      assert LocalStep(f, x, ns[0], ns[1]);
      StepTwo(f, inj, x, nx, y, ny, ns[1]);
      run' := Onward(f, run, Two(inj, x, nx, y, ny), Two(inj, x, ns[1], y, ny));
      run' := OwnOnward(f, run', inj, x, ns[1..], ns[1], y, ny, nx');
    }
  }

  lemma DbIsOwn(f: Format, x: Addr, ns: seq<Node>, n: Node, n': Node)
    requires DbRun(f, ns, n, n')
    ensures OwnRun(f, x, ns, n, n')
  {
    forall i | 0 <= i < |ns| - 1 ensures LocalStep(f, x, ns[i], ns[i+1]) {
      assert DbStep(f, ns[i], ns[i+1]);
    }
  }

  /** The head of the p2p thread's loop. */
  function Headed(x: Addr, n: Node): Node {
    n.(p2p := SendRequests(x, BcastHashes(x, BcastPeers(x, n.p2p), n.hashes)), pc := AtPoll)
  }

  lemma HeadRun(f: Format, x: Addr, n: Node) returns (ns: seq<Node>)
    requires n.pc == AtPeers && n.p2p.requests.Keys <= n.p2p.peers.Keys
    ensures OwnRun(f, x, ns, n, Headed(x, n))
  {
    var n1 := n.(p2p := BcastPeers(x, n.p2p), pc := AtHashes);
    var n2 := n1.(p2p := BcastHashes(x, n1.p2p, n1.hashes), pc := AtRequests);
    assert BcastPeersStep(x, n, n1) && BcastHashesStep(x, n1, n2) && SendRequestsStep(x, n2, Headed(x, n));
    ns := [n, n1, n2, Headed(x, n)];
  }

  /** `x` takes the oldest message from `y` and goes round its loop. */
  lemma Turn(f: Format, run: seq<System>, inj: map<Addr, set<Text>>, x: Addr, nx: Node, y: Addr, ny: Node, n: Node,
             nx': Node, ny': Node)
    returns (run': seq<System>)
    requires x != y && x in ny.p2p.peers && ny.p2p.peers[x] != [] && Reached(f, run, Two(inj, x, nx, y, ny))
    requires ReceiveStep(f, x, nx, ny.p2p.peers[x][0], n) && n.pc == AtPeers && n.p2p.requests.Keys <= n.p2p.peers.Keys
    requires nx' == Headed(x, n) && ny' == Taken(ny, x)
    ensures Reached(f, run', Two(inj, x, nx', y, ny'))
  {
    DeliverTwo(f, inj, x, nx, y, ny, n);
    run' := Onward(f, run, Two(inj, x, nx, y, ny), Two(inj, x, n, y, ny'));
    var ns := HeadRun(f, x, n);
    run' := OwnOnward(f, run', inj, x, ns, n, y, ny', nx');
  }

  // ---------------------------------------------------------------- one daemon

  lemma TakenAt(peer: Addr, store: map<Hash, Text>, m: PeerMsg, r: seq<PeerMsg>)
    ensures Taken(At(peer, store, [m] + r), peer) == At(peer, store, r)
  {
    assert ([m] + r)[1..] == r;
    assert map[peer := [m] + r][peer := r] == map[peer := r];
  }

  lemma SendOne(peer: Addr, q: seq<PeerMsg>, m: PeerMsg)
    ensures SendAll(map[peer := q], m) == map[peer := q + [m]]
    ensures [] + [m] == [m]
  {
  }

  lemma StartHead(x: Addr, y: Addr, store: map<Hash, Text>)
    ensures Headed(x, Started(y, store)) == At(y, store, [PEER({x, y}), HASH(x, store.Keys)])
  {
    SendOne(y, [], PEER({x, y}));
    SendOne(y, [PEER({x, y})], HASH(x, store.Keys));
    assert {x} + Started(y, store).p2p.peers.Keys == {x, y};
    assert [PEER({x, y})] + [HASH(x, store.Keys)] == [PEER({x, y}), HASH(x, store.Keys)];
  }

  /** What a daemon knows already changes nothing. */
  lemma OnKnown(f: Format, x: Addr, y: Addr, store: map<Hash, Text>, q: seq<PeerMsg>, m: PeerMsg)
    requires x != y && (m == PEER({x, y}) || (m.HASH? && m.hashes <= store.Keys))
    ensures var n := At(y, store, q).(pc := AtPeers);
            ReceiveStep(f, x, At(y, store, q), m, n) && Headed(x, n) == At(y, store, q)
  {
    var n := At(y, store, q);
    assert n.toDb + [] == n.toDb;
    if m.PEER? { assert Fresh(x, n.p2p, {x, y}) == {}; }
  }

  /** A hash that is not known is asked for. */
  lemma OnHash(f: Format, x: Addr, y: Addr, q: seq<PeerMsg>, h: Hash) returns (n: Node)
    requires x != y
    ensures ReceiveStep(f, x, At(y, map[], q), HASH(y, {h}), n) && n.pc == AtPeers &&
            n.p2p.requests.Keys <= n.p2p.peers.Keys
    ensures Headed(x, n) == At(y, map[], q + [REQ(x, {h})])
  {
    var n0 := At(y, map[], q);
    n := n0.(p2p := P2p(map[y := q], map[y := {h}], false, false, true), pc := AtPeers);
    assert n0.hashes == {} && {h} - n0.hashes == {h} && !({h} <= n0.hashes);
    assert Requested(n0.p2p, y) + {h} == {h} && n0.toDb + [] == n0.toDb;
    assert AnswerPeer(f, x, n0.p2p, HASH(y, {h}), n0.hashes) == (n.p2p, []);
    assert SendRequests(x, n.p2p).peers == map[y := q + [REQ(x, {h})]];
  }

  lemma OnReq(f: Format, x: Addr, y: Addr, store: map<Hash, Text>, hs: set<Hash>)
    ensures var n := At(y, store, []).(toDb := [GET(y, hs)], pc := AtPeers);
            ReceiveStep(f, x, At(y, store, []), REQ(y, hs), n) && Headed(x, n) == n.(pc := AtPoll)
  {
    assert At(y, store, []).toDb + [GET(y, hs)] == [GET(y, hs)];
  }

  // ---------------------------------------------------------------- a request under way

  /** Two daemons that know each other; `x` starts with document `t`, `y` with none. */
  datatype Couple = Couple(x: Addr, y: Addr, t: Text) {
    function Has(f: Format): map<Hash, Text> {
      map[f.sha(t) := t]
    }

    function Start(f: Format): System {
      Starting(x, Has(f), y, map[])
    }

    /** `y` has asked for the document, and the db thread of `x` is about to look it up. */
    function Asked(f: Format): Node {
      At(y, Has(f), []).(toDb := [GET(y, {f.sha(t)})])
    }

    function Waiting(f: Format): System {
      Two(map[x := {t}, y := {}], x, Asked(f), y, At(x, map[], []))
    }

    function Queues(f: Format, qx: seq<PeerMsg>, qy: seq<PeerMsg>): System {
      Two(map[x := {t}, y := {}], x, At(y, Has(f), qx), y, At(x, map[], qy))
    }
  }

  lemma StartIsInit(f: Format, c: Couple)
    requires c.x != c.y && f.Settled(c.t)
    ensures Init(f, c.Start(f))
    ensures c.Start(f) == Two(map[c.x := {c.t}, c.y := {}], c.x, Started(c.y, c.Has(f)), c.y, Started(c.x, map[]))
  {
    var none: map<Hash, Text> := map[];
    StartingIsInit(f, c.x, c.Has(f), c.y, none);
    assert c.Has(f)[f.sha(c.t)] in c.Has(f).Values;
    assert c.Has(f).Values == {c.t} && none.Values == {};
  }

  lemma HasKeys(f: Format, c: Couple)
    ensures c.Has(f).Keys == {f.sha(c.t)}
  {
    var none: map<Hash, Text> := map[];
    assert none.Keys == {};
  }

  lemma FirstIntroduced(f: Format, c: Couple) returns (run: seq<System>)
    requires c.x != c.y && f.Settled(c.t)
    ensures Reached(f, run, Two(map[c.x := {c.t}, c.y := {}],
                                c.x, At(c.y, c.Has(f), [PEER({c.x, c.y}), HASH(c.x, {f.sha(c.t)})]),
                                c.y, Started(c.x, map[])))
  {
    StartIsInit(f, c);
    run := [c.Start(f)];
    StartHead(c.x, c.y, c.Has(f));
    HasKeys(f, c);
    var ns := HeadRun(f, c.x, Started(c.y, c.Has(f)));
    run := OwnOnward(f, run, map[c.x := {c.t}, c.y := {}], c.x, ns, Started(c.y, c.Has(f)), c.y, Started(c.x, map[]),
                     At(c.y, c.Has(f), [PEER({c.x, c.y}), HASH(c.x, {f.sha(c.t)})]));
  }

  lemma Introduced(f: Format, c: Couple) returns (run: seq<System>)
    requires c.x != c.y && f.Settled(c.t)
    ensures Reached(f, run, c.Queues(f, [PEER({c.x, c.y}), HASH(c.x, {f.sha(c.t)})], [PEER({c.x, c.y}), HASH(c.y, {})]))
  {
    var x, y, inj := c.x, c.y, map[c.x := {c.t}, c.y := {}];
    var x1 := At(y, c.Has(f), [PEER({x, y}), HASH(x, {f.sha(c.t)})]);
    var y0, y1 := Started(x, map[]), At(x, map[], [PEER({x, y}), HASH(y, {})]);
    run := FirstIntroduced(f, c);
    var none: map<Hash, Text> := map[];
    assert none.Keys == {};
    StartHead(y, x, none);
    assert {y, x} == {x, y};
    var ns := HeadRun(f, y, y0);
    Swap(inj, x, x1, y, y0);
    run := OwnOnward(f, run, inj, y, ns, y0, x, x1, y1);
    Swap(inj, x, x1, y, y1);
  }

  /** The introductions are taken note of, ... */
  lemma Acquainted(f: Format, c: Couple) returns (run: seq<System>)
    requires c.x != c.y && f.Settled(c.t)
    ensures Reached(f, run, c.Queues(f, [HASH(c.x, {f.sha(c.t)})], [HASH(c.y, {})]))
  {
    var x, y, inj, h := c.x, c.y, map[c.x := {c.t}, c.y := {}], f.sha(c.t);
    var p, hx, hy := PEER({x, y}), HASH(x, {h}), HASH(y, {});
    run := Introduced(f, c);
    assert [p, hx] == [p] + [hx] && [p, hy] == [p] + [hy] && {y, x} == {x, y};
    OnKnown(f, y, x, map[], [p, hy], p);
    TakenAt(y, c.Has(f), p, [hx]);
    Swap(inj, x, At(y, c.Has(f), [p, hx]), y, At(x, map[], [p, hy]));
    run := Turn(f, run, inj, y, At(x, map[], [p, hy]), x, At(y, c.Has(f), [p, hx]),
                At(x, map[], [p, hy]).(pc := AtPeers), At(x, map[], [p, hy]), At(y, c.Has(f), [hx]));
    Swap(inj, x, At(y, c.Has(f), [hx]), y, At(x, map[], [p, hy]));
    OnKnown(f, x, y, c.Has(f), [hx], p);
    TakenAt(x, map[], p, [hy]);
    run := Turn(f, run, inj, x, At(y, c.Has(f), [hx]), y, At(x, map[], [p, hy]), At(y, c.Has(f), [hx]).(pc := AtPeers),
                At(y, c.Has(f), [hx]), At(x, map[], [hy]));
  }

  /** ... `y` asks, ... */
  lemma Asks(f: Format, c: Couple) returns (run: seq<System>)
    requires c.x != c.y && f.Settled(c.t)
    ensures Reached(f, run, c.Queues(f, [], [REQ(c.y, {f.sha(c.t)})]))
  {
    var x, y, inj, h := c.x, c.y, map[c.x := {c.t}, c.y := {}], f.sha(c.t);
    var hx, hy, ry := HASH(x, {h}), HASH(y, {}), REQ(y, {h});
    run := Acquainted(f, c);
    assert [hx] == [hx] + [] && [hy] + [ry] == [hy, ry];
    var n := OnHash(f, y, x, [hy], h);
    TakenAt(y, c.Has(f), hx, []);
    Swap(inj, x, At(y, c.Has(f), [hx]), y, At(x, map[], [hy]));
    run := Turn(f, run, inj, y, At(x, map[], [hy]), x, At(y, c.Has(f), [hx]), n, At(x, map[], [hy, ry]),
                At(y, c.Has(f), []));
    Swap(inj, x, At(y, c.Has(f), []), y, At(x, map[], [hy, ry]));
    OnKnown(f, x, y, c.Has(f), [], hy);
    TakenAt(x, map[], hy, [ry]);
    run := Turn(f, run, inj, x, At(y, c.Has(f), []), y, At(x, map[], [hy, ry]), At(y, c.Has(f), []).(pc := AtPeers),
                At(y, c.Has(f), []), At(x, map[], [ry]));
  }

  /** ... and `x` is asked. */
  lemma IsAsked(f: Format, c: Couple) returns (run: seq<System>)
    requires c.x != c.y && f.Settled(c.t)
    ensures Reached(f, run, c.Waiting(f))
  {
    var x, y, inj, ry := c.x, c.y, map[c.x := {c.t}, c.y := {}], REQ(c.y, {f.sha(c.t)});
    run := Asks(f, c);
    OnReq(f, x, y, c.Has(f), {f.sha(c.t)});
    assert [ry] == [ry] + [];
    TakenAt(x, map[], ry, []);
    run := Turn(f, run, inj, x, At(y, c.Has(f), []), y, At(x, map[], [ry]), c.Asked(f).(pc := AtPeers), c.Asked(f),
                At(x, map[], []));
  }

  // ---------------------------------------------------------------- an empty answer

  /** `x`, having removed the document, refreshed its hash set and looked it up in vain. */
  function Gone(c: Couple): Node {
    At(c.y, map[], []).(toP2p := [NEW, PUT(c.y, {})])
  }

  lemma InVain(f: Format, c: Couple) returns (ns: seq<Node>)
    ensures OwnRun(f, c.x, ns, c.Asked(f).(store := map[], dbPc := DbStale), Gone(c))
  {
    var n0 := c.Asked(f).(store := map[], dbPc := DbStale);
    var none: map<Hash, Text> := map[];
    assert none.Keys == {};
    var n1, n2 := n0.(hashes := {}, dbPc := DbIdle, toP2p := [NEW]), Gone(c);
    ns := RefreshRun(f, n0);
    assert n0.(hashes := n0.store.Keys, dbPc := DbIdle, toP2p := n0.toP2p + [NEW]) == n1;
    DbIsOwn(f, c.x, ns, n0, n1);
    assert Lookup(n1.store, {f.sha(c.t)}) == {} && n1.toDb[1..] == [];
    assert n1.toP2p + [PUT(c.y, {})] == n2.toP2p;
    assert DbGetStep(n1, n2);
    ns := ns + [n2];
  }

  lemma {:induction false} AnyOnward(f: Format, run: seq<System>, inj: map<Addr, set<Text>>, x: Addr, ns: seq<Node>,
                                     nx: Node, y: Addr, ny: Node, nx': Node)
    returns (run': seq<System>)
    requires x != y && OwnRun(f, x, ns, nx, nx') && Run(f, run) && Last(run) == Two(inj, x, nx, y, ny)
    ensures Run(f, run') && Last(run') == Two(inj, x, nx', y, ny)
    decreases |ns|
  {
    if |ns| == 1 {
      run' := run;
    } else {
      assert LocalStep(f, x, ns[0], ns[1]);
      StepTwo(f, inj, x, nx, y, ny, ns[1]);
      run' := run + [Two(inj, x, ns[1], y, ny)];
      run' := AnyOnward(f, run', inj, x, ns[1..], ns[1], y, ny, nx');
    }
  }

  /** A document asked for is removed before it is looked up. */
  lemma Removes(f: Format, c: Couple) returns (run: seq<System>)
    requires c.x != c.y && f.Settled(c.t)
    ensures Run(f, run) && Last(run) == Two(map[c.x := {c.t}, c.y := {}], c.x, Gone(c), c.y, At(c.x, map[], []))
  {
    var x, y, inj := c.x, c.y, map[c.x := {c.t}, c.y := {}];
    var asked := IsAsked(f, c);
    AddOnlyIsRun(f, asked);
    var n := c.Asked(f).(store := map[], dbPc := DbStale);
    var s, s' := c.Waiting(f), Two(inj, x, n, y, At(x, map[], []));
    assert s'.nodes == s.nodes[x := n];
    assert ClientRm(s, x, s');
    run := asked + [s'];
    var ns := InVain(f, c);
    run := AnyOnward(f, run, inj, x, ns, n, y, At(x, map[], []), Gone(c));
  }

  /** So the answer between the threads is empty. */
  lemma EmptyPut(f: Format, c: Couple) returns (run: seq<System>)
    requires c.x != c.y && f.Settled(c.t)
    ensures Run(f, run) && c.x in Last(run).nodes && PUT(c.y, {}) in Last(run).nodes[c.x].toP2p
  {
    run := Removes(f, c);
    assert Gone(c).toP2p[1] == PUT(c.y, {});
  }

  /** The empty answer is sent on to the peer. */
  lemma SendsNothing(f: Format, c: Couple) returns (ns: seq<Node>)
    ensures OwnRun(f, c.x, ns, Gone(c), At(c.y, map[], [HASH(c.x, {}), DOC({})]).(pc := AtPeers))
  {
    var n0, hx := Gone(c), HASH(c.x, {});
    var n1 := n0.(p2p := n0.p2p.(bcastHashes := true), toP2p := [PUT(c.y, {})], pc := AtPeers);
    var n2 := At(c.y, map[], [hx]).(toP2p := [PUT(c.y, {})]);
    var n3 := At(c.y, map[], [hx, DOC({})]).(pc := AtPeers);
    var none: map<Hash, Text> := map[];
    assert none.Keys == {};
    assert n0.toP2p[1..] == [PUT(c.y, {})] && AnswerDbStep(n0, n1);
    SendOne(c.y, [], hx);
    ns := HeadRun(f, c.x, n1);
    assert Headed(c.x, n1) == n2;
    assert [hx] + [DOC({})] == [hx, DOC({})] && n2.toP2p[1..] == [];
    assert map[c.y := [hx]][c.y := [hx, DOC({})]] == map[c.y := [hx, DOC({})]];
    assert AnswerDbStep(n2, n3);
    ns := [n0] + ns + [n3];
  }

  /** So a count of zero reaches another daemon. */
  lemma EmptyDoc(f: Format, c: Couple) returns (run: seq<System>)
    requires c.x != c.y && f.Settled(c.t)
    ensures Run(f, run) && c.x in Last(run).nodes && c.y in Last(run).nodes[c.x].p2p.peers
    ensures DOC({}) in Last(run).nodes[c.x].p2p.peers[c.y]
  {
    var x, y, inj := c.x, c.y, map[c.x := {c.t}, c.y := {}];
    run := Removes(f, c);
    var q := [HASH(x, {}), DOC({})];
    var ns := SendsNothing(f, c);
    run := AnyOnward(f, run, inj, x, ns, Gone(c), y, At(x, map[], []), At(y, map[], q).(pc := AtPeers));
    assert q[1] == DOC({});
  }

  // ---------------------------------------------------------------- nothing to insert

  lemma Served(f: Format, c: Couple) returns (ns: seq<Node>)
    ensures OwnRun(f, c.x, ns, c.Asked(f), At(c.y, c.Has(f), [DOC({c.t})]).(pc := AtPeers))
  {
    var n0 := c.Asked(f);
    var n1, n2 := At(c.y, c.Has(f), []).(toP2p := [PUT(c.y, {c.t})]), At(c.y, c.Has(f), [DOC({c.t})]).(pc := AtPeers);
    assert Lookup(n0.store, {f.sha(c.t)}) == {c.t} && n0.toDb[1..] == [] && n0.toP2p + [PUT(c.y, {c.t})] == n1.toP2p;
    assert DbGetStep(n0, n1);
    assert n1.toP2p[1..] == [] && [] + [DOC({c.t})] == [DOC({c.t})];
    assert n1.p2p.peers[c.y := [DOC({c.t})]] == map[c.y := [DOC({c.t})]];
    assert AnswerDbStep(n1, n2);
    ns := [n0, n1, n2];
  }

  lemma AddsToEmpty(f: Format, c: Couple)
    ensures AddStep(f, At(c.x, map[], []), {c.t}, At(c.x, map[], []).(store := c.Has(f), dbPc := DbStale))
  {
    var y0 := At(c.x, map[], []);
    HasKeys(f, c);
    assert y0.hashes == {} && Unknown(f, {c.t}, {}) == {c.t};
    assert f.Digests({c.t}) == {f.sha(c.t)};
  }

  lemma AddsSame(f: Format, c: Couple, nx: Node)
    requires c.x != c.y && f.Settled(c.t)
    ensures var y0 := At(c.x, map[], []);
            ClientAdd(f, Two(map[c.x := {c.t}, c.y := {}], c.x, nx, c.y, y0), c.y, {c.t},
                      Two(map[c.x := {c.t}, c.y := {c.t}], c.x, nx, c.y, y0.(store := c.Has(f), dbPc := DbStale)))
  {
    var inj, inj' := map[c.x := {c.t}, c.y := {}], map[c.x := {c.t}, c.y := {c.t}];
    var y0 := At(c.x, map[], []);
    var y1 := y0.(store := c.Has(f), dbPc := DbStale);
    var s, s' := Two(inj, c.x, nx, c.y, y0), Two(inj', c.x, nx, c.y, y1);
    AddsToEmpty(f, c);
    var none: set<Text> := {};
    assert inj[c.y] == none && none + {c.t} == {c.t};
    assert map[c.x := {c.t}, c.y := none][c.y := {c.t}] == inj';
    assert s'.nodes == s.nodes[c.y := y1];
  }

  /** While clients only add: a document that a client adds while it is on its way leaves nothing to insert when it
      arrives. */
  lemma EmptyIns(f: Format, c: Couple) returns (run: seq<System>)
    requires c.x != c.y && f.Settled(c.t)
    ensures AddOnlyRun(f, run) && c.y in Last(run).nodes && INS({}) in Last(run).nodes[c.y].toDb
  {
    var x, y, inj, inj' := c.x, c.y, map[c.x := {c.t}, c.y := {}], map[c.x := {c.t}, c.y := {c.t}];
    run := IsAsked(f, c);
    var nx, y0 := At(y, c.Has(f), [DOC({c.t})]).(pc := AtPeers), At(x, map[], []);
    var ns := Served(f, c);
    run := OwnOnward(f, run, inj, x, ns, c.Asked(f), y, y0, nx);
    var y1 := y0.(store := c.Has(f), dbPc := DbStale);
    AddsSame(f, c, nx);
    run := Onward(f, run, Two(inj, x, nx, y, y0), Two(inj', x, nx, y, y1));
    var y2 := y1.(hashes := c.Has(f).Keys, dbPc := DbIdle, toP2p := [NEW]);
    ns := RefreshRun(f, y1);
    assert y1.toP2p + [NEW] == [NEW];
    DbIsOwn(f, y, ns, y1, y2);
    Swap(inj', x, nx, y, y1);
    run := OwnOnward(f, run, inj', y, ns, y1, x, nx, y2);
    var y3 := y2.(toDb := [INS({})], pc := AtPeers);
    HasKeys(f, c);
    assert Unknown(f, {c.t}, y2.hashes) == {} && y2.toDb + [INS({})] == [INS({})];
    DeliverTwo(f, inj', y, y2, x, nx, y3);
    run := Onward(f, run, Two(inj', y, y2, x, nx), Two(inj', y, y3, x, Taken(nx, y)));
    assert Last(run).nodes[y] == y3 && y3.toDb[0] == INS({});
  }
}
