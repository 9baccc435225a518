/** One daemon: what each handler of its two threads does to its state, as functions and relations.
    The classes P2pThread and DbThread are proved to compute these; the module Gossip lets many daemons
    take these steps in any order. */
module Daemon {
  import opened Messages

  /** State of the p2p thread.  A peer's DEALER socket is the queue of messages sent and not yet received,
      so `peers` is both the list of known addresses and the network. */
  datatype P2p = P2p(
    peers: map<Addr, seq<PeerMsg>>,
    requests: map<Addr, set<Hash>>,
    bcastPeers: bool,
    bcastHashes: bool,
    sendRequests: bool)

  /** Where the p2p thread is in its loop. */
  datatype Pc = AtPeers | AtHashes | AtRequests | AtPoll | AtPollDb

  /** Where the db thread is: waiting for work, done writing with the hash set out of date, refilling the hash
      set one hash at a time. */
  datatype DbPc = DbIdle | DbStale | DbFilling(todo: set<Hash>)

  datatype Node = Node(
    p2p: P2p, pc: Pc,
    store: map<Hash, Text>, hashes: set<Hash>, dbPc: DbPc,
    toDb: seq<ToDb>, toP2p: seq<ToP2p>)

  // ---------------------------------------------------------------- p2p thread

  function SendAll(peers: map<Addr, seq<PeerMsg>>, m: PeerMsg): map<Addr, seq<PeerMsg>> {
    map a | a in peers :: peers[a] + [m]
  }

  function BcastPeers(self: Addr, p: P2p): P2p {
    if !p.bcastPeers then p
    else p.(peers := SendAll(p.peers, PEER({self} + p.peers.Keys)), bcastPeers := false)
  }

  function BcastHashes(self: Addr, p: P2p, hashes: set<Hash>): P2p {
    if !p.bcastHashes then p
    else p.(peers := SendAll(p.peers, HASH(self, hashes)), bcastHashes := false)
  }

  function SendRequests(self: Addr, p: P2p): P2p {
    if !p.sendRequests then p
    else p.(peers := map a | a in p.peers ::
                       if a in p.requests then p.peers[a] + [REQ(self, p.requests[a])] else p.peers[a],
            requests := map[], sendRequests := false)
  }

  /** The addresses in a PEER message that are news to this daemon. */
  function Fresh(self: Addr, p: P2p, addrs: set<Addr>): set<Addr> {
    addrs - {self} - p.peers.Keys
  }

  function Connect(peers: map<Addr, seq<PeerMsg>>, news: set<Addr>): map<Addr, seq<PeerMsg>> {
    map a | a in peers.Keys + news :: if a in peers then peers[a] else []
  }

  function Requested(p: P2p, from: Addr): set<Hash> {
    if from in p.requests then p.requests[from] else {}
  }

  function Unknown(f: Format, docs: set<Text>, hashes: set<Hash>): set<Text> {
    set d | d in docs && f.sha(d) !in hashes
  }

  /** Those of a list whose digest is not among `hashes`, in order. */
  function Novel(sha: Text -> Hash, docs: seq<Text>, hashes: set<Hash>): seq<Text> {
    if docs == [] then []
    else
      Novel(sha, docs[..|docs|-1], hashes) +
      (if sha(docs[|docs|-1]) in hashes then [] else [docs[|docs|-1]])
  }

  lemma {:induction false} NovelElements(f: Format, docs: seq<Text>, hashes: set<Hash>)
    ensures Elements(Novel(f.sha, docs, hashes)) == Unknown(f, Elements(docs), hashes)
  {
    if docs != [] {
      var front, e := docs[..|docs|-1], docs[|docs|-1];
      NovelElements(f, front, hashes);
      assert docs == front + [e];
      ElementsAppend(front, [e]);
      ElementsAppend(Novel(f.sha, front, hashes), if f.sha(e) in hashes then [] else [e]);
    }
  }

  /** Answer a message from a peer: the new state, and what is handed to the db thread. */
  function AnswerPeer(f: Format, self: Addr, p: P2p, m: PeerMsg, hashes: set<Hash>): (P2p, seq<ToDb>) {
    match m
    case PEER(addrs) =>
      var news := Fresh(self, p, addrs);
      (if news == {} then p
       else p.(peers := Connect(p.peers, news), bcastPeers := true, bcastHashes := true), [])
    case HASH(from, hs) =>
      (if hs <= hashes then p
       else p.(requests := p.requests[from := Requested(p, from) + (hs - hashes)], sendRequests := true), [])
    case REQ(from, hs) =>
      (p, [GET(from, hs)])
    case DOC(docs) =>
      (p, [INS(Unknown(f, docs, hashes))])
  }

  /** Answer a message from the db thread; looking up an address that is not a peer is fatal. */
  function AnswerDb(p: P2p, m: ToP2p): P2p
    requires m.PUT? ==> m.addr in p.peers
  {
    match m
    case PUT(addr, docs) => p.(peers := p.peers[addr := p.peers[addr] + [DOC(docs)]])
    case NEW => p.(bcastHashes := true)
  }

  // ---------------------------------------------------------------- database and db thread

  function Lookup(store: map<Hash, Text>, hs: set<Hash>): set<Text> {
    set h | h in hs && h in store :: store[h]
  }

  /** Some document of `docs` that has an author is stored as `x` under key `h`. */
  ghost predicate StoredAs(f: Format, docs: set<Text>, h: Hash, x: Text) {
    exists d :: d in docs && f.author(d) != "" && x == f.canon(d) && h == f.sha(x)
  }

  ghost predicate StoredUnder(f: Format, docs: set<Text>, h: Hash) {
    exists d :: d in docs && f.author(d) != "" && h == f.sha(f.canon(d))
  }

  /** Storing `docs`, in any order: every document with an author is there afterwards, in canonical form, under the
      digest of that form; every other key is as it was. */
  ghost predicate Put(f: Format, store: map<Hash, Text>, docs: set<Text>, store': map<Hash, Text>) {
    && (forall h :: h in store' <==> h in store || StoredUnder(f, docs, h))
    && (forall h :: h in store' ==>
        if StoredUnder(f, docs, h) then StoredAs(f, docs, h, store'[h]) else store'[h] == store[h])
  }

  /** Entering a client's documents, in any order: each is there afterwards as it is, with or without author; every
      other key is as it was. */
  ghost predicate Entered(f: Format, store: map<Hash, Text>, docs: set<Text>, store': map<Hash, Text>) {
    && (forall h :: h in store' <==> h in store || h in f.Digests(docs))
    && (forall h :: h in store' ==>
        if h in f.Digests(docs) then store'[h] in docs && f.sha(store'[h]) == h else store'[h] == store[h])
  }

  // ---------------------------------------------------------------- the steps of one daemon

  ghost predicate BcastPeersStep(self: Addr, n: Node, n': Node) {
    n.pc == AtPeers && n' == n.(p2p := BcastPeers(self, n.p2p), pc := AtHashes)
  }

  ghost predicate BcastHashesStep(self: Addr, n: Node, n': Node) {
    n.pc == AtHashes && n' == n.(p2p := BcastHashes(self, n.p2p, n.hashes), pc := AtRequests)
  }

  /** Every address that requests go to must be a peer. */
  ghost predicate SendRequestsStep(self: Addr, n: Node, n': Node) {
    && n.pc == AtRequests
    && (n.p2p.sendRequests ==> n.p2p.requests.Keys <= n.p2p.peers.Keys)
    && n' == n.(p2p := SendRequests(self, n.p2p), pc := AtPoll)
  }

  ghost predicate AnswerDbStep(n: Node, n': Node) {
    && (n.pc == AtPoll || n.pc == AtPollDb)
    && n.toP2p != []
    && (n.toP2p[0].PUT? ==> n.toP2p[0].addr in n.p2p.peers)
    && n' == n.(p2p := AnswerDb(n.p2p, n.toP2p[0]), toP2p := n.toP2p[1..], pc := AtPeers)
  }

  /** The db thread answers a lookup. */
  ghost predicate DbGetStep(n: Node, n': Node) {
    && n.dbPc == DbIdle && n.toDb != [] && n.toDb[0].GET?
    && n' == n.(toDb := n.toDb[1..],
                toP2p := n.toP2p + [PUT(n.toDb[0].addr, Lookup(n.store, n.toDb[0].hashes))])
  }

  /** The db thread stores what it does not have; if that is nothing, it says nothing. */
  ghost predicate DbInsStep(f: Format, n: Node, n': Node) {
    && n.dbPc == DbIdle && n.toDb != [] && n.toDb[0].INS?
    && var docs := Unknown(f, n.toDb[0].docs, n.hashes);
       if docs == {} then n' == n.(toDb := n.toDb[1..])
       else Put(f, n.store, docs, n'.store) &&
            n' == n.(toDb := n.toDb[1..], store := n'.store, dbPc := DbStale)
  }

  /** Refreshing the hash set: it is emptied, ... */
  ghost predicate DbClearStep(n: Node, n': Node) {
    n.dbPc == DbStale && n' == n.(hashes := {}, dbPc := DbFilling(n.store.Keys))
  }

  /** ... then filled one hash at a time in any order, while the p2p thread may look, ... */
  ghost predicate DbFillStep(n: Node, n': Node) {
    && n.dbPc.DbFilling?
    && exists h :: h in n.dbPc.todo &&
         n' == n.(hashes := n.hashes + {h}, dbPc := DbFilling(n.dbPc.todo - {h}))
  }

  /** ... and when it is complete the p2p thread is told. */
  ghost predicate DbNotifyStep(n: Node, n': Node) {
    n.dbPc == DbFilling({}) && n' == n.(dbPc := DbIdle, toP2p := n.toP2p + [NEW])
  }

  ghost predicate LocalStep(f: Format, self: Addr, n: Node, n': Node) {
    || BcastPeersStep(self, n, n') || BcastHashesStep(self, n, n') || SendRequestsStep(self, n, n')
    || AnswerDbStep(n, n')
    || DbGetStep(n, n') || DbInsStep(f, n, n')
    || DbClearStep(n, n') || DbFillStep(n, n') || DbNotifyStep(n, n')
  }

  /** The receiving half of a delivery.  Whether the p2p thread looks at the db thread's pipe before going round
      its loop depends on what the poll saw. */
  ghost predicate ReceiveStep(f: Format, self: Addr, n: Node, m: PeerMsg, n': Node) {
    && n.pc == AtPoll
    && (n'.pc == AtPeers || (n'.pc == AtPollDb && n.toP2p != []))
    && var (p, out) := AnswerPeer(f, self, n.p2p, m, n.hashes);
       n' == n.(p2p := p, toDb := n.toDb + out, pc := n'.pc)
  }

  /** A lookup of an unknown address is about to throw. */
  ghost predicate Crashes(n: Node) {
    || (n.pc == AtRequests && n.p2p.sendRequests && !(n.p2p.requests.Keys <= n.p2p.peers.Keys))
    || ((n.pc == AtPoll || n.pc == AtPollDb) && n.toP2p != [] && n.toP2p[0].PUT? &&
        n.toP2p[0].addr !in n.p2p.peers)
  }

  /** A client command adds documents: those whose digest is not in the hash set are entered. */
  ghost predicate AddStep(f: Format, n: Node, docs: set<Text>, n': Node) {
    && n.dbPc == DbIdle
    && Entered(f, n.store, Unknown(f, docs, n.hashes), n'.store)
    && n' == n.(store := n'.store, dbPc := DbStale)
  }

  /** A client command removes documents. */
  ghost predicate RmStep(n: Node, n': Node) {
    && n.dbPc == DbIdle
    && n'.store.Keys <= n.store.Keys
    && (forall h :: h in n'.store ==> n'.store[h] == n.store[h])
    && n' == n.(store := n'.store, dbPc := DbStale)
  }
}
