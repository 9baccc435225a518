/** How much one daemon has left to do.  Each message and each pending duty weighs more than all that it can give
    rise to, as long as the daemon learns no new peer and no new document.  A document that the daemon it goes to
    would refuse weighs as much as advertising again, which is all the more the more such documents that daemon has
    itself. */
module Work {
  import opened Messages
  import opened Daemon
  import opened Gossip
  import opened NodeInvariant
  import opened Confinement
  import opened Sums

  // ---------------------------------------------------------------- weights

  /** What stays as it is while the clients are silent: the number of daemons, a bound on the documents each can
      have, the digests of documents without author, and which of these each daemon has. */
  datatype Stakes = Stakes(N: nat, H: nat, orphans: set<Hash>, own: map<Addr, set<Hash>>) {

    function Rank(a: Addr): nat {
      if a in own then |own[a]| else 0
    }

    /** Nothing in `hs` is refused by `a` that it does not have already. */
    predicate Harmless(a: Addr, hs: set<Hash>) {
      a in own ==> hs * orphans <= own[a]
    }

    /** The weight of one refusal at a daemon that has `r` documents without author. */
    function Load(r: nat): nat {
      Each(N, 18 + if r == 0 then 0 else Load(r - 1)) + H + 7
    }

    function Below(r: nat): nat {
      if r == 0 then 0 else Load(r - 1)
    }

    function Extra(a: Addr, hs: set<Hash>): nat {
      if Harmless(a, hs) then 0 else Load(Rank(a))
    }

    /** The most that advertising `hashes` weighs more at any peer of `a`. */
    function Fall(a: Addr, hashes: set<Hash>): nat {
      if Harmless(a, hashes) then Below(Rank(a)) else Load(|orphans|)
    }

    function NewsWork(a: Addr, hashes: set<Hash>): nat {
      Each(N, 18 + Fall(a, hashes)) + 4
    }
  }

  function PeerMsgWork(f: Format, k: Stakes, dst: Addr): PeerMsg -> nat {
    (m: PeerMsg) =>
      match m
      case PEER(_) => 4
      case HASH(_, hs) => 18 + k.Extra(dst, hs)
      case REQ(from, hs) => 14 + k.Extra(from, hs)
      case DOC(docs) => 5 + k.Extra(dst, f.Digests(docs))
  }

  function ToDbWork(f: Format, k: Stakes, a: Addr): ToDb -> nat {
    (m: ToDb) =>
      match m
      case GET(addr, hs) => 10 + k.Extra(addr, hs)
      case INS(docs) => 1 + k.Extra(a, f.Digests(docs))
  }

  function ToP2pWork(f: Format, k: Stakes, a: Addr, hashes: set<Hash>): ToP2p -> nat {
    (m: ToP2p) =>
      match m
      case PUT(addr, docs) => 9 + k.Extra(addr, f.Digests(docs))
      case NEW => k.NewsWork(a, hashes)
  }

  function PcWork(pc: Pc): nat {
    match pc
    case AtPeers => 3
    case AtHashes => 2
    case AtRequests => 1
    case AtPoll => 0
    case AtPollDb => 0
  }

  function DbWork(k: Stakes, a: Addr, n: Node): nat {
    match n.dbPc
    case DbIdle => 0
    case DbFilling(todo) => k.NewsWork(a, {}) + 1 + |todo|
    case DbStale => k.NewsWork(a, {}) + 2 + |n.store.Keys|
  }

  ghost function SocketWork(f: Format, k: Stakes, peers: map<Addr, seq<PeerMsg>>): Addr -> nat {
    a => if a in peers then Sum(peers[a], PeerMsgWork(f, k, a)) else 0
  }

  ghost function SocketsWork(f: Format, k: Stakes, peers: map<Addr, seq<PeerMsg>>): nat {
    Total(peers.Keys, SocketWork(f, k, peers))
  }

  function RequestWork(k: Stakes, a: Addr, requests: map<Addr, set<Hash>>): Addr -> nat {
    c => if c in requests then 14 + k.Extra(a, requests[c]) else 0
  }

  ghost function RequestsWork(k: Stakes, a: Addr, requests: map<Addr, set<Hash>>): nat {
    Total(requests.Keys, RequestWork(k, a, requests))
  }

  ghost function P2pWork(f: Format, k: Stakes, a: Addr, p: P2p, hashes: set<Hash>): nat {
    SocketsWork(f, k, p.peers) + RequestsWork(k, a, p.requests) +
    (if p.bcastPeers then Each(k.N, 4) else 0) + (if p.bcastHashes then Each(k.N, 18 + k.Fall(a, hashes)) else 0)
  }

  /** The work of daemon `a`. */
  ghost function NodeWork(f: Format, k: Stakes, a: Addr, n: Node): nat {
    P2pWork(f, k, a, n.p2p, n.hashes) + PcWork(n.pc) + DbWork(k, a, n) + Sum(n.toDb, ToDbWork(f, k, a)) +
    Sum(n.toP2p, ToP2pWork(f, k, a, n.hashes))
  }

  /** `k` says the truth about `a`, and of it and any of its peers one has all documents without author that the
      other has. */
  ghost predicate Staked(k: Stakes, a: Addr, n: Node) {
    && a in k.own && k.own[a] == n.store.Keys * k.orphans
    && |n.store.Keys| <= k.H && |n.p2p.peers.Keys| <= k.N
    && forall c :: c in n.p2p.peers ==>
                     c in k.own && k.own[c] <= k.orphans && (k.own[a] <= k.own[c] || k.own[c] <= k.own[a])
  }

  // ---------------------------------------------------------------- weights compared

  lemma {:induction false} LoadGrows(k: Stakes, r: nat, r': nat)
    requires r <= r'
    ensures k.Load(r) <= k.Load(r')
  {
    if r > 0 {
      LoadGrows(k, r - 1, r' - 1);
      EachGrows(k.N, k.N, 18 + k.Load(r - 1), 18 + k.Load(r' - 1));
    } else if r' > 0 {
      EachGrows(k.N, k.N, 18, 18 + k.Load(r' - 1));
    }
  }

  lemma {:induction false} BelowGrows(k: Stakes, r: nat, r': nat)
    requires r <= r'
    ensures k.Below(r) <= k.Load(r') && k.Below(r) <= k.Below(r')
  {
    if r > 0 {
      LoadGrows(k, r - 1, r');
      LoadGrows(k, r - 1, r' - 1);
    }
  }

  /** Fewer hashes weigh no more, and two lists no more than both. */
  lemma {:induction false} ExtraParts(k: Stakes, a: Addr, hs: set<Hash>, hs': set<Hash>)
    ensures hs <= hs' ==> k.Extra(a, hs) <= k.Extra(a, hs')
    ensures k.Extra(a, hs + hs') <= k.Extra(a, hs) + k.Extra(a, hs')
  {
    if k.Harmless(a, hs) && k.Harmless(a, hs') {
      assert (hs + hs') * k.orphans == hs * k.orphans + hs' * k.orphans;
    }
    if hs <= hs' {
      assert hs * k.orphans <= hs' * k.orphans;
    }
  }

  lemma {:induction false} RankBound(k: Stakes, a: Addr)
    requires a in k.own && k.own[a] <= k.orphans
    ensures k.Rank(a) <= |k.orphans|
  {
    SubsetSize(k.own[a], k.orphans);
  }

  /** What a daemon advertises weighs no more at a peer than it was meant to. */
  lemma {:induction false} AdvertWork(k: Stakes, a: Addr, n: Node, c: Addr)
    requires Staked(k, a, n) && c in n.p2p.peers
    ensures k.Extra(c, n.hashes) <= k.Fall(a, n.hashes)
  {
    RankBound(k, c);
    if !k.Harmless(a, n.hashes) {
      LoadGrows(k, k.Rank(c), |k.orphans|);
    } else if !k.Harmless(c, n.hashes) {
      assert n.hashes * k.orphans <= k.own[a] && !(k.own[a] <= k.own[c]);
      SubsetSize(k.own[c], k.own[a]);
      LoadGrows(k, k.Rank(c), k.Rank(a) - 1);
    }
  }

  lemma {:induction false} FallEmpty(k: Stakes, a: Addr)
    ensures k.Fall(a, {}) == k.Below(k.Rank(a))
  {
    assert {} * k.orphans == {};
  }

  /** An up-to-date hash set weighs least, ... */
  lemma {:induction false} FallLeast(k: Stakes, a: Addr, n: Node, hashes: set<Hash>)
    requires Staked(k, a, n)
    ensures k.Fall(a, {}) <= k.Fall(a, hashes)
  {
    FallEmpty(k, a);
    RankBound(k, a);
    BelowGrows(k, k.Rank(a), |k.orphans|);
  }

  /** ... be it complete or not. */
  lemma {:induction false} FallFresh(k: Stakes, a: Addr, n: Node, hashes: set<Hash>)
    requires Staked(k, a, n) && hashes <= n.store.Keys
    ensures k.Fall(a, hashes) == k.Fall(a, {})
  {
    FallEmpty(k, a);
    assert hashes * k.orphans <= n.store.Keys * k.orphans;
  }

  lemma {:induction false} NewsGrows(k: Stakes, a: Addr, hs: set<Hash>, hs': set<Hash>)
    requires k.Fall(a, hs) <= k.Fall(a, hs')
    ensures Each(k.N, 18 + k.Fall(a, hs)) <= Each(k.N, 18 + k.Fall(a, hs'))
    ensures k.NewsWork(a, hs) <= k.NewsWork(a, hs')
  {
    EachGrows(k.N, k.N, 18 + k.Fall(a, hs), 18 + k.Fall(a, hs'));
  }

  // ---------------------------------------------------------------- sockets

  lemma {:induction false} SendAllWork(f: Format, k: Stakes, peers: map<Addr, seq<PeerMsg>>, m: PeerMsg, w: nat)
    requires forall a :: a in peers ==> PeerMsgWork(f, k, a)(m) <= w
    ensures SocketsWork(f, k, SendAll(peers, m)) <= SocketsWork(f, k, peers) + Each(|peers.Keys|, w)
  {
    var peers' := SendAll(peers, m);
    assert peers'.Keys == peers.Keys;
    forall a | a in peers.Keys ensures SocketWork(f, k, peers')(a) <= SocketWork(f, k, peers)(a) + w {
      SumAppend(peers[a], m, PeerMsgWork(f, k, a));
    }
    TotalBound(peers.Keys, SocketWork(f, k, peers), SocketWork(f, k, peers'), w);
  }

  lemma {:induction false} RequestsSent(f: Format, k: Stakes, self: Addr, p: P2p)
    requires p.sendRequests && p.requests.Keys <= p.peers.Keys
    ensures SocketsWork(f, k, SendRequests(self, p).peers) ==
            SocketsWork(f, k, p.peers) + RequestsWork(k, self, p.requests)
  {
    var peers' := SendRequests(self, p).peers;
    assert peers'.Keys == p.peers.Keys;
    forall a | a in p.peers.Keys
      ensures SocketWork(f, k, peers')(a) ==
              if a in p.requests.Keys then SocketWork(f, k, p.peers)(a) + RequestWork(k, self, p.requests)(a)
              else SocketWork(f, k, p.peers)(a)
    {
      if a in p.requests { SumAppend(p.peers[a], REQ(self, p.requests[a]), PeerMsgWork(f, k, a)); }
    }
    TotalAdd(p.peers.Keys, SocketWork(f, k, p.peers), SocketWork(f, k, peers'), p.requests.Keys,
             RequestWork(k, self, p.requests));
  }

  lemma {:induction false} SendRequestsWork(f: Format, k: Stakes, self: Addr, p: P2p, hashes: set<Hash>)
    requires p.requests.Keys <= p.peers.Keys && (!p.sendRequests ==> p.requests == map[])
    ensures P2pWork(f, k, self, SendRequests(self, p), hashes) == P2pWork(f, k, self, p, hashes)
  {
    if p.sendRequests { RequestsSent(f, k, self, p); }
  }

  lemma {:induction false} SendOneWork(f: Format, k: Stakes, peers: map<Addr, seq<PeerMsg>>, a: Addr, m: PeerMsg)
    requires a in peers
    ensures SocketsWork(f, k, peers[a := peers[a] + [m]]) == SocketsWork(f, k, peers) + PeerMsgWork(f, k, a)(m)
  {
    var peers' := peers[a := peers[a] + [m]];
    assert peers'.Keys == peers.Keys;
    SumAppend(peers[a], m, PeerMsgWork(f, k, a));
    TotalChange(peers.Keys, SocketWork(f, k, peers), SocketWork(f, k, peers'), a);
  }

  lemma {:induction false} TakeOneWork(f: Format, k: Stakes, peers: map<Addr, seq<PeerMsg>>, a: Addr)
    requires a in peers && peers[a] != []
    ensures SocketsWork(f, k, peers[a := peers[a][1..]]) + PeerMsgWork(f, k, a)(peers[a][0]) == SocketsWork(f, k, peers)
  {
    var peers' := peers[a := peers[a][1..]];
    assert peers'.Keys == peers.Keys;
    TotalChange(peers.Keys, SocketWork(f, k, peers), SocketWork(f, k, peers'), a);
  }

  lemma {:induction false} TakenWork(f: Format, k: Stakes, a: Addr, n: Node, dst: Addr)
    requires dst in n.p2p.peers && n.p2p.peers[dst] != []
    ensures NodeWork(f, k, a, Taken(n, dst)) + PeerMsgWork(f, k, dst)(n.p2p.peers[dst][0]) == NodeWork(f, k, a, n)
  {
    TakeOneWork(f, k, n.p2p.peers, dst);
    var n', w := Taken(n, dst), PeerMsgWork(f, k, dst)(n.p2p.peers[dst][0]);
    assert DbWork(k, a, n') == DbWork(k, a, n);
    assert SocketsWork(f, k, n'.p2p.peers) + w == SocketsWork(f, k, n.p2p.peers);
    assert P2pWork(f, k, a, n'.p2p, n.hashes) + w == P2pWork(f, k, a, n.p2p, n.hashes);
  }

  // ---------------------------------------------------------------- one step of one daemon

  lemma {:induction false} BcastPeersWork(f: Format, k: Stakes, self: Addr, n: Node)
    requires Staked(k, self, n)
    ensures P2pWork(f, k, self, BcastPeers(self, n.p2p), n.hashes) <= P2pWork(f, k, self, n.p2p, n.hashes)
  {
    var p, p' := n.p2p, BcastPeers(self, n.p2p);
    SendAllWork(f, k, p.peers, PEER({self} + p.peers.Keys), 4);
    EachGrows(|p.peers.Keys|, k.N, 4, 4);
    assert p'.requests == p.requests;
    assert p.bcastPeers ==> SocketsWork(f, k, p'.peers) <= SocketsWork(f, k, p.peers) + Each(k.N, 4);
  }

  lemma {:induction false} AdvertAllWork(f: Format, k: Stakes, self: Addr, n: Node)
    requires Staked(k, self, n)
    ensures SocketsWork(f, k, SendAll(n.p2p.peers, HASH(self, n.hashes))) <=
            SocketsWork(f, k, n.p2p.peers) + Each(k.N, 18 + k.Fall(self, n.hashes))
  {
    var peers, w := n.p2p.peers, 18 + k.Fall(self, n.hashes);
    forall c | c in peers ensures PeerMsgWork(f, k, c)(HASH(self, n.hashes)) <= w {
      AdvertWork(k, self, n, c);
    }
    SendAllWork(f, k, peers, HASH(self, n.hashes), w);
    EachGrows(|peers.Keys|, k.N, w, w);
  }

  lemma {:induction false} BcastHashesWork(f: Format, k: Stakes, self: Addr, n: Node)
    requires Staked(k, self, n)
    ensures P2pWork(f, k, self, BcastHashes(self, n.p2p, n.hashes), n.hashes) <= P2pWork(f, k, self, n.p2p, n.hashes)
  {
    var p, p', w := n.p2p, BcastHashes(self, n.p2p, n.hashes), 18 + k.Fall(self, n.hashes);
    if p.bcastHashes {
      AdvertAllWork(f, k, self, n);
      assert p'.requests == p.requests && RequestsWork(k, self, p'.requests) == RequestsWork(k, self, p.requests);
      assert SocketsWork(f, k, p'.peers) <= SocketsWork(f, k, p.peers) + Each(k.N, w);
    }
  }

  lemma {:induction false} P2pLoopWork(f: Format, k: Stakes, a: Addr, n: Node, n': Node)
    requires NodeInv(f, a, n) && Staked(k, a, n)
    requires BcastPeersStep(a, n, n') || BcastHashesStep(a, n, n') || SendRequestsStep(a, n, n')
    ensures NodeWork(f, k, a, n') < NodeWork(f, k, a, n)
  {
    BcastPeersWork(f, k, a, n);
    BcastHashesWork(f, k, a, n);
    if SendRequestsStep(a, n, n') {
      SendRequestsWork(f, k, a, n.p2p, n.hashes);
    }
    assert DbWork(k, a, n') == DbWork(k, a, n) && n'.toDb == n.toDb && n'.toP2p == n.toP2p && n'.hashes == n.hashes;
    assert P2pWork(f, k, a, n'.p2p, n.hashes) <= P2pWork(f, k, a, n.p2p, n.hashes) && PcWork(n'.pc) < PcWork(n.pc);
  }

  lemma {:induction false} PutWork(f: Format, k: Stakes, a: Addr, n: Node, n': Node)
    requires AnswerDbStep(n, n') && n.toP2p[0].PUT?
    ensures P2pWork(f, k, a, n'.p2p, n.hashes) + 4 ==
            P2pWork(f, k, a, n.p2p, n.hashes) + ToP2pWork(f, k, a, n.hashes)(n.toP2p[0])
  {
    var u := n.toP2p[0];
    SendOneWork(f, k, n.p2p.peers, u.addr, DOC(u.docs));
    assert n'.p2p.requests == n.p2p.requests;
    assert SocketsWork(f, k, n'.p2p.peers) == SocketsWork(f, k, n.p2p.peers) + 5 + k.Extra(u.addr, f.Digests(u.docs));
  }

  lemma {:induction false} NoteWork(f: Format, k: Stakes, a: Addr, n: Node, n': Node)
    requires AnswerDbStep(n, n') && n.toP2p[0].NEW?
    ensures P2pWork(f, k, a, n'.p2p, n.hashes) + 4 <=
            P2pWork(f, k, a, n.p2p, n.hashes) + ToP2pWork(f, k, a, n.hashes)(n.toP2p[0])
  {
    assert n'.p2p.requests == n.p2p.requests && n'.p2p.peers == n.p2p.peers;
  }

  lemma {:induction false} AnswerDbWork(f: Format, k: Stakes, a: Addr, n: Node, n': Node)
    requires AnswerDbStep(n, n')
    ensures NodeWork(f, k, a, n') < NodeWork(f, k, a, n)
  {
    var u := n.toP2p[0];
    if u.PUT? { PutWork(f, k, a, n, n'); } else { NoteWork(f, k, a, n, n'); }
    assert Sum(n.toP2p, ToP2pWork(f, k, a, n.hashes)) ==
           ToP2pWork(f, k, a, n.hashes)(u) + Sum(n'.toP2p, ToP2pWork(f, k, a, n.hashes));
    assert DbWork(k, a, n') == DbWork(k, a, n) && n'.toDb == n.toDb && PcWork(n'.pc) <= 3;
  }

  /** What is found weighs no more than what was asked for. */
  lemma {:induction false} LookupExtra(f: Format, k: Stakes, addr: Addr, n: Node, hs: set<Hash>)
    requires ContentAddressed(f, n)
    ensures k.Extra(addr, f.Digests(Lookup(n.store, hs))) <= k.Extra(addr, hs)
  {
    assert f.Digests(Lookup(n.store, hs)) <= hs;
    ExtraParts(k, addr, f.Digests(Lookup(n.store, hs)), hs);
  }

  lemma {:induction false} DbGetWork(f: Format, k: Stakes, a: Addr, n: Node, n': Node)
    requires DbGetStep(n, n') && ContentAddressed(f, n)
    ensures NodeWork(f, k, a, n') < NodeWork(f, k, a, n)
  {
    var g := n.toDb[0];
    var u := PUT(g.addr, Lookup(n.store, g.hashes));
    SumAppend(n.toP2p, u, ToP2pWork(f, k, a, n.hashes));
    LookupExtra(f, k, g.addr, n, g.hashes);
    assert Sum(n'.toDb, ToDbWork(f, k, a)) + ToDbWork(f, k, a)(g) == Sum(n.toDb, ToDbWork(f, k, a));
  }

  /** Nothing grows when the hash set is brought up to date. */
  lemma {:induction false} RefreshWork(f: Format, k: Stakes, a: Addr, n: Node, hashes: set<Hash>)
    requires Staked(k, a, n) && hashes <= n.store.Keys
    ensures P2pWork(f, k, a, n.p2p, hashes) <= P2pWork(f, k, a, n.p2p, n.hashes)
    ensures Sum(n.toP2p, ToP2pWork(f, k, a, hashes)) <= Sum(n.toP2p, ToP2pWork(f, k, a, n.hashes))
  {
    FallLeast(k, a, n, n.hashes);
    FallFresh(k, a, n, hashes);
    NewsGrows(k, a, hashes, n.hashes);
    SumBound(n.toP2p, ToP2pWork(f, k, a, n.hashes), ToP2pWork(f, k, a, hashes));
  }

  lemma {:induction false} RefreshSum(f: Format, k: Stakes, a: Addr, n: Node, n': Node)
    requires Staked(k, a, n) && n'.hashes <= n.store.Keys && DbWork(k, a, n') < DbWork(k, a, n)
    requires n'.toDb == n.toDb && n'.toP2p == n.toP2p && n'.p2p == n.p2p && n'.pc == n.pc
    ensures NodeWork(f, k, a, n') < NodeWork(f, k, a, n)
  {
    RefreshWork(f, k, a, n, n'.hashes);
  }

  lemma {:induction false} ClearWork(f: Format, k: Stakes, a: Addr, n: Node, n': Node)
    requires Staked(k, a, n) && DbClearStep(n, n')
    ensures NodeWork(f, k, a, n') < NodeWork(f, k, a, n)
  {
    assert DbWork(k, a, n') + 1 == DbWork(k, a, n);
    RefreshSum(f, k, a, n, n');
  }

  lemma {:induction false} FillWork(f: Format, k: Stakes, a: Addr, n: Node, n': Node)
    requires Staked(k, a, n) && Cache(n) && DbFillStep(n, n')
    ensures NodeWork(f, k, a, n') < NodeWork(f, k, a, n)
  {
    var h :| h in n.dbPc.todo && n' == n.(hashes := n.hashes + {h}, dbPc := DbFilling(n.dbPc.todo - {h}));
    assert |n'.dbPc.todo| == |n.dbPc.todo| - 1;
    assert DbWork(k, a, n') + 1 == DbWork(k, a, n);
    RefreshSum(f, k, a, n, n');
  }

  lemma {:induction false} NotifySum(f: Format, k: Stakes, a: Addr, n: Node, n': Node)
    requires DbWork(k, a, n') + k.NewsWork(a, n.hashes) < DbWork(k, a, n)
    requires Sum(n'.toP2p, ToP2pWork(f, k, a, n.hashes)) ==
             Sum(n.toP2p, ToP2pWork(f, k, a, n.hashes)) + k.NewsWork(a, n.hashes)
    requires n'.toDb == n.toDb && n'.p2p == n.p2p && n'.pc == n.pc && n'.hashes == n.hashes
    ensures NodeWork(f, k, a, n') < NodeWork(f, k, a, n)
  {
    assert P2pWork(f, k, a, n'.p2p, n'.hashes) == P2pWork(f, k, a, n.p2p, n.hashes);
    assert Sum(n'.toDb, ToDbWork(f, k, a)) == Sum(n.toDb, ToDbWork(f, k, a));
  }

  lemma {:induction false} NotifiedDb(k: Stakes, a: Addr, n: Node, n': Node)
    requires DbNotifyStep(n, n') && k.Fall(a, n.hashes) == k.Fall(a, {})
    ensures DbWork(k, a, n') + k.NewsWork(a, n.hashes) < DbWork(k, a, n)
  {
    assert k.NewsWork(a, n.hashes) == k.NewsWork(a, {});
    assert DbWork(k, a, n') == 0 && DbWork(k, a, n) == k.NewsWork(a, {}) + 1;
  }

  lemma {:induction false} NotifyWork(f: Format, k: Stakes, a: Addr, n: Node, n': Node)
    requires Staked(k, a, n) && Cache(n) && DbNotifyStep(n, n')
    ensures NodeWork(f, k, a, n') < NodeWork(f, k, a, n)
  {
    FallFresh(k, a, n, n.hashes);
    NotifiedDb(k, a, n, n');
    SumAppend(n.toP2p, NEW, ToP2pWork(f, k, a, n.hashes));
    NotifySum(f, k, a, n, n');
  }

  /** The documents an INS brings: those without author are known to be such. */
  ghost predicate Marked(f: Format, k: Stakes, docs: set<Text>) {
    AllSettled(f, docs) && forall t :: t in docs && f.author(t) == "" ==> f.sha(t) in k.orphans
  }

  lemma {:induction false} LoadIs(k: Stakes, a: Addr)
    ensures k.Load(k.Rank(a)) == k.NewsWork(a, {}) + k.H + 3
  {
    FallEmpty(k, a);
  }

  lemma {:induction false} RefusedWork(f: Format, k: Stakes, a: Addr, n: Node, n': Node, d: Text)
    requires Staked(k, a, n) && n.hashes == n.store.Keys && DbInsStep(f, n, n') && n'.store.Keys == n.store.Keys
    requires d in Unknown(f, n.toDb[0].docs, n.hashes) && f.sha(d) in k.orphans
    ensures DbWork(k, a, n') < DbWork(k, a, n) + ToDbWork(f, k, a)(n.toDb[0])
  {
    assert f.sha(d) in f.Digests(n.toDb[0].docs) * k.orphans && f.sha(d) !in k.own[a];
    assert ToDbWork(f, k, a)(n.toDb[0]) == 1 + k.Load(k.Rank(a));
    LoadIs(k, a);
    assert DbWork(k, a, n') == k.NewsWork(a, {}) + 2 + |n.store.Keys|;
  }

  /** The db thread makes work only when the store really grows, or for a refused document that weighed as much. */
  lemma {:induction false} InsWork(f: Format, k: Stakes, a: Addr, n: Node, n': Node)
    requires NodeInv(f, a, n) && Staked(k, a, n) && DbInsStep(f, n, n') && Marked(f, k, n.toDb[0].docs)
    ensures n.store.Keys <= n'.store.Keys
    ensures (NodeWork(f, k, a, n') < NodeWork(f, k, a, n) && n'.store.Keys == n.store.Keys) ||
            |n.store.Keys| < |n'.store.Keys|
  {
    var g := n.toDb[0];
    var docs := Unknown(f, g.docs, n.hashes);
    SubsetSize(n.store.Keys, n'.store.Keys);
    forall d | d in docs ensures f.author(d) == "" || f.sha(d) in n'.store.Keys {
      if f.author(d) != "" {
        assert f.Settled(d) && StoredUnder(f, docs, f.sha(d));
      }
    }
    if n'.store.Keys == n.store.Keys {
      if d :| d in docs {
        RefusedWork(f, k, a, n, n', d);
      }
      InsSum(f, k, a, n, n');
    }
  }

  lemma {:induction false} InsSum(f: Format, k: Stakes, a: Addr, n: Node, n': Node)
    requires DbInsStep(f, n, n')
    requires DbWork(k, a, n') < DbWork(k, a, n) + ToDbWork(f, k, a)(n.toDb[0])
    ensures NodeWork(f, k, a, n') < NodeWork(f, k, a, n)
  {
    assert Sum(n'.toDb, ToDbWork(f, k, a)) + ToDbWork(f, k, a)(n.toDb[0]) == Sum(n.toDb, ToDbWork(f, k, a));
    assert n'.toP2p == n.toP2p && n'.p2p == n.p2p && n'.pc == n.pc && n'.hashes == n.hashes;
  }

  /** A step of a daemon on its own either stores a document it did not have, or lessens its work. */
  lemma {:induction false} LocalWork(f: Format, k: Stakes, a: Addr, n: Node, n': Node)
    requires NodeInv(f, a, n) && LocalStep(f, a, n, n') && Staked(k, a, n)
    requires n.toDb != [] && n.toDb[0].INS? ==> Marked(f, k, n.toDb[0].docs)
    ensures n'.p2p.peers.Keys == n.p2p.peers.Keys && n.store.Keys <= n'.store.Keys
    ensures (NodeWork(f, k, a, n') < NodeWork(f, k, a, n) && n'.store.Keys == n.store.Keys) ||
            |n.store.Keys| < |n'.store.Keys|
  {
    LocalNodeInv(f, a, n, n');
    if BcastPeersStep(a, n, n') || BcastHashesStep(a, n, n') || SendRequestsStep(a, n, n') {
      P2pLoopWork(f, k, a, n, n');
    } else if AnswerDbStep(n, n') {
      AnswerDbWork(f, k, a, n, n');
    } else if DbInsStep(f, n, n') {
      InsWork(f, k, a, n, n');
    } else if DbGetStep(n, n') {
      DbGetWork(f, k, a, n, n');
    } else if DbClearStep(n, n') {
      ClearWork(f, k, a, n, n');
    } else if DbFillStep(n, n') {
      FillWork(f, k, a, n, n');
    } else {
      NotifyWork(f, k, a, n, n');
    }
  }

  // ---------------------------------------------------------------- a delivery

  lemma {:induction false} RequestMoreWork(k: Stakes, a: Addr, requests: map<Addr, set<Hash>>, c: Addr, hs: set<Hash>)
    ensures var old' := if c in requests then requests[c] else {};
            RequestsWork(k, a, requests[c := old' + hs]) <= RequestsWork(k, a, requests) + 14 + k.Extra(a, hs)
  {
    var before := if c in requests then requests[c] else {};
    var requests' := requests[c := before + hs];
    ExtraParts(k, a, before, hs);
    if c in requests {
      assert requests'.Keys == requests.Keys;
      TotalChange(requests.Keys, RequestWork(k, a, requests), RequestWork(k, a, requests'), c);
    } else {
      assert requests'.Keys - {c} == requests.Keys && before + hs == hs;
      TotalRemove(requests'.Keys, RequestWork(k, a, requests'), c);
      TotalSame(requests.Keys, RequestWork(k, a, requests), RequestWork(k, a, requests'));
    }
  }

  lemma {:induction false} ReceiveHashWork(f: Format, k: Stakes, self: Addr, p: P2p, m: PeerMsg, hashes: set<Hash>)
    requires m.HASH?
    ensures P2pWork(f, k, self, AnswerPeer(f, self, p, m, hashes).0, hashes) <=
            P2pWork(f, k, self, p, hashes) + 14 + k.Extra(self, m.hashes)
  {
    if !(m.hashes <= hashes) {
      RequestMoreWork(k, self, p.requests, m.from, m.hashes - hashes);
      ExtraParts(k, self, m.hashes - hashes, m.hashes);
    }
  }

  lemma {:induction false} ReceivePeerWork(f: Format, self: Addr, p: P2p, m: PeerMsg, hashes: set<Hash>)
    requires m.PEER?
    ensures var p' := AnswerPeer(f, self, p, m, hashes).0;
            p.peers.Keys <= p'.peers.Keys && (p' == p || |p.peers.Keys| < |p'.peers.Keys|)
  {
    var p' := AnswerPeer(f, self, p, m, hashes).0;
    if x :| x in Fresh(self, p, m.addrs) {
      assert x in p'.peers.Keys && x !in p.peers.Keys;
      SubsetSize(p.peers.Keys, p'.peers.Keys);
    }
  }

  /** What is handed to the db thread weighs less than what came in. */
  lemma {:induction false} ReceiveOutWork(f: Format, k: Stakes, self: Addr, p: P2p, m: PeerMsg, hashes: set<Hash>,
                                          toDb: seq<ToDb>)
    requires m.REQ? || m.DOC?
    ensures var (p', out) := AnswerPeer(f, self, p, m, hashes);
            p' == p && Sum(toDb + out, ToDbWork(f, k, self)) + 4 <=
                 Sum(toDb, ToDbWork(f, k, self)) + PeerMsgWork(f, k, self)(m)
  {
    var out := AnswerPeer(f, self, p, m, hashes).1;
    SumAppend(toDb, out[0], ToDbWork(f, k, self));
    assert toDb + out == toDb + [out[0]];
    if m.DOC? {
      assert f.Digests(Unknown(f, m.docs, hashes)) <= f.Digests(m.docs);
      ExtraParts(k, self, f.Digests(Unknown(f, m.docs, hashes)), f.Digests(m.docs));
    }
  }

  lemma {:induction false} AnswerPeerWork(f: Format, k: Stakes, self: Addr, p: P2p, m: PeerMsg, hashes: set<Hash>,
                                          toDb: seq<ToDb>)
    ensures var (p', out) := AnswerPeer(f, self, p, m, hashes);
            && p.peers.Keys <= p'.peers.Keys
            && (|p.peers.Keys| < |p'.peers.Keys| ||
                (p'.peers.Keys == p.peers.Keys &&
                 P2pWork(f, k, self, p', hashes) + Sum(toDb + out, ToDbWork(f, k, self)) + 4 <=
                 P2pWork(f, k, self, p, hashes) + Sum(toDb, ToDbWork(f, k, self)) + PeerMsgWork(f, k, self)(m)))
  {
    if m.PEER? {
      ReceivePeerWork(f, self, p, m, hashes);
      assert toDb + [] == toDb;
    } else if m.HASH? {
      ReceiveHashWork(f, k, self, p, m, hashes);
      assert toDb + [] == toDb;
    } else {
      ReceiveOutWork(f, k, self, p, m, hashes, toDb);
    }
  }

  /** Receiving a message either brings a peer the daemon did not know, or makes less work than the message weighed. */
  lemma {:induction false} ReceiveWork(f: Format, k: Stakes, a: Addr, n: Node, m: PeerMsg, n': Node)
    requires ReceiveStep(f, a, n, m, n')
    ensures n'.store == n.store && n.p2p.peers.Keys <= n'.p2p.peers.Keys
    ensures |n.p2p.peers.Keys| < |n'.p2p.peers.Keys| ||
            (n'.p2p.peers.Keys == n.p2p.peers.Keys &&
             NodeWork(f, k, a, n') < NodeWork(f, k, a, n) + PeerMsgWork(f, k, a)(m))
  {
    AnswerPeerWork(f, k, a, n.p2p, m, n.hashes, n.toDb);
    assert DbWork(k, a, n') == DbWork(k, a, n) && PcWork(n'.pc) <= PcWork(n.pc) + 3 && n'.toP2p == n.toP2p;
  }
}
