/** The p2p thread: its handlers, with the frames they read and write.  Each is proved to do to the thread's state
    what the function of the same name in Daemon says. */
module P2pThreads {
  import opened Numerals
  import opened Messages
  import opened Framing
  import D = Daemon

  // ---------------------------------------------------------------- queues of frames

  ghost predicate PeerMsgs(q: seq<Frames>) {
    forall i :: 0 <= i < |q| ==> IsPeerMsg(q[i])
  }

  /** What the messages in a queue say. */
  ghost function Said(q: seq<Frames>): (r: seq<PeerMsg>)
    requires PeerMsgs(q)
    ensures |r| == |q|
  {
    seq(|q|, i requires 0 <= i < |q| => PeerMsgOf(q[i]))
  }

  ghost function AllSaid(socks: map<Addr, seq<Frames>>): map<Addr, seq<PeerMsg>>
    requires forall a :: a in socks ==> PeerMsgs(socks[a])
  {
    map a | a in socks :: Said(socks[a])
  }

  lemma SaidAppend(q: seq<Frames>, m: Frames)
    requires PeerMsgs(q) && IsPeerMsg(m)
    ensures PeerMsgs(q + [m]) && Said(q + [m]) == Said(q) + [PeerMsgOf(m)]
  {
  }

  lemma AllSaidUpdate(socks: map<Addr, seq<Frames>>, a: Addr, m: Frames)
    requires forall a :: a in socks ==> PeerMsgs(socks[a])
    requires a in socks && IsPeerMsg(m)
    ensures var socks' := socks[a := socks[a] + [m]];
            && (forall a :: a in socks' ==> PeerMsgs(socks'[a]))
            && AllSaid(socks') == AllSaid(socks)[a := AllSaid(socks)[a] + [PeerMsgOf(m)]]
  {
    SaidAppend(socks[a], m);
  }

  lemma AllSaidNew(socks: map<Addr, seq<Frames>>, a: Addr)
    requires forall a :: a in socks ==> PeerMsgs(socks[a])
    ensures AllSaid(socks[a := []]) == AllSaid(socks)[a := []]
  {
    assert Said([]) == [];
  }

  // ---------------------------------------------------------------- one more turn of a loop

  /** `m` has gone to all peers but those in `todo`. */
  ghost predicate SentBut(before: map<Addr, seq<PeerMsg>>, m: PeerMsg, todo: set<Addr>, after: map<Addr,
                          seq<PeerMsg>>) {
    && after.Keys == before.Keys
    && forall a :: a in before ==> after[a] == if a in todo then before[a] else before[a] + [m]
  }

  /** The requests have gone to all peers they are for but those in `todo`. */
  ghost predicate AskedBut(self: Addr, before: map<Addr, seq<PeerMsg>>, requests: map<Addr, set<Hash>>, todo: set<Addr>,
                           after: map<Addr, seq<PeerMsg>>) {
    && after.Keys == before.Keys
    && forall a :: a in before ==>
         after[a] == if a in requests && a !in todo then before[a] + [REQ(self, requests[a])] else before[a]
  }

  lemma SentMore(before: map<Addr, seq<PeerMsg>>, m: PeerMsg, todo: set<Addr>, a: Addr, after: map<Addr, seq<PeerMsg>>)
    requires SentBut(before, m, todo, after) && a in todo && a in before
    ensures SentBut(before, m, todo - {a}, after[a := after[a] + [m]])
  {
  }

  lemma SentAll(before: map<Addr, seq<PeerMsg>>, m: PeerMsg, after: map<Addr, seq<PeerMsg>>)
    ensures SentBut(before, m, before.Keys, before)
    ensures SentBut(before, m, {}, after) ==> after == D.SendAll(before, m)
  {
  }

  lemma AskedMore(self: Addr, before: map<Addr, seq<PeerMsg>>, requests: map<Addr, set<Hash>>, todo: set<Addr>, a: Addr,
                  after: map<Addr, seq<PeerMsg>>)
    requires AskedBut(self, before, requests, todo, after) && a in todo && a in requests && a in before
    ensures AskedBut(self, before, requests, todo - {a}, after[a := after[a] + [REQ(self, requests[a])]])
  {
  }

  lemma AskedAll(self: Addr, p: D.P2p, after: map<Addr, seq<PeerMsg>>)
    ensures AskedBut(self, p.peers, p.requests, p.requests.Keys, p.peers)
    ensures p.sendRequests && AskedBut(self, p.peers, p.requests, {}, after) ==> after == D.SendRequests(self, p).peers
  {
  }

  /** Going through a PEER message one address at a time. */
  lemma OneMorePeer(f: Format, self: Addr, p: D.P2p, addrs: set<Addr>, x: Addr, hashes: set<Hash>)
    ensures var q := D.AnswerPeer(f, self, p, PEER(addrs), hashes).0;
            D.AnswerPeer(f, self, p, PEER(addrs + {x}), hashes).0 ==
            if x == self || x in q.peers then q
            else q.(peers := q.peers[x := []], bcastPeers := true, bcastHashes := true)
  {
    var news := D.Fresh(self, p, addrs);
    if x == self || x in p.peers || x in news {
      assert D.Fresh(self, p, addrs + {x}) == news;
    } else {
      assert D.Fresh(self, p, addrs + {x}) == news + {x};
      assert D.Connect(p.peers, news + {x}) == D.Connect(p.peers, news)[x := []];
      assert news == {} ==> D.Connect(p.peers, news) == p.peers;
    }
  }

  /** After a PEER the addresses known are those known before and those named, but the daemon's own; nothing is sent. */
  lemma LearntMeans(f: Format, self: Addr, p: D.P2p, addrs: seq<Addr>, hashes: set<Hash>)
    ensures var q := D.AnswerPeer(f, self, p, PEER(Elements(addrs)), hashes).0;
            && (forall a :: a in q.peers <==> a in p.peers || (a in addrs && a != self))
            && (forall a :: a in q.peers ==> q.peers[a] == if a in p.peers then p.peers[a] else [])
            && (q.bcastPeers <==> p.bcastPeers || q.peers.Keys != p.peers.Keys)
            && (q.bcastHashes <==> p.bcastHashes || q.peers.Keys != p.peers.Keys)
  {
    var news := D.Fresh(self, p, Elements(addrs));
    assert D.Connect(p.peers, news).Keys == p.peers.Keys + news;
  }

  lemma SameKeys(socks: map<Addr, seq<Frames>>)
    requires forall a :: a in socks ==> PeerMsgs(socks[a])
    ensures AllSaid(socks).Keys == socks.Keys
  {
  }

  /** Going through a HASH message one hash at a time. */
  lemma OneMoreHash(f: Format, self: Addr, p: D.P2p, from: Addr, hs: set<Hash>, h: Hash, hashes: set<Hash>)
    ensures var q := D.AnswerPeer(f, self, p, HASH(from, hs), hashes).0;
            D.AnswerPeer(f, self, p, HASH(from, hs + {h}), hashes).0 ==
            if h in hashes then q
            else q.(requests := q.requests[from := D.Requested(q, from) + {h}], sendRequests := true)
  {
    if h in hashes {
      assert hs + {h} - hashes == hs - hashes;
    } else {
      var before := D.Requested(p, from);
      assert hs + {h} - hashes == (hs - hashes) + {h} && h in hs + {h};
      assert before + ((hs - hashes) + {h}) == before + (hs - hashes) + {h};
      if hs <= hashes {
        assert before + (hs - hashes) == before;
      }
    }
  }

  lemma {:induction false} NovelAppend(f: Format, docs: seq<Text>, d: Text, hashes: set<Hash>)
    ensures D.Novel(f.sha, docs + [d], hashes) ==
            D.Novel(f.sha, docs, hashes) + (if f.sha(d) in hashes then [] else [d])
  {
    assert (docs + [d])[..|docs|] == docs;
  }

  // ---------------------------------------------------------------- one list, another word

  lemma IntroductionSays(self: Addr, xs: seq<Addr>, peers: set<Addr>)
    requires Enumerates(xs, peers)
    ensures var msg := ["PEER", Decimal(|peers| + 1), self] + xs;
            IsPeerMsg(msg) && PeerMsgOf(msg) == PEER({self} + peers)
  {
    assert ["PEER", Decimal(|peers| + 1), self] + xs == ListFrames(["PEER"], [self] + xs);
    ListRoundTrip(["PEER"], [self] + xs);
    ElementsAppend([self], xs);
  }

  lemma RequestBecomesLookup(msg: Frames)
    requires IsPeerMsg(msg) && msg[0] == "REQ"
    ensures var req := ["GET"] + msg[1..];
            IsToDb(req) && ToDbOf(req) == GET(PeerMsgOf(msg).from, PeerMsgOf(msg).hashes)
  {
    assert (["GET"] + msg[1..])[3..] == msg[3..];
  }

  lemma DocsBecomeInsert(f: Format, msg: Frames, hashes: set<Hash>)
    requires IsPeerMsg(msg) && msg[0] == "DOC"
    ensures var req := ListFrames(["INS"], D.Novel(f.sha, msg[2..], hashes));
            IsToDb(req) && ToDbOf(req) == INS(D.Unknown(f, PeerMsgOf(msg).docs, hashes))
  {
    DocsAreReceived(D.Novel(f.sha, msg[2..], hashes), "");
    D.NovelElements(f, msg[2..], hashes);
  }

  lemma ResultBecomesDocs(msg: Frames)
    requires IsToP2p(msg) && msg[0] == "PUT"
    ensures var rep := ["DOC"] + msg[2..];
            IsPeerMsg(rep) && PeerMsgOf(rep) == DOC(ToP2pOf(msg).docs)
  {
    assert (["DOC"] + msg[2..])[2..] == msg[3..];
  }

  /** The frames handed to the db thread say what they should. */
  ghost predicate Handed(q: seq<Frames>, said: seq<ToDb>) {
    |q| == |said| && forall i :: 0 <= i < |q| ==> IsToDb(q[i]) && ToDbOf(q[i]) == said[i]
  }

  // ---------------------------------------------------------------- start-up

  function Localhost(port: nat): Addr {
    "localhost:" + Decimal(port)
  }

  lemma LocalhostInjective(p: nat, q: nat)
    requires Localhost(p) == Localhost(q)
    ensures p == q
  {
    assert Decimal(p) == Localhost(p)[10..] && Decimal(q) == Localhost(q)[10..];
    DecimalInjective(p, q);
  }

  /** "localhost:" and the number, without needless zeros. */
  predicate LocalAddress(a: Addr, port: nat) {
    "localhost:" <= a && IsCount(a[10..]) && Stoul(a[10..]) == port && (a[10] == '0' ==> |a| == 11)
  }

  lemma LocalhostIs(a: Addr, port: nat)
    ensures LocalAddress(a, port) <==> a == Localhost(port)
  {
    CountRoundTrip(port);
    assert Localhost(port)[10..] == Decimal(port);
    if LocalAddress(a, port) {
      CountIsDecimal(a[10..]);
      assert a == "localhost:" + a[10..];
    }
  }

  lemma BelowIs(a: Addr, lo: nat, hi: nat)
    ensures a in Below(lo, hi) <==> exists p: nat :: lo <= p < hi && LocalAddress(a, p)
  {
    forall p: nat ensures LocalAddress(a, p) <==> a == Localhost(p) {
      LocalhostIs(a, p);
    }
  }

  /** The daemons that took the ports below this one's. */
  ghost function Below(lo: nat, hi: nat): (r: set<Addr>) {
    set p: nat | lo <= p < hi :: Localhost(p)
  }

  lemma BelowStep(lo: nat, hi: nat)
    ensures lo <= hi ==> Below(lo, hi + 1) == Below(lo, hi) + {Localhost(hi)}
    ensures hi <= lo ==> Below(lo, hi) == {}
    ensures Localhost(hi) !in Below(lo, hi)
  {
    if Localhost(hi) in Below(lo, hi) {
      var p: nat :| lo <= p < hi && Localhost(p) == Localhost(hi);
      LocalhostInjective(p, hi);
    }
  }

  // ---------------------------------------------------------------- the thread

  class P2pThread {
    const f: Format
    const port: nat
    /** A peer's socket, as what was sent on it and not yet received. */
    var myPeers: map<Addr, seq<Frames>>
    var dbRequests: map<Addr, set<Hash>>
    var toBcastPeers: bool
    var toBcastHashes: bool
    var toSendDbRequests: bool
    /** What was sent to the db thread and not yet received. */
    var dbP2p: seq<Frames>

    /** What it calls itself. */
    function Self(): Addr {
      Localhost(port)
    }

    ghost predicate Valid()
      reads this
    {
      forall a :: a in myPeers ==> PeerMsgs(myPeers[a])
    }

    ghost function View(): D.P2p
      requires Valid()
      reads this
    {
      D.P2p(AllSaid(myPeers), dbRequests, toBcastPeers, toBcastHashes, toSendDbRequests)
    }

    /** Start-up: of the configured addresses all but the daemon's own, and the daemons that took the ports below. */
    constructor (f: Format, configured: set<Addr>, defaultPort: nat, port: nat)
      ensures this.f == f && this.port == port && Valid() && dbP2p == []
      ensures View() == D.P2p(map a | a in (configured - {Self()}) + Below(defaultPort, port) :: [],
                              map[], true, true, false)
      ensures Self() !in View().peers
      ensures forall a :: a in myPeers <==>
                || (a in configured && !LocalAddress(a, port))
                || (exists p: nat :: defaultPort <= p < port && LocalAddress(a, p))
    {
      this.f, this.port := f, port;
      dbRequests, dbP2p := map[], [];
      toBcastPeers, toBcastHashes, toSendDbRequests := true, true, false;
      myPeers := map a | a in configured - {Localhost(port)} :: [];
      new;
      AddBelow(defaultPort);
      BelowStep(defaultPort, port);
      assert View().peers == map a | a in (configured - {Self()}) + Below(defaultPort, port) :: [];
      assert myPeers.Keys == (configured - {Self()}) + Below(defaultPort, port);
      forall a
        ensures a in myPeers <==>
          || (a in configured && !LocalAddress(a, port))
          || (exists p: nat :: defaultPort <= p < port && LocalAddress(a, p))
      {
        LocalhostIs(a, port);
        BelowIs(a, defaultPort, port);
      }
    }

    method AddPeer(a: Addr)
      requires forall b :: b in myPeers ==> myPeers[b] == []
      modifies this`myPeers
      ensures myPeers.Keys == old(myPeers.Keys) + {a}
      ensures forall b :: b in myPeers ==> myPeers[b] == []
    {
      if a !in myPeers {
        myPeers := myPeers[a := []];
      }
    }

    method AddBelow(defaultPort: nat)
      requires forall a :: a in myPeers ==> myPeers[a] == []
      modifies this`myPeers
      ensures myPeers.Keys == old(myPeers.Keys) + Below(defaultPort, port)
      ensures forall a :: a in myPeers ==> myPeers[a] == []
    {
      BelowStep(defaultPort, defaultPort);
      BelowStep(defaultPort, port);
      var p := defaultPort;
      while p < port
        invariant defaultPort <= p && (p <= port || p == defaultPort)
        invariant myPeers.Keys == old(myPeers.Keys) + Below(defaultPort, p)
        invariant forall a :: a in myPeers ==> myPeers[a] == []
      {
        BelowStep(defaultPort, p);
        AddPeer(Localhost(p));
        p := p + 1;
      }
      BelowStep(defaultPort, p);
    }

    /** What the sockets say. */
    ghost function Socks(): map<Addr, seq<PeerMsg>>
      requires Valid()
      reads this
    {
      AllSaid(myPeers)
    }

    /** Sending on a peer's socket. */
    method Send(addr: Addr, msg: Frames)
      requires Valid() && addr in myPeers && IsPeerMsg(msg)
      modifies this`myPeers
      ensures Valid() && myPeers.Keys == old(myPeers.Keys)
      ensures Socks() == old(Socks())[addr := old(Socks())[addr] + [PeerMsgOf(msg)]]
    {
      AllSaidUpdate(myPeers, addr, msg);
      myPeers := myPeers[addr := myPeers[addr] + [msg]];
    }

    /** One turn of the loop of p2p_bcast_peers(). */
    method SendPeers(addr: Addr)
      requires Valid() && addr in myPeers
      modifies this`myPeers
      ensures Valid() && myPeers.Keys == old(myPeers.Keys)
      ensures Socks() == old(Socks())[addr := old(Socks())[addr] + [PEER({Self()} + old(myPeers.Keys))]]
    {
      var msg := PeerMessage();
      Send(addr, msg);
    }

    /** p2p_bcast_peers() */
    method BcastPeers()
      requires Valid()
      modifies this`myPeers, this`toBcastPeers
      ensures Valid() && View() == D.BcastPeers(Self(), old(View())) && myPeers.Keys == old(myPeers.Keys)
      ensures !toBcastPeers && (!old(toBcastPeers) ==> myPeers == old(myPeers))
      ensures old(toBcastPeers) ==> forall a :: a in myPeers ==>
                Said(myPeers[a]) == Said(old(myPeers)[a]) + [PEER({Self()} + myPeers.Keys)]
    {
      if !toBcastPeers { return; }
      var todo := myPeers.Keys;
      ghost var before, m := Socks(), PEER({Self()} + myPeers.Keys);
      SentAll(before, m, before);
      while todo != {}
        modifies this`myPeers
        invariant todo <= myPeers.Keys == before.Keys && Valid()
        invariant SentBut(before, m, todo, Socks())
        decreases todo
      {
        var addr :| addr in todo;
        SentMore(before, m, todo, addr, Socks());
        todo := todo - {addr};
        SendPeers(addr);
      }
      SentAll(before, m, Socks());
      toBcastPeers := false;
    }

    /** The message p2p_bcast_peers() makes: its own address, then those of the peers. */
    method PeerMessage() returns (msg: Frames)
      ensures IsPeerMsg(msg) && PeerMsgOf(msg) == PEER({Self()} + myPeers.Keys)
      ensures |msg| > 2 && msg[0] == "PEER" && LocalAddress(msg[2], port)
    {
      LocalhostIs(Self(), port);
      msg := ["PEER"];
      msg := msg + [Decimal(|myPeers| + 1)];
      msg := msg + [Self()];
      msg := PushAll(msg, myPeers.Keys);
      assert msg[..3] == ["PEER", Decimal(|myPeers| + 1), Self()];
      IntroductionSays(Self(), msg[3..], myPeers.Keys);
      assert msg == ["PEER", Decimal(|myPeers| + 1), Self()] + msg[3..];
    }

    /** The message p2p_bcast_hashes() makes. */
    method HashMessage(myHashes: set<Hash>) returns (msg: Frames)
      ensures IsPeerMsg(msg) && PeerMsgOf(msg) == HASH(Self(), myHashes)
      ensures msg[0] == "HASH" && LocalAddress(msg[1], port)
    {
      LocalhostIs(Self(), port);
      msg := ["HASH"];
      msg := msg + [Self()];
      msg := msg + [Decimal(|myHashes|)];
      msg := PushAll(msg, myHashes);
      ghost var xs := msg[3..];
      assert msg == ListFrames(["HASH", Self()], xs);
      SentIsReceived(xs, myHashes, Self());
    }

    /** One turn of the loop of p2p_bcast_hashes(). */
    method SendHashes(addr: Addr, myHashes: set<Hash>)
      requires Valid() && addr in myPeers
      modifies this`myPeers
      ensures Valid() && myPeers.Keys == old(myPeers.Keys)
      ensures Socks() == old(Socks())[addr := old(Socks())[addr] + [HASH(Self(), myHashes)]]
    {
      var msg := HashMessage(myHashes);
      Send(addr, msg);
    }

    /** p2p_bcast_hashes(), with what it sees of the hash set. */
    method BcastHashes(myHashes: set<Hash>)
      requires Valid()
      modifies this`myPeers, this`toBcastHashes
      ensures Valid() && View() == D.BcastHashes(Self(), old(View()), myHashes) && myPeers.Keys == old(myPeers.Keys)
      ensures !toBcastHashes && (!old(toBcastHashes) ==> myPeers == old(myPeers))
      ensures old(toBcastHashes) ==> forall a :: a in myPeers ==>
                Said(myPeers[a]) == Said(old(myPeers)[a]) + [HASH(Self(), myHashes)]
    {
      if !toBcastHashes { return; }
      var todo := myPeers.Keys;
      ghost var before, m := Socks(), HASH(Self(), myHashes);
      SentAll(before, m, before);
      while todo != {}
        modifies this`myPeers
        invariant todo <= myPeers.Keys == before.Keys && Valid()
        invariant SentBut(before, m, todo, Socks())
        decreases todo
      {
        var addr :| addr in todo;
        SentMore(before, m, todo, addr, Socks());
        todo := todo - {addr};
        SendHashes(addr, myHashes);
      }
      SentAll(before, m, Socks());
      toBcastHashes := false;
    }

    /** The message p2p_send_db_requests() makes. */
    method ReqMessage(hashes: set<Hash>) returns (msg: Frames)
      ensures IsPeerMsg(msg) && PeerMsgOf(msg) == REQ(Self(), hashes)
      ensures msg[0] == "REQ" && LocalAddress(msg[1], port)
    {
      LocalhostIs(Self(), port);
      msg := ["REQ"];
      msg := msg + [Self()];
      msg := msg + [Decimal(|hashes|)];
      msg := PushAll(msg, hashes);
      ghost var xs := msg[3..];
      assert msg == ListFrames(["REQ", Self()], xs);
      SentIsReceived(xs, hashes, Self());
    }

    /** One turn of the loop of p2p_send_db_requests(). */
    method SendRequest(addr: Addr)
      requires Valid() && addr in dbRequests && addr in myPeers
      modifies this`myPeers, this`dbRequests
      ensures Valid() && myPeers.Keys == old(myPeers.Keys) && dbRequests == old(dbRequests)[addr := {}]
      ensures Socks() == old(Socks())[addr := old(Socks())[addr] + [REQ(Self(), old(dbRequests)[addr])]]
    {
      var msg := ReqMessage(dbRequests[addr]);
      dbRequests := dbRequests[addr := {}];
      Send(addr, msg);
    }

    /** The loop of p2p_send_db_requests(). */
    method SendRequests()
      requires Valid() && dbRequests.Keys <= myPeers.Keys
      modifies this`myPeers, this`dbRequests
      ensures Valid() && AskedBut(Self(), old(Socks()), old(dbRequests), {}, Socks())
      ensures myPeers.Keys == old(myPeers.Keys)
    {
      var todo := dbRequests.Keys;
      ghost var before, requests := Socks(), dbRequests;
      while todo != {}
        invariant todo <= requests.Keys == dbRequests.Keys && requests.Keys <= before.Keys == myPeers.Keys && Valid()
        invariant AskedBut(Self(), before, requests, todo, Socks())
        invariant forall a :: a in todo ==> dbRequests[a] == requests[a]
        decreases todo
      {
        var addr :| addr in todo;
        AskedMore(Self(), before, requests, todo, addr, Socks());
        todo := todo - {addr};
        SendRequest(addr);
      }
    }

    /** p2p_send_db_requests(): every address that requests go to must be a peer. */
    method SendDbRequests()
      requires Valid() && (toSendDbRequests ==> dbRequests.Keys <= myPeers.Keys)
      modifies this`myPeers, this`dbRequests, this`toSendDbRequests
      ensures Valid() && View() == D.SendRequests(Self(), old(View())) && myPeers.Keys == old(myPeers.Keys)
      ensures !toSendDbRequests
      ensures !old(toSendDbRequests) ==> myPeers == old(myPeers) && dbRequests == old(dbRequests)
      ensures old(toSendDbRequests) ==> dbRequests == map[] && forall a :: a in myPeers ==>
                Said(myPeers[a]) == Said(old(myPeers)[a]) +
                                    (if a in old(dbRequests) then [REQ(Self(), old(dbRequests)[a])] else [])
    {
      if !toSendDbRequests { return; }
      SendRequests();
      AskedAll(Self(), old(View()), Socks());
      dbRequests := map[];
      toSendDbRequests := false;
    }

    /** The head of the loop of p2p_thread(): peers before hashes before requests. */
    method Head(myHashes: set<Hash>)
      requires Valid() && (toSendDbRequests ==> dbRequests.Keys <= myPeers.Keys)
      modifies this`myPeers, this`dbRequests, this`toBcastPeers, this`toBcastHashes, this`toSendDbRequests
      ensures Valid()
      ensures View() == D.SendRequests(Self(), D.BcastHashes(Self(), D.BcastPeers(Self(), old(View())), myHashes))
      ensures !toBcastPeers && !toBcastHashes && !toSendDbRequests
    {
      BcastPeers();
      BcastHashes(myHashes);
      SendDbRequests();
    }

    // -------------------------------------------------------------- answering peers

    /** One address of a PEER message. */
    method Learn(addr: Addr)
      requires Valid()
      modifies this`myPeers, this`toBcastPeers, this`toBcastHashes
      ensures Valid()
      ensures View() ==
              if addr == Self() || addr in old(View()).peers then old(View())
              else old(View()).(peers := old(View()).peers[addr := []], bcastPeers := true, bcastHashes := true)
    {
      if addr != Self() && addr !in myPeers {
        AllSaidNew(myPeers, addr);
        myPeers := myPeers[addr := []];
        toBcastPeers := true;
        toBcastHashes := true;
      }
    }

    ghost function Learnt(p: D.P2p, addrs: set<Addr>, myHashes: set<Hash>): D.P2p {
      D.AnswerPeer(f, Self(), p, PEER(addrs), myHashes).0
    }

    method AnswerPEER(msg: Frames, myHashes: set<Hash>)
      requires Valid() && IsPeerMsg(msg) && msg[0] == "PEER"
      modifies this`myPeers, this`toBcastPeers, this`toBcastHashes
      ensures Valid() && View() == D.AnswerPeer(f, Self(), old(View()), PeerMsgOf(msg), myHashes).0
      ensures forall a :: a in myPeers <==> a in old(myPeers) || (a in msg[2..] && a != Self())
      ensures forall a :: a in myPeers ==>
                Said(myPeers[a]) == if a in old(myPeers) then Said(old(myPeers)[a]) else []
      ensures toBcastPeers <==> old(toBcastPeers) || myPeers.Keys != old(myPeers.Keys)
      ensures toBcastHashes <==> old(toBcastHashes) || myPeers.Keys != old(myPeers.Keys)
    {
      var num, rest := Stoul(msg[1]), msg[2..];
      ghost var p, xs: seq<Addr> := View(), [];
      while num != 0
        invariant num == |rest| && msg[2..] == xs + rest && Valid()
        invariant View() == Learnt(p, Elements(xs), myHashes)
      {
        num := num - 1;
        var addr := rest[0];
        rest := rest[1..];
        ElementsAppend(xs, [addr]);
        assert Elements(xs + [addr]) == Elements(xs) + {addr};
        OneMorePeer(f, Self(), p, Elements(xs), addr, myHashes);
        xs := xs + [addr];
        Learn(addr);
      }
      assert msg[2..] == xs;
      LearntMeans(f, Self(), p, xs, myHashes);
      SameKeys(old(myPeers));
      SameKeys(myPeers);
    }

    /** One hash of a HASH message. */
    method Want(from: Addr, hash: Hash, myHashes: set<Hash>)
      requires Valid()
      modifies this`dbRequests, this`toSendDbRequests
      ensures Valid()
      ensures View() ==
              if hash in myHashes then old(View())
              else old(View()).(requests := old(View()).requests[from := D.Requested(old(View()), from) + {hash}],
                                sendRequests := true)
    {
      if hash !in myHashes {
        dbRequests := dbRequests[from := (if from in dbRequests then dbRequests[from] else {}) + {hash}];
        toSendDbRequests := true;
      }
    }

    method AnswerHASH(msg: Frames, myHashes: set<Hash>)
      requires Valid() && IsPeerMsg(msg) && msg[0] == "HASH"
      modifies this`dbRequests, this`toSendDbRequests
      ensures Valid() && View() == D.AnswerPeer(f, Self(), old(View()), PeerMsgOf(msg), myHashes).0
      ensures forall a, h :: a in dbRequests && h in dbRequests[a] <==>
                (a in old(dbRequests) && h in old(dbRequests)[a]) ||
                (a == msg[1] && h in msg[3..] && h !in myHashes)
      ensures toSendDbRequests <==> old(toSendDbRequests) || exists h :: h in msg[3..] && h !in myHashes
    {
      var from, num, rest := msg[1], Stoul(msg[2]), msg[3..];
      ghost var p, xs: seq<Hash> := View(), [];
      while num != 0
        invariant num == |rest| && msg[3..] == xs + rest && Valid()
        invariant View() == D.AnswerPeer(f, Self(), p, HASH(from, Elements(xs)), myHashes).0
      {
        num := num - 1;
        var hash := rest[0];
        rest := rest[1..];
        ElementsAppend(xs, [hash]);
        OneMoreHash(f, Self(), p, from, Elements(xs), hash, myHashes);
        assert Elements(xs + [hash]) == Elements(xs) + {hash};
        xs := xs + [hash];
        Want(from, hash, myHashes);
      }
      assert msg[3..] == xs;
    }

    /** A request becomes a look-up: the same frames behind another word. */
    method AnswerREQ(msg: Frames) returns (req: Frames)
      requires IsPeerMsg(msg) && msg[0] == "REQ"
      ensures req == ["GET"] + msg[1..]
    {
      var addr, size, rest := msg[1], msg[2], msg[3..];
      var num := Stoul(size);
      req := ["GET", addr, size];
      ghost var xs: seq<Hash> := [];
      while num != 0
        invariant num == |rest| && msg[3..] == xs + rest && req == ["GET", addr, size] + xs
      {
        num := num - 1;
        req := req + [rest[0]];
        xs := xs + [rest[0]];
        rest := rest[1..];
      }
      assert msg[1..] == [addr, size] + xs;
    }

    /** What a peer sent, less what is known: the frames of an INS, in the order of the documents. */
    method AnswerDOC(msg: Frames, myHashes: set<Hash>) returns (req: Frames)
      requires IsPeerMsg(msg) && msg[0] == "DOC"
      ensures req == ListFrames(["INS"], D.Novel(f.sha, msg[2..], myHashes))
    {
      var num, rest := Stoul(msg[1]), msg[2..];
      var docsToInsert: seq<Text> := [];
      ghost var xs: seq<Text> := [];
      while num != 0
        invariant num == |rest| && msg[2..] == xs + rest && docsToInsert == D.Novel(f.sha, xs, myHashes)
      {
        num := num - 1;
        var doc := rest[0];
        rest := rest[1..];
        NovelAppend(f, xs, doc, myHashes);
        xs := xs + [doc];
        if f.sha(doc) !in myHashes {
          docsToInsert := docsToInsert + [doc];
        }
      }
      assert msg[2..] == xs;
      req := PushList(["INS", Decimal(|docsToInsert|)], docsToInsert);
    }

    /** p2p_answer_p2p(), with what it sees of the hash set; the first frame says which socket the message came in
        on.  A message that begins with none of the four words changes nothing. */
    method AnswerP2p(msg: Frames, myHashes: set<Hash>)
      requires Valid() && |msg| >= 2
      requires msg[1] in {"PEER", "HASH", "REQ", "DOC"} ==> IsPeerMsg(msg[1..])
      modifies this
      ensures Valid()
      ensures msg[1] !in {"PEER", "HASH", "REQ", "DOC"} ==> View() == old(View()) && dbP2p == old(dbP2p)
      ensures msg[1] in {"PEER", "HASH", "REQ", "DOC"} ==>
                var (p, out) := D.AnswerPeer(f, Self(), old(View()), PeerMsgOf(msg[1..]), myHashes);
                View() == p && old(dbP2p) <= dbP2p && Handed(dbP2p[|old(dbP2p)|..], out)
      // a list is passed on with its count and in its order
      ensures msg[1] == "REQ" ==> dbP2p == old(dbP2p) + [["GET"] + msg[2..]]
      ensures msg[1] == "DOC" ==> dbP2p == old(dbP2p) + [ListFrames(["INS"], D.Novel(f.sha, msg[3..], myHashes))]
    {
      var cmd, m := msg[1], msg[1..];
      if cmd == "PEER" {
        AnswerPEER(m, myHashes);
      } else if cmd == "HASH" {
        AnswerHASH(m, myHashes);
      } else if cmd == "REQ" {
        var req := AnswerREQ(m);
        RequestBecomesLookup(m);
        dbP2p := dbP2p + [req];
      } else if cmd == "DOC" {
        var req := AnswerDOC(m, myHashes);
        DocsBecomeInsert(f, m, myHashes);
        dbP2p := dbP2p + [req];
      }
    }

    // -------------------------------------------------------------- answering the db thread

    /** p2p_answer_db(): the documents looked up go to the peer that asked, who must be known, as the same frames
        behind another word. */
    method AnswerDb(msg: Frames)
      requires Valid() && msg != [] && (msg[0] == "PUT" ==> IsToP2p(msg) && msg[1] in myPeers)
      modifies this`myPeers, this`toBcastHashes
      ensures Valid()
      ensures msg[0] in {"PUT", "NEW"} ==> View() == D.AnswerDb(old(View()), ToP2pOf(msg))
      ensures msg[0] !in {"PUT", "NEW"} ==> View() == old(View())
      ensures msg[0] == "PUT" ==> myPeers == old(myPeers)[msg[1] := old(myPeers)[msg[1]] + [["DOC"] + msg[2..]]]
      ensures msg[0] == "NEW" ==> toBcastHashes && myPeers == old(myPeers)
    {
      if msg[0] == "PUT" {
        var addr, size, rest := msg[1], msg[2], msg[3..];
        var num := Stoul(size);
        var rep := ["DOC", size];
        ghost var xs: seq<Text> := [];
        while num != 0
          invariant num == |rest| && msg[3..] == xs + rest && rep == ["DOC", size] + xs
        {
          num := num - 1;
          rep := rep + [rest[0]];
          xs := xs + [rest[0]];
          rest := rest[1..];
        }
        assert rep == ["DOC"] + msg[2..];
        ResultBecomesDocs(msg);
        AllSaidUpdate(myPeers, addr, rep);
        myPeers := myPeers[addr := myPeers[addr] + [rep]];
      } else if msg[0] == "NEW" {
        toBcastHashes := true;
      }
    }
  }
}
