/** Networks of two daemons that know each other. */
module TwoDaemons {
  import opened Messages
  import opened Daemon
  import opened Gossip
  import opened Convergence

  function Two(inj: map<Addr, set<Text>>, x: Addr, nx: Node, y: Addr, ny: Node): System {
    System(map[x := nx, y := ny], inj)
  }

  /** A daemon with one peer, a database, nothing to do, and `q` on its way to the peer. */
  function At(peer: Addr, store: map<Hash, Text>, q: seq<PeerMsg>): Node {
    Node(P2p(map[peer := q], map[], false, false, false), AtPoll, store, store.Keys, DbIdle, [], [])
  }

  function Started(peer: Addr, store: map<Hash, Text>): Node {
    At(peer, store, []).(p2p := P2p(map[peer := []], map[], true, true, false), pc := AtPeers)
  }

  /** Both are started, with these databases. */
  function Starting(x: Addr, mx: map<Hash, Text>, y: Addr, my: map<Hash, Text>): System {
    Two(map[x := mx.Values, y := my.Values], x, Started(y, mx), y, Started(x, my))
  }

  /** A database can be started with. */
  ghost predicate Proper(f: Format, store: map<Hash, Text>) {
    forall h :: h in store ==> f.sha(store[h]) == h && f.Settled(store[h])
  }

  lemma StartedIsInitial(f: Format, x: Addr, y: Addr, store: map<Hash, Text>)
    requires x != y && Proper(f, store)
    ensures InitialNode(f, x, Started(y, store))
  {
  }

  lemma StartingIsInit(f: Format, x: Addr, mx: map<Hash, Text>, y: Addr, my: map<Hash, Text>)
    requires x != y && Proper(f, mx) && Proper(f, my)
    ensures Init(f, Starting(x, mx, y, my))
  {
    var s := Starting(x, mx, y, my);
    StartedIsInitial(f, x, y, mx);
    StartedIsInitial(f, y, x, my);
    assert s.nodes[x] == Started(y, mx) && s.nodes[y] == Started(x, my) && s.nodes.Keys == {x, y};
  }

  lemma StartingInjected(x: Addr, mx: map<Hash, Text>, y: Addr, my: map<Hash, Text>)
    requires x != y
    ensures var s := Starting(x, mx, y, my); Injected(s, s.nodes.Keys) == mx.Values + my.Values
  {
    var s := Starting(x, mx, y, my);
    assert s.nodes.Keys == {x, y};
    forall t ensures t in Injected(s, s.nodes.Keys) <==> t in mx.Values + my.Values {
      assert s.injected[x] == mx.Values && s.injected[y] == my.Values;
    }
  }

  lemma Neighbours(x: Addr, mx: map<Hash, Text>, y: Addr, my: map<Hash, Text>)
    requires x != y
    ensures var s := Starting(x, mx, y, my); y in Component(s, x) && x in Component(s, y)
  {
    var s := Starting(x, mx, y, my);
    assert Path(s, [x, y]) && Path(s, [y, x]);
    assert [x, y][1] == y && [y, x][1] == x;
  }
}
