/** Many daemons exchanging messages: the states, the steps and the runs of the whole network. */
module Gossip {
  import opened Messages
  import opened Daemon

  /** `injected` is history: for each daemon, the documents its database started with and those its clients
      added. */
  datatype System = System(nodes: map<Addr, Node>, injected: map<Addr, set<Text>>)

  /** The documents that came in at the daemons in `S`. */
  ghost function Injected(s: System, S: set<Addr>): set<Text> {
    set a, t | a in S && a in s.injected && t in s.injected[a] :: t
  }

  ghost predicate InitialNode(f: Format, self: Addr, n: Node) {
    && self !in n.p2p.peers
    && (forall a :: a in n.p2p.peers ==> n.p2p.peers[a] == [])
    && n.p2p.requests == map[]
    && n.p2p.bcastPeers && n.p2p.bcastHashes && !n.p2p.sendRequests
    && n.pc == AtPeers && n.dbPc == DbIdle && n.toDb == [] && n.toP2p == []
    && n.hashes == n.store.Keys
    && (forall h :: h in n.store ==> f.sha(n.store[h]) == h && f.Settled(n.store[h]))
  }

  /** Start-up: every address named belongs to a daemon that runs. */
  ghost predicate Init(f: Format, s: System) {
    && s.injected.Keys == s.nodes.Keys
    && (forall a :: a in s.nodes ==> InitialNode(f, a, s.nodes[a]))
    && (forall a :: a in s.nodes ==> s.nodes[a].p2p.peers.Keys <= s.nodes.Keys)
    && (forall a :: a in s.nodes ==> s.injected[a] == s.nodes[a].store.Values)
  }

  ghost predicate Local(f: Format, s: System, a: Addr, s': System) {
    && a in s.nodes && a in s'.nodes
    && LocalStep(f, a, s.nodes[a], s'.nodes[a])
    && s' == s.(nodes := s.nodes[a := s'.nodes[a]])
  }

  /** The node with the oldest message for `dst` taken off the socket. */
  function Taken(n: Node, dst: Addr): Node
    requires dst in n.p2p.peers && n.p2p.peers[dst] != []
  {
    n.(p2p := n.p2p.(peers := n.p2p.peers[dst := n.p2p.peers[dst][1..]]))
  }

  ghost predicate Deliver(f: Format, s: System, src: Addr, dst: Addr, s': System) {
    && src in s.nodes && dst in s.nodes && dst in s'.nodes
    && dst in s.nodes[src].p2p.peers && s.nodes[src].p2p.peers[dst] != []
    && var nodes := s.nodes[src := Taken(s.nodes[src], dst)];
       ReceiveStep(f, dst, nodes[dst], s.nodes[src].p2p.peers[dst][0], s'.nodes[dst]) &&
       s' == s.(nodes := nodes[dst := s'.nodes[dst]])
  }

  /** What the daemons do among themselves. */
  ghost predicate ProtocolStep(f: Format, s: System, s': System) {
    || (exists a :: Local(f, s, a, s'))
    || (exists src, dst :: Deliver(f, s, src, dst, s'))
  }

  ghost predicate ClientAdd(f: Format, s: System, a: Addr, docs: set<Text>, s': System) {
    && a in s.nodes && a in s.injected && a in s'.nodes
    && (forall d :: d in docs ==> f.Settled(d))
    && AddStep(f, s.nodes[a], docs, s'.nodes[a])
    && s' == System(s.nodes[a := s'.nodes[a]], s.injected[a := s.injected[a] + docs])
  }

  ghost predicate ClientRm(s: System, a: Addr, s': System) {
    && a in s.nodes && a in s'.nodes
    && RmStep(s.nodes[a], s'.nodes[a])
    && s' == s.(nodes := s.nodes[a := s'.nodes[a]])
  }

  /** A step of a run in which clients only add. */
  ghost predicate AddOnlyStep(f: Format, s: System, s': System) {
    || ProtocolStep(f, s, s')
    || (exists a, docs :: ClientAdd(f, s, a, docs, s'))
  }

  ghost predicate Step(f: Format, s: System, s': System) {
    || AddOnlyStep(f, s, s')
    || (exists a :: ClientRm(s, a, s'))
  }

  ghost predicate Run(f: Format, run: seq<System>) {
    && run != [] && Init(f, run[0])
    && forall i :: 0 <= i < |run| - 1 ==> Step(f, run[i], run[i+1])
  }

  ghost predicate AddOnlyRun(f: Format, run: seq<System>) {
    && run != [] && Init(f, run[0])
    && forall i :: 0 <= i < |run| - 1 ==> AddOnlyStep(f, run[i], run[i+1])
  }

  function Last(run: seq<System>): System
    requires run != []
  {
    run[|run| - 1]
  }

  /** Nothing is in flight and no daemon has anything left to do. */
  ghost predicate Quiet(n: Node) {
    && n.pc == AtPoll && n.dbPc == DbIdle && n.toDb == [] && n.toP2p == []
    && forall c :: c in n.p2p.peers ==> n.p2p.peers[c] == []
  }

  ghost predicate Quiescent(s: System) {
    forall a :: a in s.nodes ==> Quiet(s.nodes[a])
  }
}
