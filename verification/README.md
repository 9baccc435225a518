# A verified model of the piac daemon

piac keeps advertisements in a database that every daemon of a peer-to-peer network holds in full. This project models that daemon in
Dafny, from the frames on its sockets up to the behaviour of the whole network, and proves what the design promises of it: all daemons
that are connected find each other, and all their databases become the union of all advertisements.

`dafny verify dfyconfig.toml` checks everything.

## What is modelled

**The network.** `messages.dfy`, `daemon.dfy` and `gossip.dfy` describe any finite number of daemons, each with its two threads, as a
transition system. A daemon's state is its peers with their sockets (queues of messages sent and not yet received), its waiting requests, its three
flags, the place its p2p thread is at in the loop, its database, its hash set, and the two pipes between its threads. Every
handler is a step; the three parts of the loop head are separate steps, and so are storing, emptying the hash set, putting back each single
hash, and telling the p2p thread, so that the p2p thread may look at a half-filled hash set. Steps of all daemons interleave in any order.
Clients add and remove at any time.

- `node_invariant.dfy`, `peer_discovery.dfy`, `safety.dfy`: what holds in every run, removals included.
- `confinement.dfy`: nothing is made up, and nothing crosses between unconnected parts.
- `origins.dfy`: a document without author is only ever where it came in.
- `updates.dfy`, `no_lost_update.dfy`: no document with an author is lost while clients only add.
- `convergence.dfy`, `chains.dfy`: what the network has come to when it is at rest.
- `sums.dfy`, `work.dfy`, `termination.dfy`, `progress.dfy`: a measure that falls, no deadlock, and no look-up of an address fails.
- `rest.dfy`: exactly when the network comes to rest, and eventual consistency of unending histories.
- `leading_nul.dfy`: the users whose documents can keep it from coming to rest.
- `two_daemons.dfy`, `occurrences.dfy`: networks of two daemons in which what is promised fails.
- `theorems.dfy`: the invariants spelled out for every run.
- `circles.dfy`, `removal.dfy`: exactly when a removal lasts, and what undoes it.
- `db_steps.dfy`, `empty_counts.dfy`: the refresh as a run of steps, and runs in which a count is 0.

**The threads.** `p2p_thread.dfy` and `db_thread.dfy` are classes with the source's fields and loops, on frames of text. Their methods are
proved to compute the functions of `daemon.dfy`; `framing.dfy` connects frames with what they say. `store.dfy` is the database with the loops of
`db.cpp`.

**Documents.** `json.dfy` is printer and parser; `json_tokens.dfy`, `json_grammar.dfy` and `json_printing.dfy` say which texts the parser takes,
after RFC 8259, and which of them the printer chooses. `documents.dfy` and `document_objects.dfy` say what an advertisement is read as, and
establish that its text is a fixed point of reading and printing, on which content addressing rests.

**The rest.** `lazy_pirate.dfy` (the client's retries), `auth.dfy` (the user travelling with a command), `string_util.dfy`, `numerals.dfy`.

## Assumptions

- Sockets deliver reliably and in order, every address mentioned belongs to a daemon that runs, and a daemon has one address.
- The digest is a parameter. It is assumed to have 32 bytes where lengths are stated (`Format.Valid`) and to tell the documents of a run apart where
  texts, not digests, are compared (`Format.Injective`); everything else holds for any function.
- The price is the text a number is printed as; reading and printing a number settles it (`PricesSettle`).
- Each handler sees one state of the hash set (an atomic snapshot).
- Documents brought in, at start-up or by clients, are settled: they are advertisements, and reading and printing leaves their text alone.
  `DbThreads.AddedEnters` shows that clients cannot bring in others.
- Nothing is assumed about who has an author. Daemons refuse documents without one from each other, so the results say what becomes of both kinds.
  `DbThreads.AcceptedIff` says which a user's documents are: they have an author if and only if the user's digest is not empty and does not begin
  with NUL. One digest in 256 does.
- Where a run has documents of both kinds and the two must not be mixed up, no text of one kind may have the digest of a text of the other
  (`Format.Discerning`, which follows from `Format.Injective` and holds if all documents have an author).

## Where the code and its documentation part

- `doc/communication.md:47-51` promises the union of all advertisements everywhere. That holds of those with an author (`Convergence.SharedAtRest`). A
  document without author stays where it came in, so two databases become equal if and only if the same ones came in at both
  (`Convergence.EqualAtRestIff`).
- Gossip need not end. A daemon that refuses a document advertises its hashes all the same, is asked for what it has, and so on. The network comes to
  rest if and only if, within each connected part, of any two daemons one stores all documents without author that the other stores
  (`Rest.RestIff`); while clients only add this is a condition on what came in (`Rest.EventuallyConsistent`). Two daemons each with a document
  without author that the other lacks never come to rest (`Rest.NeverAtRest`, `Occurrences.GossipUnending`, `LeadingNul.LeadingNulHappens`);
  if only one of them has such documents, they do, with different databases (`Occurrences.DatabasesDiffer`).
- `doc/communication.md:58-62` says changes are synced. Additions are; removals are not. What a daemon removed from rest comes back to it, with no
  client doing anything, if and only if it has an author and is at a daemon of the part that lacked something the other kept, because the
  two then have something to tell each other (`Removal.RemovalComesBackIff`). Otherwise it is gone there and nowhere else, until, if it
  has an author, the next addition at a daemon that has it brings it back (`Removal.RemovalUndone`). Both happen (`Occurrences.RemovedIsBack`,
  `Occurrences.RemovedIsNotSynced`). That no update is lost and convergence are therefore stated for runs in which clients only add.
- Of the assertions that a count is positive, those on PUT (`src/daemon_p2p_thread.cpp:273`) and DOC (`src/daemon_p2p_thread.cpp:229`) hold while clients
  only add (`Theorems.AnswersNotEmpty`) and fail in some run with a removal (`EmptyCounts.EmptyPut`, `EmptyCounts.EmptyDoc`); the one on INS
  (`src/daemon_db_thread.cpp:186`) fails in some run without (`EmptyCounts.EmptyIns`). `EmptyCounts.EmptyPutIff`, `EmptyCounts.EmptyDocIff` and
  `EmptyCounts.EmptyInsIff` say in which steps. The methods here take a count of 0 as the release build does. `Theorems.RequestsWellFormed`
  gives the assertions on requests, which hold in every run.
- The author is stored as a C string. A user whose digest contains NUL cannot remove what he added (`Documents.OwnIffNulFree`); one whose digest begins
  with NUL adds what every other daemon refuses.
- A user is recovered from a command unless the mark occurs in the wallet's digest (`Auth.StripInvertsAppend`, `Auth.DispatchedHasUser`).
- A command in which the mark `AUTH:` stands at the very beginning and nowhere else raises an exception in the daemon
  (`src/daemon_db_thread.cpp:64`); `ClientOp` returns nothing then. `Auth.SentThrowsIff` says which commands of a client do this.

## Model

| member | source | states |
|---|---|---|
| Convergence.PeersAtRest | doc/communication.md:42-45 | Peer discovery: in every run, removals included, once the network is at rest a daemon's peers are exactly the other daemons of its connected part of the start-up graph |
| Convergence.StoresAtRest | doc/communication.md:47-51 | Convergence: in every run in which clients only add, at rest a daemon stores exactly the digests of the documents that came in at it and of those with an author that came in anywhere in its connected part, whether with a database at start-up or through a client; provided no document with an author has the digest of one without |
| Convergence.SharedAtRest | doc/communication.md:47-51 | In such runs, with no proviso, a document with an author that one daemon stores at rest all of its connected part store |
| Convergence.StoreIsDue | src/db.cpp:254-256 | In every run, removals included and at every moment, a daemon stores nothing else than documents that came in at it and documents with an author that came in somewhere in its connected part |
| Origins.RunOrigin | src/db.cpp:254-256 | In every run a document without author is only ever in the database of a daemon where it came in |
| Convergence.UnionAtRest | doc/communication.md:49-51 | If the digest tells the documents of the run apart, the database holds at rest those documents themselves: what came in at it, and the union of what came in anywhere in the part with an author |
| Convergence.EqualAtRestIff | doc/communication.md:50-51 | Under the same condition two databases of one connected part are equal, key by key, if and only if the same documents without author came in at both; so they are equal if none such came in |
| Rest.EventuallyConsistent | doc/communication.md:42-51 | Every unending history in which clients only add, and at some moment fall silent, comes to rest if and only if, within each connected part, of any two daemons all documents without author that came in at one came in at the other too, with the same proviso; and whenever it is at rest, every peer list is complete and every database is what StoresAtRest and UnionAtRest say, in whatever order steps happened |
| Rest.RestIff | src/daemon_p2p_thread.cpp:354-374 | Exactly when gossip terminates, removals included: once clients are silent a history comes to rest if and only if, within each connected part, of any two daemons one stores all documents without author that the other stores; provided as in StoresAtRest |
| Chains.RunEngaged | src/daemon_db_thread.cpp:180-206 | After every run, removals and documents without author included, of two daemons that know each other, and of any two digests, one stored at each, at least one is held by the other or underway to it |
| Chains.ChainAtRest | src/daemon_db_thread.cpp:180-206 | So at rest, in every run, of any two databases in one connected part one contains the other, by digest |
| Rest.NeverAtRest | src/db.cpp:254-256 | Two daemons of one connected part, each with a document without author that the other lacks, never come to rest in any history with silent clients, with the same proviso |
| Rest.EveryStartGoesOn | src/daemon_p2p_thread.cpp:354-374 | Whatever the daemons start with, there is an unending history without any client, so what is said of histories is said of something |
| LeadingNul.LeadingNulNeverAtRest | src/db.cpp:80-90 | So two daemons never come to rest if each has a document, whatever is in it, of a user whose digest begins with NUL, which the other lacks |
| LeadingNul.LeadingNulHappens | src/db.cpp:80-90 | It happens: for any two addresses and any two such documents with different digests, a start and a history from it, without any client, that is never at rest |
| LeadingNul.LeadingNulDiffers | src/db.cpp:254-256 | For any two addresses and any such document, a start and a history from it in which the two daemons come to rest with different databases |
| Rest.RestReached | src/daemon_p2p_thread.cpp:354-374 | After every run that leaves the documents without author comparable, the daemons can go on among themselves to rest |
| Occurrences.RemovedIsBack | doc/communication.md:60-62 | For any two addresses, a document with an author and one without: a network at rest, a removal, and steps of the daemons alone after which the document removed is back |
| Occurrences.RemovedIsNotSynced | doc/communication.md:60-62 | For any two addresses and any document with an author: a network at rest, a removal, and rest again, the document gone at one daemon and still at the other |
| Termination.ProtocolDecreases | src/daemon_p2p_thread.cpp:354-374 | While of any daemon and its peer one has all documents without author that the other has, with the same proviso, every step the daemons take among themselves lessens, lexicographically, what is missing (peers and documents) and then the weighted work in flight, where what a daemon would refuse weighs as much as advertising again |
| Termination.ComesToRest | src/daemon_p2p_thread.cpp:354-374 | The half of this that needs a measure: under that condition every history with silent clients comes to rest |
| Progress.StuckIffQuiescent | src/daemon_p2p_thread.cpp:354-374 | The network can take a step by itself exactly when it is not at rest: no deadlock, and rest is final until a client acts |
| Progress.NoCrash | src/daemon_p2p_thread.cpp:126-126 | Known addresses: in every run, removals included, neither look-up of an address among the peers can fail |
| Theorems.NoUpdateLost | src/daemon_p2p_thread.cpp:82-286 | No lost update: in every reachable state of an add-only run a document with an author that a daemon stores, whatever else came in, is held by its peer, or one of the ten stages that bring it there is pending |
| NoLostUpdate.StepAdd | src/daemon_db_thread.cpp:86-206 | Every add-only step keeps the add-only invariant: hashes advertised and requested are of stored documents, no answer is empty, and no document with an author is lost between a daemon and a peer; documents without author may be anywhere |
| NoLostUpdate.RunAdd | src/daemon_db_thread.cpp:86-206 | The add-only invariant holds after every add-only run |
| NoLostUpdate.RunKept | src/daemon_db_thread.cpp:84-96 | In add-only runs the digest of every document that came in at a daemon, with an author or without, is still a key of its database |
| Updates.LocalSending | src/daemon_db_thread.cpp:159-206 | What a daemon still has to do for a peer stays pending over its own steps, and what it newly stores it has to advertise |
| Updates.LocalReceiving | src/daemon_db_thread.cpp:180-206 | A daemon that has, or is getting, a document goes on having it or getting it over its own steps, if with an author; any other it may refuse, but then it has its own hashes to advertise |
| Updates.ReceiveNext | src/daemon_p2p_thread.cpp:182-243 | Each message received hands the document to the next stage of the pipeline, or the receiver takes it for known, which it is or which it will advertise |
| Updates.TakenKeeps | src/daemon_p2p_thread.cpp:361-367 | Taking a message off a socket loses only the work that message stood for |
| Safety.StepSafe | src/daemon_p2p_thread.cpp:354-374 | Every step, removals included, keeps every daemon's own invariant and the state of introduction between every daemon and each of its peers |
| Safety.RunSafe | src/daemon_p2p_thread.cpp:354-374 | That invariant holds after every run, and no daemon appears or disappears |
| NodeInvariant.LocalNodeInv | src/daemon_p2p_thread.cpp:355-372 | A daemon's own steps keep its invariant: flag order of the loop, requests well formed, messages signed, addresses in the pipes known, content addressing, hash set in step |
| NodeInvariant.ReceiveNodeInv | src/daemon_p2p_thread.cpp:164-243 | A message from a peer keeps the invariant, if the sender of a HASH or REQ is known |
| NodeInvariant.ClientNodeInv | src/daemon_db_thread.cpp:84-107 | A client's addition or removal keeps the invariant and leaves the p2p thread alone |
| PeerDiscovery.LocalQueue | src/daemon_p2p_thread.cpp:355-358 | One step of a daemon puts at most one message on each socket, of four shapes, and no HASH or REQ while a PEER is due |
| PeerDiscovery.LocalPair | src/daemon_p2p_thread.cpp:355-358 | Between two daemons, over the sender's steps: every address the sender knows is known to the receiver, on its way, or about to be broadcast; and a PEER naming the sender precedes every HASH and REQ |
| PeerDiscovery.DeliverPair | src/daemon_p2p_thread.cpp:164-180 | The same over a delivery; and when a HASH or REQ arrives its sender is already a peer |
| PeerDiscovery.ReceivePair | src/daemon_p2p_thread.cpp:172-178 | What a daemon learns it is about to tell each of its peers |
| Convergence.QuietKnows | src/daemon_p2p_thread.cpp:54-65 | At rest, knowing is mutual and passes from peer to peer |
| Convergence.RunPeersGrow | src/daemon_p2p_thread.cpp:172-178 | No daemon ever forgets a peer |
| Confinement.RunConfined | src/daemon_p2p_thread.cpp:54-130 | After every run, whatever a daemon stores, sends or queues is an address, a document or a digest from its own side of any split of the start-up graph that no address crosses |
| Theorems.NothingMadeUp | src/daemon_p2p_thread.cpp:231-241 | No fabrication: in every run every document stored, in flight or between threads came in at some daemon |
| Theorems.HashesInFlight | src/db.cpp:216-216 | Every hash that a daemon advertises, waits to request, has sent in a HASH or REQ, or has its db thread look up has 32 bytes and is the digest of a document that came in; a HASH or REQ names its sender |
| Theorems.StoredOnce | src/db.cpp:84-90 | In every run each key is the digest of its text and no text is stored twice, however many peers deliver it |
| Theorems.CacheAgrees | src/daemon_db_thread.cpp:28-35 | Whenever the db thread looks for work, the hash set is the set of keys of the database |
| Theorems.FiltersKeepNews | src/daemon_p2p_thread.cpp:235-235 | In add-only runs, at every moment of a refresh, neither filter discards a document the database lacks |
| Theorems.RequestsWellFormed | src/daemon_p2p_thread.cpp:117-130 | The request flag is up exactly when requests wait; no request waiting, sent or handed on is empty; all are for peers |
| Theorems.RequestsHeld | src/daemon_p2p_thread.cpp:191-198 | In add-only runs everything requested of a peer is in that peer's database |
| Theorems.AnswersComplete | src/daemon_db_thread.cpp:163-178 | In add-only runs an answer has exactly as many documents as were requested, and at least one |
| Theorems.AnswersNotEmpty | src/daemon_p2p_thread.cpp:229-273 | So in add-only runs no PUT between the threads and no DOC on a socket is empty: the assertions on their counts hold |
| EmptyCounts.EmptyPut | src/daemon_p2p_thread.cpp:273-273 | Not so with removals: a run that reaches a PUT of 0 documents, one being removed after it was asked for |
| EmptyCounts.EmptyDoc | src/daemon_p2p_thread.cpp:229-229 | ... and a run that reaches a DOC of 0 documents on a socket |
| EmptyCounts.EmptyIns | src/daemon_db_thread.cpp:186-186 | Not even in add-only runs for INS: a run that reaches an INS of 0 documents, one being added by a client while it is on its way from a peer |
| EmptyCounts.EmptyPutIff | src/daemon_db_thread.cpp:163-178 | Exactly when, step by step: a PUT is of 0 documents if and only if nothing that was asked for is stored any more |
| EmptyCounts.EmptyInsIff | src/daemon_p2p_thread.cpp:230-241 | ... and an INS if and only if every document that arrived is in the hash set by then |
| Theorems.InsertsLegible | src/db.cpp:251-252 | In every run what the db thread is handed to store is an advertisement that reading and printing leaves alone |
| Work.LocalWork | src/daemon_db_thread.cpp:196-206 | A step of one daemon either stores a document that it lacked or lessens its work, if of it and any peer one has all documents without author of the other |
| Work.ReceiveWork | src/daemon_p2p_thread.cpp:164-243 | A message received either brings a new peer or makes less work than it weighed |
| Work.InsWork | src/daemon_db_thread.cpp:188-206 | Storing what a peer sent either makes the database grow or makes less work than the message weighed, also when documents without author are refused |
| DbSteps.NoteMeansGrowthIff | src/daemon_db_thread.cpp:196-206 | The note NEW means growth if and only if some document that was not known has an author and a canonical form not yet stored |
| DbSteps.NoteWithoutGrowth | src/db.cpp:254-256 | The failing case: a document without author is refused, nothing changes, and NEW is sent all the same |
| Removal.RemovalComesBackIff | doc/communication.md:60-62 | Removals are not synced, and exactly when they last: from rest after any run, after a client removed something at a daemon and the network is at rest again by itself, a digest is in that database if and only if it was kept, or it is of a document with an author at some daemon of the part that lacked something the daemon kept; with the proviso of StoresAtRest |
| Removal.ComesBack | doc/communication.md:60-62 | The half that needs no proviso: what such a daemon has with an author is back at the one that removed it |
| Removal.StaysAway | doc/communication.md:60-62 | And the other half, for every digest: if all daemons of the part that store it store all that the other kept, it stays away, at every later moment |
| Removal.RemovalStaysLocal | doc/communication.md:60-62 | From rest after any run, if the peers of a daemon hold all it kept, after it removed something no step the daemons take among themselves changes any database again, so what it removed and others have they keep and it lacks |
| Removal.RemovalUndone | doc/communication.md:60-62 | ... and the next addition by a client at any daemon of the part undoes it: once the network, after any run at rest, is at rest again with clients only adding, every document with an author that the daemon added to had is at every daemon of the part, also where it had been removed |
| Circles.StepCircle | src/daemon_p2p_thread.cpp:354-374 | Each step keeps this: daemons that deal only with documents all their other peers know stay among themselves; nobody else stirs, nothing new comes up among them, and a single one keeps its database |
| NoLostUpdate.StepInjects | src/daemon_db_thread.cpp:84-96 | What has come in only grows, and only by what clients add |
| DbSteps.RefreshRun | src/daemon_db_thread.cpp:28-35 | The refresh, as steps interleaved with the p2p thread, can always run to the state the class DbThread reaches in one go |
| DbSteps.InsRun | src/daemon_db_thread.cpp:196-205 | So can storing what a peer sent |
| P2pThreads.P2pThread.constructor | src/daemon_p2p_thread.cpp:322-352 | Start-up: the peers are the configured addresses but the daemon's own, and "localhost:" with every port number from the default up to, not including, its own; its own is "localhost:" with the digits of the port it is bound to; first broadcasts due, nothing sent |
| P2pThreads.P2pThread.BcastPeers | src/daemon_p2p_thread.cpp:42-66 | Every peer is sent the same PEER with the daemon's address and all its peers', if due; otherwise nothing changes |
| P2pThreads.P2pThread.PeerMessage | src/daemon_p2p_thread.cpp:58-61 | The frames made are well formed: the word PEER, the count, the daemon's own address, that is "localhost:" and its port in digits, and its peers' |
| P2pThreads.P2pThread.HashMessage | src/daemon_p2p_thread.cpp:91-94 | Likewise: the word HASH, that address, and the hash set, count included |
| P2pThreads.P2pThread.ReqMessage | src/daemon_p2p_thread.cpp:121-124 | Likewise: the word REQ, that address, and the hashes wanted, count included |
| P2pThreads.P2pThread.BcastHashes | src/daemon_p2p_thread.cpp:68-100 | Every peer is sent the hash set, if due |
| P2pThreads.P2pThread.SendDbRequests | src/daemon_p2p_thread.cpp:102-131 | Each peer with requests waiting is sent them in one REQ, others nothing; then none wait |
| P2pThreads.P2pThread.Head | src/daemon_p2p_thread.cpp:354-358 | The three in their order; afterwards nothing is due |
| P2pThreads.P2pThread.AnswerPEER | src/daemon_p2p_thread.cpp:164-180 | The loop over addresses connects exactly the unknown ones other than the daemon itself and makes both broadcasts due if and only if there were any |
| P2pThreads.P2pThread.AnswerHASH | src/daemon_p2p_thread.cpp:182-201 | The loop over hashes adds exactly the unknown ones to the requests for the sender |
| P2pThreads.P2pThread.AnswerREQ | src/daemon_p2p_thread.cpp:203-217 | A request becomes a look-up with the same address, count and hashes in the same order |
| P2pThreads.P2pThread.AnswerDOC | src/daemon_p2p_thread.cpp:219-243 | The documents whose digest is unknown are framed, in their order, with their number, which may be 0 |
| P2pThreads.P2pThread.AnswerP2p | src/daemon_p2p_thread.cpp:133-250 | The whole handler computes the answer function of the protocol, on well-formed frames; any other word changes nothing |
| P2pThreads.P2pThread.AnswerDb | src/daemon_p2p_thread.cpp:252-293 | Documents looked up go to the peer that asked, with count and order kept, also when there are none; NEW makes a broadcast due; any other word changes nothing |
| P2pThreads.OneMorePeer | src/daemon_p2p_thread.cpp:169-179 | Going through a PEER address by address gives the same as treating it as a set |
| P2pThreads.OneMoreHash | src/daemon_p2p_thread.cpp:191-198 | Going through a HASH hash by hash gives the same as treating it as a set |
| Daemon.NovelElements | src/daemon_p2p_thread.cpp:231-238 | The documents that pass the filter one by one are those of the set whose digest is unknown; the same filter serves DOC, INS and db add |
| P2pThreads.LocalhostInjective | src/daemon_p2p_thread.cpp:323-327 | Different ports give different addresses, so a daemon never adds itself |
| P2pThreads.LocalhostIs | src/daemon_p2p_thread.cpp:323-327 | The address of a port is the one text that is "localhost:" and the digits of that port, without needless zeros |
| P2pThreads.LearntMeans | src/daemon_p2p_thread.cpp:164-180 | After a PEER the addresses known are those known before and those named, but the daemon's own, and broadcasts are due if there were any new |
| Framing.ListRoundTrip | src/daemon_p2p_thread.cpp:58-61 | A list framed with its decimal count is found again by the receiver: head, count, contents, nothing left over, also when empty |
| Framing.PushAll | src/daemon_p2p_thread.cpp:61-61 | A set is written each element once, in whatever order |
| Framing.TakeAll | src/daemon_db_thread.cpp:163-170 | The countdown loop takes exactly as many frames as the count says off the front |
| Framing.SentIsReceived | src/daemon_p2p_thread.cpp:57-62 | PEER, HASH and REQ are received as the sets they were sent as |
| Framing.DocsAreReceived | src/daemon_db_thread.cpp:175-178 | DOC, INS, PUT and GET likewise, whatever the list |
| Numerals.CountRoundTrip | src/daemon_p2p_thread.cpp:190-190 | A decimal count is read as the number it was printed from |
| Numerals.DecimalText | src/daemon_p2p_thread.cpp:59-59 | A number is printed by its decimal digits, the highest first |
| Numerals.StoulText | src/daemon_p2p_thread.cpp:168-168 | A text of digits is read as the number they are in decimal |
| Numerals.CountIsDecimal | src/daemon_p2p_thread.cpp:168-168 | A count without needless zeros, read and printed, is itself |
| Numerals.IntTextIs | src/document.cpp:49-49 | An integer is printed as its digits, after a minus sign if it is negative |
| Numerals.HexAt | src/crypto_util.cpp:44-57 | The hexadecimal form has for each byte its high digit, then its low digit, in upper case |
| Numerals.HexInjective | src/crypto_util.cpp:44-57 | Different digests have different hexadecimal forms |
| P2pThreads.ResultBecomesDocs | src/daemon_p2p_thread.cpp:274-280 | PUT re-framed as DOC says the same documents |
| P2pThreads.RequestBecomesLookup | src/daemon_p2p_thread.cpp:209-215 | REQ re-framed as GET says the same address and hashes |
| DbThreads.DbThread.constructor | src/daemon_db_thread.cpp:246-251 | At start-up the hash set is filled from the database as it was left |
| DbThreads.DbThread.UpdateHashes | src/daemon_db_thread.cpp:19-36 | After clearing and refilling, the hash set is the set of keys of the database |
| DbThreads.DbThread.AnswerGET | src/daemon_db_thread.cpp:159-178 | The reply frames the documents found, in the order asked, with their number, which may be 0 |
| DbThreads.DbThread.AnswerINS | src/daemon_db_thread.cpp:180-206 | Exactly the unknown documents are put; if there are none nothing changes and nothing is said; else the hash set is renewed and NEW sent |
| DbThreads.DbThread.PeerOp | src/daemon_db_thread.cpp:142-213 | Both operations and the unknown word, with the invariants of the database kept |
| DbThreads.DbThread.DbAdd | src/db.cpp:417-440 | db add: trimming, the word json, the file name, and what the database and the reply then are; the database stays sound |
| DbThreads.DbThread.DbRm | src/db.cpp:442-465 | db rm: the words of the command name the digests; empty or not, what the database and the reply then are |
| DbThreads.RemovedMeans | src/db.cpp:295-320 | What db rm does: whatever goes has the user as author and its digest in hexadecimal among the words; if every document named has, exactly those go and the reply counts them; if some has not, the reply is the refusal; an empty command and an empty database change nothing |
| DbThreads.OwnIsRemoved | src/db.cpp:304-307 | A user who names one document of his own by its digest gets that one removed and is told of 1 |
| DbThreads.DbThread.ClientOp | src/daemon_db_thread.cpp:38-140 | A client's command, each in full: "db add " with any words, the mark and a user is an addition of these words by this user, "db rm " likewise a removal, "db query ", "db list " and "peers" are looked up, "connect" is accepted; the exception when the mark comes first; the hash set renewed and NEW sent for add and rm only |
| DbThreads.AddedEnters | src/daemon_db_thread.cpp:84-96 | What db add does to the database, for any user and file, is a client step of the network model, of settled documents; they have an author if and only if the user's digest is not empty and does not begin with NUL |
| DbThreads.AddedMeans | src/db.cpp:127-144 | What db add stores, field by field: for each document of the file, in order, a text that reads back as that document with the user as author, and nothing else changed; all digests of these texts are stored afterwards, what was stored stays, nothing else is new, and the reply counts those whose digest was not stored |
| DbThreads.AddedNothing | src/db.cpp:417-440 | A command other than json, a file that is not there, a file that is not JSON: nothing changes, and which reply says so |
| DbThreads.EntrySettled | src/db.cpp:80-90 | What a user adds is a fixed point of reading and printing, and its author reads as the user up to the first NUL |
| DbThreads.AcceptedIff | src/db.cpp:254-256 | What a user adds is accepted by other daemons if and only if the user's digest is not empty and does not begin with NUL |
| DbThreads.SoundPut | src/db.cpp:251-256 | Putting documents from peers keeps every text settled and under its digest |
| DbThreads.PutPrints | src/db.cpp:250-256 | A text from a peer is stored as the text that what it reads as prints, under the digest of that, unless it is no advertisement or has no author |
| DbThreads.SoundAdd | src/db.cpp:127-134 | So does adding a file |
| Store.Database.AddDocument | src/db.cpp:35-92 | The document is re-authored, and its text stored under the digest of the text, replacing what was there |
| Store.Database.IndexDb | src/db.cpp:94-145 | After a db add the database is the old one with the novel re-authored entries entered in order, and the reply counts them; an unreadable file changes nothing |
| Store.Database.GetDocs | src/db.cpp:198-230 | The documents found, in the order of the hashes |
| Store.Database.PutDocs | src/db.cpp:232-272 | Documents are put in order, those without author refused |
| Store.Database.RmDocs | src/db.cpp:274-321 | For every order of the hash set: only requested documents of the user go, also when the loop stops early; if all requested are the user's, exactly those go; the count reported is the drop in size |
| Store.Database.ListHash | src/db.cpp:323-351 | The digests of all stored texts |
| Store.TargetsNamed | src/db.cpp:298-299 | Naming documents by their digests in hexadecimal names those and no others |
| Store.PutSeqPuts | src/db.cpp:251-256 | Putting one after the other meets the order-free description the protocol proofs use |
| Store.GetSeqLooksUp | src/db.cpp:215-222 | Looking up a list gives the set of documents found; all are found if and only if all are stored |
| Store.GetSeqOrder | src/db.cpp:215-222 | A list is looked up one hash after the other, each giving the document stored under it or nothing |
| DbThreads.EnterEnters | src/db.cpp:127-134 | Entering one after the other meets the order-free description the protocol proofs use, for documents with and without author |
| Store.EnterGrowth | src/db.cpp:132-144 | The count reported is at least the growth of the database, and equal to it if and only if the entries entered are distinct and new |
| Store.AddingAgain | src/daemon_db_thread.cpp:90-92 | Repeating an addition after the refresh adds nothing |
| Documents.SerializedIsCanonical | src/document.cpp:39-62 | Hash stability: the text of any document, read and printed again, is the same text |
| Documents.ReadSerialized | src/document.cpp:17-37 | Reading the text of a document gives the document with every string cut at its first NUL |
| Documents.FindFirst | src/document.cpp:24-34 | Looking up a name in an object gives the first member of that name |
| Documents.ReadsWords | src/document.cpp:25-34 | Each of the nine texts of a document is that of the member of its own name, cut at its first NUL |
| Documents.ReadsNumbers | src/document.cpp:24-28 | The identifier is the integer, and the price the number, of the members named id and price |
| Documents.IsDocIff | src/document.cpp:24-34 | An object is an advertisement if and only if it has a 32-bit integer id, a number price and the nine texts |
| Documents.SerializedText | src/document.cpp:48-59 | The text of a document, name by name, in the order of the source |
| Documents.RoundTripIffNulFree | src/document.cpp:17-62 | Reading undoes printing if and only if no field has a NUL |
| Documents.OwnIffNulFree | src/db.cpp:301-311 | A document is recognised as the user's own when it is to be removed if and only if the user's digest has no NUL |
| Documents.CanonIdempotent | src/db.cpp:252-256 | One reading and printing settles any text, and keeps its author |
| Documents.ReadPrintable | src/document.cpp:17-37 | Whatever is read can be printed |
| DocumentObjects.WriteDoc | src/document.cpp:39-62 | The writer calls, field by field, append exactly the text of the document, and close what they open |
| DocumentObjects.Document.FromObject | src/document.cpp:17-37 | The object's fields become those of the JSON object, each string cut at its first NUL, as it passes through a C string |
| DocumentObjects.Document.Deserialize | src/jsonbase.cpp:30-42 | False and no change if the text is not JSON; otherwise the fields are those of the document read |
| DocumentObjects.Document.ToText | src/jsonbase.cpp:17-28 | The text of the document |
| DocumentObjects.DocumentList.Deserialize | src/document.cpp:64-86 | The documents of an array are appended in order, or the one document, or none if the text is not JSON |
| DocumentObjects.DocumentList.Serialize | src/document.cpp:88-101 | The list is printed as a JSON array of the documents in order |
| DocumentObjects.ListRoundTrip | src/document.cpp:64-101 | A printed list is read as the same documents in the same order, cut at their NULs |
| DocumentObjects.ListReads | src/document.cpp:72-79 | A file that holds a JSON array of objects, with whatever white space, is read as one document for each object, in order |
| DocumentObjects.OneRoundTrip | src/document.cpp:80-84 | A single printed document, outside an array, is read as that document alone |
| DocumentObjects.ListText | src/document.cpp:88-101 | The text of a list is the texts of its documents in order, between brackets, with commas between |
| JsonGrammar.ParseIff | src/jsonbase.cpp:74-86 | What the reader reads: a text is read as a value if and only if, up to its first NUL, it is a text of that value after RFC 8259: any white space around every token, any spelling of every character, numbers of the grammar |
| JsonGrammar.LaysParses | src/jsonbase.cpp:74-86 | In particular every layout of a value is read as that value, whatever is put between its tokens |
| JsonTokens.SkipsWs | src/jsonbase.cpp:85-85 | White space in front is passed over: all of it, and the four characters only |
| JsonTokens.NumberIff | src/jsonbase.cpp:85-85 | A number is an optional minus, digits without a leading zero, an optional fraction and an optional exponent, and nothing else |
| JsonTokens.HexDigits | src/jsonbase.cpp:85-85 | The value of each of the sixteen hexadecimal digits, in upper and lower case |
| JsonTokens.Utf8Is | src/jsonbase.cpp:85-85 | An escaped code point becomes the bytes that UTF-8 gives it, as few as it can |
| JsonTokens.EscapeShortest | src/jsonbase.cpp:17-28 | The printer escapes a character in the shortest way there is, so nothing that may stand for itself; a control character without a letter is its two upper-case hexadecimal digits |
| JsonPrinting.TextRoundTrip | src/jsonbase.cpp:74-86 | Any JSON value with proper numbers, printed and parsed, is itself: strings with every escape, nested arrays and objects |
| JsonPrinting.PrintParses | src/jsonbase.cpp:74-86 | The parser takes exactly the printed value off the front of what follows |
| Json.ParsedNumbers | src/jsonbase.cpp:74-86 | Every number in a parsed value is a JSON number |
| LazyPirate.Client.PirateSend | src/zmq_util.cpp:51-108 | For every sequence of silences and replies: one round of the outer loop, one request a socket, at most 5 requests, the first non-empty reply or the notice, never an empty string |
| LazyPirate.AnsweredOrNot | src/zmq_util.cpp:74-104 | The two cases of that contract leave nothing out |
| Auth.SendCmd | src/monero_util.cpp:45-59 | The command sent is the trimmed one, with the mark and the user's digest for the commands that need them, or none without a wallet |
| Auth.SentExactly | src/monero_util.cpp:45-59 | The mark and the digest go with a command if and only if it has "db" in it and "add" or "rm"; any other is sent as it was typed, trimmed |
| Auth.RFind | src/daemon_db_thread.cpp:61-61 | The last position of the mark, if any |
| Auth.Strip | src/daemon_db_thread.cpp:59-65 | Cutting off the mark throws if and only if there is a mark at the very beginning of the command and no other |
| Auth.StripUnmarked | src/daemon_db_thread.cpp:59-65 | A command without mark comes through whole, with no user |
| Auth.SentThrowsIff | src/monero_util.cpp:45-59 | What a client sends makes the daemon throw if and only if the trimmed command begins with the mark, has no other, and needs no user |
| Auth.StripInvertsAppend | src/daemon_db_thread.cpp:59-65 | The daemon recovers command and user if and only if the user contains no mark, whatever the command contains; otherwise it takes what follows the last mark for the user, and for the command one that begins with the command sent |
| Auth.DispatchIff | src/daemon_db_thread.cpp:70-121 | Which command is which: "connect" and "peers" as they are; "db", any character, and query, add, rm or list |
| Auth.DispatchWords | src/daemon_db_thread.cpp:77-108 | What is done with is what follows the word and one character more |
| Auth.Orders | src/daemon_db_thread.cpp:59-108 | "db add " or "db rm " with any words, the mark and a user is recognised as that command of those words and that user; "db query " and "db list " likewise, without user |
| Auth.DispatchedHasUser | src/daemon_db_thread.cpp:86-102 | For every command and every wallet, a client's command that the daemon takes for add or rm carries the wallet's user: all of it, with the trimmed command, if and only if there is no mark in it, and otherwise what follows its last mark |
| Auth.UserEmptyIff | src/daemon_db_thread.cpp:89-89 | The assertion that there is a user can fail: he arrives empty if and only if the wallet's digest is empty or ends in the mark |
| StringUtil.Trim | src/string_util.cpp:14-26 | The two searches compute the trimmed string |
| StringUtil.SpaceCodes | src/string_util.cpp:20-20 | White space is the six characters space, line feed, carriage return, tab, form feed and vertical tab |
| StringUtil.TrimUnique | src/string_util.cpp:14-26 | The trimmed string is the only one without white space at its ends that leaves white space on both sides |
| StringUtil.TrimSplits | src/string_util.cpp:14-26 | Trimming removes white space only, at the ends only, and all of it |
| StringUtil.Tokenize | src/string_util.cpp:28-46 | The token iterator cuts at every white-space character and drops a final empty piece |
| StringUtil.PiecesUnique | src/string_util.cpp:40-44 | Words put together with one white-space character between any two are cut into just those words |
| StringUtil.TokensUnique | src/string_util.cpp:28-46 | ... of which the tokens are all, but for a last empty one |
| StringUtil.TokensLetters | src/string_util.cpp:36-45 | The tokens in order, put together, are the string without its white space |
| StringUtil.PiecesSolid | src/string_util.cpp:40-44 | No token contains white space |
| StringUtil.WordCount | src/string_util.cpp:48-70 | The words counted are the non-empty tokens of the C string; of the whole string if it has no NUL |
| StringUtil.NonEmptyCount | src/string_util.cpp:48-70 | The number of non-empty tokens is the number of places at which a token is not empty |

## Left out

- ZeroMQ itself: sockets are queues; reconnection, high-water marks, CURVE authentication and lost messages are not modelled.
- Xapian indexing and `db_query`: the database is a map from digests to texts; the answers of query, list and peers commands are a parameter.
- Memory races on the hash set: handlers read snapshots, although a refresh may be under way; the mutex and the condition variable have no counterpart.
- Propagation of removals: the code has none.
- `try_bind`: the port finally bound is an input of start-up.
- Aliases of an address, and peers that never start.
- Doubles: a price is the text it prints as. SHA-256: a parameter.
- JSON that parses but is not an advertisement: reading it is undefined in the source, so `Readable` and `TypedFile` exclude it.
- Malformed messages: too few frames, a count that is not a decimal number or beyond 64 bits; the source would throw.
- P2pThreads.P2pThread.SendDbRequests: requires the addresses to be peers, where the source would throw; `Progress.NoCrash` shows they always are.
- P2pThreads.P2pThread.AnswerDb: requires the address to be a peer, for the same reason.
- DbThreads.DbThread.PeerOp: requires the documents it is sent to be readable; `Theorems.InsertsLegible` shows they always are.
- The endless loops of the two threads: they are the step relation of `daemon.dfy`; each method is one turn of a part of the loop.
- Command-line and option parsing, logging, key files, wallets, the Matrix client threads: no logic of the protocol in them.
