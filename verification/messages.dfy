/** The vocabulary of the gossip protocol: what one daemon says to another, and what the two
    threads of one daemon say to each other.  At this level a message carries the set of things it
    lists; the module Framing says which frames such a message is made of on the socket. */
module Messages {

  type Addr = string
  type Hash = string
  type Text = string

  /** What a list lists, whatever the order and however often. */
  function Elements<T>(s: seq<T>): set<T> {
    set x | x in s
  }

  lemma {:induction false} ElementsAppend<T>(a: seq<T>, b: seq<T>)
    ensures Elements(a + b) == Elements(a) + Elements(b)
  {
  }

  /** What the daemon does with the text of an advertisement: the digest it is keyed by, the text it
      becomes when it is read and printed again, the author read from it, and whether it is an advertisement
      at all, so that reading it is defined. */
  datatype Format = Format(sha: Text -> Hash, canon: Text -> Text, author: Text -> string, legible: Text -> bool) {

    /** The text is an advertisement, and reading and printing leaves it alone. */
    predicate Settled(t: Text) {
      legible(t) && canon(t) == t
    }

    /** A receiver stores the text as it is, and does not refuse it. */
    predicate Accepted(t: Text) {
      Settled(t) && author(t) != ""
    }

    /** A digest has 32 bytes. */
    ghost predicate Valid() {
      forall t :: |sha(t)| == 32
    }

    /** The digest tells apart the texts in `docs`. */
    ghost predicate Injective(docs: set<Text>) {
      forall t, u :: t in docs && u in docs && sha(t) == sha(u) ==> t == u
    }

    /** The digest tells apart at least texts with an author from texts without. */
    ghost predicate Discerning(docs: set<Text>) {
      forall t, u :: t in docs && u in docs && sha(t) == sha(u) ==> (author(t) == "" <==> author(u) == "")
    }

    /** The texts no daemon refuses. */
    function Authored(docs: set<Text>): set<Text> {
      set t | t in docs && author(t) != ""
    }

    /** The texts every daemon refuses. */
    function Orphans(docs: set<Text>): set<Text> {
      set t | t in docs && author(t) == ""
    }

    /** Some text in `docs` has digest `h`, and an author unless any text will do. */
    ghost predicate Carries(any: bool, docs: set<Text>, h: Hash) {
      exists t :: t in docs && sha(t) == h && (any || author(t) != "")
    }

    function Digests(docs: set<Text>): set<Hash> {
      set t | t in docs :: sha(t)
    }
  }

  /** Between daemons. */
  datatype PeerMsg =
    | PEER(addrs: set<Addr>)
    | HASH(from: Addr, hashes: set<Hash>)
    | REQ(from: Addr, hashes: set<Hash>)
    | DOC(docs: set<Text>)

  /** From the p2p thread of a daemon to its db thread. */
  datatype ToDb =
    | GET(addr: Addr, hashes: set<Hash>)
    | INS(docs: set<Text>)

  /** From the db thread of a daemon to its p2p thread. */
  datatype ToP2p =
    | PUT(addr: Addr, docs: set<Text>)
    | NEW
}
