/** Messages as frames on a socket: a word saying which message it is, then, where the message has them, an
    address, a decimal count, and as many frames as it says. */
module Framing {
  import opened Numerals
  import opened Messages

  type Frames = seq<string>

  /** A count stands at position `at`, and that many frames follow it, and no more. */
  predicate Counted(m: Frames, at: nat) {
    |m| > at && IsCount(m[at]) && |m| == at + 1 + Stoul(m[at])
  }

  // ---------------------------------------------------------------- between daemons

  predicate IsPeerMsg(m: Frames) {
    && m != []
    && ((m[0] == "PEER" && Counted(m, 1)) || (m[0] == "HASH" && Counted(m, 2)) ||
        (m[0] == "REQ" && Counted(m, 2)) || (m[0] == "DOC" && Counted(m, 1)))
  }

  function PeerMsgOf(m: Frames): PeerMsg
    requires IsPeerMsg(m)
  {
    if m[0] == "PEER" then PEER(Elements(m[2..]))
    else if m[0] == "HASH" then HASH(m[1], Elements(m[3..]))
    else if m[0] == "REQ" then REQ(m[1], Elements(m[3..]))
    else DOC(Elements(m[2..]))
  }

  // ---------------------------------------------------------------- between the threads of a daemon

  predicate IsToDb(m: Frames) {
    m != [] && ((m[0] == "GET" && Counted(m, 2)) || (m[0] == "INS" && Counted(m, 1)))
  }

  function ToDbOf(m: Frames): ToDb
    requires IsToDb(m)
  {
    if m[0] == "GET" then GET(m[1], Elements(m[3..])) else INS(Elements(m[2..]))
  }

  predicate IsToP2p(m: Frames) {
    m != [] && ((m[0] == "PUT" && Counted(m, 2)) || m[0] == "NEW")
  }

  function ToP2pOf(m: Frames): ToP2p
    requires IsToP2p(m)
  {
    if m[0] == "PUT" then PUT(m[1], Elements(m[3..])) else NEW
  }

  // ---------------------------------------------------------------- writing and reading lists

  /** The frames of a list. */
  function ListFrames(head: Frames, xs: seq<string>): Frames {
    head + [Decimal(|xs|)] + xs
  }

  /** What follows a head is a list, and nothing is left over: the receiver finds the sender's list, whatever is in
      it and also when it is empty. */
  lemma ListRoundTrip(head: Frames, xs: seq<string>)
    ensures var m := ListFrames(head, xs);
            Counted(m, |head|) && m[..|head|] == head && Stoul(m[|head|]) == |xs| && m[|head|+1..] == xs
  {
    CountRoundTrip(|xs|);
  }

  /** The elements of `s` in some order, each once. */
  predicate Enumerates(xs: seq<string>, s: set<string>) {
    Elements(xs) == s && |xs| == |s|
  }

  /** msg << x for every x of a set, in whatever order the set gives them. */
  method PushAll(msg: Frames, s: set<string>) returns (msg': Frames)
    ensures msg <= msg' && Enumerates(msg'[|msg|..], s)
  {
    msg' := msg;
    var todo := s;
    while todo != {}
      invariant todo <= s && msg <= msg' && Elements(msg'[|msg|..]) == s - todo && |msg'[|msg|..]| == |s| - |todo|
      decreases todo
    {
      var x :| x in todo;
      todo := todo - {x};
      ElementsAppend(msg'[|msg|..], [x]);
      assert (msg' + [x])[|msg|..] == msg'[|msg|..] + [x];
      msg' := msg' + [x];
    }
  }

  /** msg << x for every x of a vector. */
  method PushList(msg: Frames, xs: seq<string>) returns (msg': Frames)
    ensures msg' == msg + xs
  {
    msg' := msg;
    for i := 0 to |xs|
      invariant msg' == msg + xs[..i]
    {
      msg' := msg' + [xs[i]];
    }
  }

  /** The receiver's loop: as many frames as the count says are taken off the front. */
  method TakeAll(msg: Frames, size: string) returns (xs: seq<string>, rest: Frames)
    requires IsCount(size) && Stoul(size) <= |msg|
    ensures xs == msg[..Stoul(size)] && rest == msg[Stoul(size)..]
  {
    var num := Stoul(size);
    xs, rest := [], msg;
    while num != 0
      invariant 0 <= num <= |rest| && |xs| + num == Stoul(size)
      invariant msg == xs + rest
    {
      num := num - 1;
      xs := xs + [rest[0]];
      rest := rest[1..];
    }
  }

  /** Sending a list and receiving it. */
  lemma SentIsReceived(xs: seq<string>, s: set<string>, from: string)
    requires Enumerates(xs, s)
    ensures var m := ListFrames(["PEER"], xs); IsPeerMsg(m) && PeerMsgOf(m) == PEER(s)
    ensures var m := ListFrames(["HASH", from], xs); IsPeerMsg(m) && PeerMsgOf(m) == HASH(from, s)
    ensures var m := ListFrames(["REQ", from], xs); IsPeerMsg(m) && PeerMsgOf(m) == REQ(from, s)
  {
    ListRoundTrip(["PEER"], xs);
    ListRoundTrip(["HASH", from], xs);
    ListRoundTrip(["REQ", from], xs);
  }

  lemma DocsAreReceived(xs: seq<string>, to: string)
    ensures var m := ListFrames(["DOC"], xs); IsPeerMsg(m) && PeerMsgOf(m) == DOC(Elements(xs))
    ensures var m := ListFrames(["INS"], xs); IsToDb(m) && ToDbOf(m) == INS(Elements(xs))
    ensures var m := ListFrames(["PUT", to], xs); IsToP2p(m) && ToP2pOf(m) == PUT(to, Elements(xs))
    ensures var m := ListFrames(["GET", to], xs); IsToDb(m) && ToDbOf(m) == GET(to, Elements(xs))
  {
    ListRoundTrip(["DOC"], xs);
    ListRoundTrip(["INS"], xs);
    ListRoundTrip(["PUT", to], xs);
    ListRoundTrip(["GET", to], xs);
  }
}
