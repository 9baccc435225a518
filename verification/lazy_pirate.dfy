/** The client's side of a request: send, wait, and on silence throw the socket away and send again from a new one,
    a limited number of times. */
module LazyPirate {

  const REQUEST_RETRIES: nat := 5
  const NO_RESPONSE: string := "No response from server"

  /** What comes back on a REQ socket for the one request sent on it, before the time-out: at most one reply. */
  datatype Outcome = Silence | Reply(text: string)

  /** A reply that ends the wait. */
  predicate Answers(o: Outcome) {
    o.Reply? && o.text != ""
  }

  /** The `k`-th request is the first that is answered. */
  ghost predicate FirstAnswer(net: nat -> Outcome, k: nat) {
    Answers(net(k)) && forall i: nat :: i < k ==> !Answers(net(i))
  }

  /** The client, with its sockets: requests are sent from sockets 0, 1, 2, ...; `net` says what becomes of each. */
  class Client {
    const net: nat -> Outcome
    /** The socket each request was sent from, in order. */
    var sends: seq<nat>
    /** The socket in use, and whether its reply has been received. */
    var server: nat
    var received: bool
    /** How often the outer loop has been entered, and how many polls there were. */
    var rounds: nat
    var polls: nat

    constructor (net: nat -> Outcome)
      ensures this.net == net && sends == [] && rounds == 0 && polls == 0
    {
      this.net := net;
      sends, server, received, rounds, polls := [], 0, false, 0, 0;
    }

    /** Input is waiting on the socket in use. */
    predicate HasInput()
      reads this
    {
      net(server).Reply? && !received
    }

    /** pirate_send(): the first reply that is not empty, if one of the requests gets one, else the notice that the
        server is abandoned. */
    method PirateSend() returns (reply: string)
      requires sends == [] && rounds == 0 && polls == 0
      modifies this
      // one request a socket, never more than the limit
      ensures |sends| <= 5 && forall i :: 0 <= i < |sends| ==> sends[i] == i
      ensures rounds == 1
      ensures polls <= 2 * REQUEST_RETRIES
      // the first answer among those asked for is returned, and nothing is sent after it
      ensures forall k: nat :: k < REQUEST_RETRIES && FirstAnswer(net, k) ==> reply == net(k).text && |sends| == k + 1
      // with no answer the server is abandoned after the last request
      ensures (forall k: nat :: k < REQUEST_RETRIES ==> !Answers(net(k))) ==>
                reply == "No response from server" && |sends| == 5
      ensures reply != ""
    {
      reply := "";
      var retries := REQUEST_RETRIES;
      server, received := 0, false;
      while retries > 0
        invariant 0 <= retries <= REQUEST_RETRIES && rounds <= 1
        invariant retries > 0 ==> retries == REQUEST_RETRIES && sends == [] && rounds == 0 && polls == 0 &&
                                  server == 0 && !received
        invariant retries == 0 ==> rounds == 1 && Finished(reply)
      {
        rounds := rounds + 1;
        sends := sends + [server];
        var expectReply := true;
        while expectReply
          invariant rounds == 1
          invariant expectReply ==> 0 < retries && Waiting(retries)
          invariant !expectReply ==> retries == 0 && Finished(reply)
          decreases expectReply, retries, !received
        {
          polls := polls + 1;
          if HasInput() {
            reply := net(server).text;
            received := true;
            if reply != "" {
              expectReply := false;
              retries := 0;
            }
          } else {
            retries := retries - 1;
            if retries == 0 {
              reply := NO_RESPONSE;
              expectReply := false;
            } else {
              server, received := server + 1, false;
              sends := sends + [server];
            }
          }
        }
      }
    }

    /** One request has been sent from each socket up to the one in use; none before it was answered, and what was
        received from this one was empty. */
    ghost predicate Waiting(retries: nat)
      reads this
    {
      && retries + server == REQUEST_RETRIES && |sends| == server + 1
      && (forall i :: 0 <= i < |sends| ==> sends[i] == i)
      && (forall i: nat :: i < server ==> !Answers(net(i)))
      && (received ==> !Answers(net(server)))
      && polls <= 2 * server + (if received then 1 else 0)
    }

    ghost predicate Finished(reply: string)
      reads this
    {
      && server < REQUEST_RETRIES && |sends| == server + 1
      && (forall i :: 0 <= i < |sends| ==> sends[i] == i)
      && (forall i: nat :: i < server ==> !Answers(net(i)))
      && polls <= 2 * server + 2
      && (if Answers(net(server)) then reply == net(server).text
          else server == REQUEST_RETRIES - 1 && reply == NO_RESPONSE)
    }
  }

  /** Either some request within the limit is the first answered, or none is answered: the two cases of PirateSend
      leave nothing out. */
  lemma {:induction false} AnsweredOrNot(net: nat -> Outcome, limit: nat)
    ensures (exists k: nat :: k < limit && FirstAnswer(net, k)) || (forall k: nat :: k < limit ==> !Answers(net(k)))
  {
    if limit > 0 {
      AnsweredOrNot(net, limit - 1);
      if forall k: nat :: k < limit - 1 ==> !Answers(net(k)) {
        if Answers(net(limit - 1)) {
          assert FirstAnswer(net, limit - 1);
        }
      }
    }
  }
}
