/** The network engine (network.py): the wire encoding of an outgoing chat
    message and the life cycle of the UDP engine. The socket and the thread are
    an oracle: each call that touches them is told whether the operating
    system lets it succeed, and the listen loop is given the outcomes of its
    successive receives. */
module Network {
  import opened Text
  import Config

  /** The delimiter written between the sender and the message. */
  const Separator: string := ": "

  /** The payload `broadcast` sends: the node id, the separator, then the
      message, with nothing added or cut off. */
  function Encode(nodeId: string, message: string): (payload: string)
    ensures |payload| == |nodeId| + |Separator| + |message|
    ensures payload[..|nodeId|] == nodeId
    ensures OccursAt(payload, Separator, |nodeId|)
    ensures payload[|nodeId| + |Separator|..] == message
  {
    nodeId + Separator + message
  }

  /** A datagram handed to `sendto`. */
  datatype Datagram = Datagram(payload: string, host: string, port: nat)

  /** The arguments of one call of the delivery callback: the decoded text and
      the sender's IP address. */
  datatype Packet = Packet(text: string, addr: string)

  /** What one `recvfrom` plus UTF-8 decode yields: a packet, or an exception
      (the receive failed, or the bytes were not valid UTF-8). */
  datatype RecvOutcome = Received(packet: Packet) | RecvFailed | DecodeFailed

  /** The callbacks a listen loop makes for a run of receive outcomes: one per
      received packet, in arrival order, up to the first failure and nothing
      after it. */
  function Accepted(script: seq<RecvOutcome>): (calls: seq<Packet>)
    ensures |calls| <= |script|
    ensures forall i {:trigger calls[i]} :: 0 <= i < |calls| ==> script[i] == Received(calls[i])
    ensures |calls| < |script| ==> !script[|calls|].Received?
  {
    if script == [] then []
    else match script[0]
      case Received(p) => [p] + Accepted(script[1..])
      case _ => []
  }

  /** A failure ends reception for good: whatever arrives afterwards is never
      delivered. */
  lemma {:induction false} NoRetryAfterFailure(script: seq<RecvOutcome>, later: seq<RecvOutcome>)
    requires |Accepted(script)| < |script|
    ensures Accepted(script + later) == Accepted(script)
  {
    assert script != [];
    if script[0].Received? {
      assert (script + later)[1..] == script[1..] + later;
      NoRetryAfterFailure(script[1..], later);
    }
  }

  /** Receptions that all succeed are delivered, and the loop carries on with
      whatever comes next. */
  lemma {:induction false} AcceptedConcat(script: seq<RecvOutcome>, later: seq<RecvOutcome>)
    requires |Accepted(script)| == |script|
    ensures Accepted(script + later) == Accepted(script) + Accepted(later)
  {
    if script == [] {
      assert script + later == later;
    } else {
      var p := Accepted(script)[0];
      var rest := script[1..];
      assert script[0] == Received(p);
      assert (script + later)[0] == Received(p);
      assert (script + later)[1..] == rest + later;
      AcceptedConcat(rest, later);
      calc {
        Accepted(script + later);
        [p] + Accepted(rest + later);
        [p] + (Accepted(rest) + Accepted(later));
        ([p] + Accepted(rest)) + Accepted(later);
        Accepted(script) + Accepted(later);
      }
    }
  }

  /** The engine of network.py, with the socket reduced to its observable
      state: open or closed, bound or not, and the datagrams sent through it. */
  class AkonNetwork {
    /** The flag the listen loop tests before every receive. */
    var running: bool
    /** The socket has not been closed. */
    var sockOpen: bool
    /** The socket has a local address: bound to the chat port by `Start`,
        or to an ephemeral port by the first send through it. */
    var bound: bool
    /** `start()` has been called on the listener thread. */
    var threadStarted: bool
    /** The listener thread has started and not yet finished. */
    var threadAlive: bool
    /** Every datagram that `sendto` accepted, oldest first. */
    var sent: seq<Datagram>
    /** Every call of the delivery callback, oldest first. */
    var callbacks: seq<Packet>

    /** A thread runs only once started, and is started only after the bind. */
    ghost predicate Valid()
      reads this
    {
      (threadAlive ==> threadStarted) && (threadStarted ==> bound)
    }

    /** Creates the socket and the (unstarted) listener thread; `running` is
        already set, but nothing is received until `Start`. */
    constructor ()
      ensures Valid()
      ensures running && sockOpen
      ensures !bound && !threadStarted && !threadAlive
      ensures sent == [] && callbacks == []
    {
      running := true;
      sockOpen := true;
      bound := false;
      threadStarted := false;
      threadAlive := false;
      sent := [];
      callbacks := [];
    }

    /** A call of `Start` with these system answers would succeed. */
    predicate StartSucceeds(bindOk: bool, threadOk: bool)
      reads this
    {
      sockOpen && !bound && bindOk && threadOk
    }

    /** Binds the socket, then starts the listener thread; answers whether
        both happened. Binding a closed or already bound socket raises, as
        does a bind or thread start the system refuses (`bindOk`,
        `threadOk`); every exception becomes `false`. A bind that succeeded
        stays in effect when the thread then fails to start. */
    method Start(bindOk: bool, threadOk: bool) returns (ok: bool)
      requires Valid()
      modifies this
      ensures Valid()
      ensures ok == old(StartSucceeds(bindOk, threadOk))
      ensures bound == (old(bound) || (old(sockOpen) && bindOk))
      ensures threadStarted == (old(threadStarted) || ok)
      ensures threadAlive == (old(threadAlive) || ok)
      ensures running == old(running) && sockOpen == old(sockOpen)
      ensures sent == old(sent) && callbacks == old(callbacks)
    {
      if !sockOpen || bound || !bindOk {
        return false;
      }
      bound := true;
      if !threadOk {
        return false;
      }
      threadStarted := true;
      threadAlive := true;
      return true;
    }

    /** Sends `nodeId: message` to the broadcast address and answers whether
        `sendto` accepted it. A closed socket, or a send the system refuses
        (`sendOk`), raises, and the exception becomes `false`. A send through
        an open socket that has no local address first binds it to an
        ephemeral port, whether or not the send then succeeds, so a later
        `Start` finds the socket bound. */
    method Broadcast(nodeId: string, message: string, sendOk: bool) returns (ok: bool)
      requires Valid()
      modifies this
      ensures Valid()
      ensures ok == (old(sockOpen) && sendOk)
      ensures sent == old(sent) + if ok then [Datagram(Encode(nodeId, message), Config.BroadcastAddr, Config.UdpPort)] else []
      ensures bound == (old(bound) || old(sockOpen))
      ensures running == old(running) && sockOpen == old(sockOpen)
      ensures threadStarted == old(threadStarted) && threadAlive == old(threadAlive)
      ensures callbacks == old(callbacks)
    {
      var payload := Encode(nodeId, message);
      if !sockOpen {
        return false;
      }
      bound := true;
      if !sendOk {
        return false;
      }
      sent := sent + [Datagram(payload, Config.BroadcastAddr, Config.UdpPort)];
      return true;
    }

    /** The listener thread's loop, run against the outcomes of its receives.
        While `running` holds it receives and calls back once per packet; the
        first exception (a closed socket, a failed receive, bytes that are not
        UTF-8) ends the loop and the thread. When the script runs out without
        a failure the thread is still alive, blocked in the next receive. */
    method ListenLoop(script: seq<RecvOutcome>)
      requires Valid() && threadAlive
      modifies this
      ensures Valid()
      ensures callbacks == old(callbacks) + if running && sockOpen then Accepted(script) else []
      ensures threadAlive == (running && sockOpen && |Accepted(script)| == |script|)
      ensures running == old(running) && sockOpen == old(sockOpen) && bound == old(bound)
      ensures threadStarted == old(threadStarted) && sent == old(sent)
    {
      var i := 0;
      while running
        invariant 0 <= i <= |script|
        invariant running == old(running) && sockOpen == old(sockOpen) && bound == old(bound)
        invariant threadStarted == old(threadStarted) && threadAlive && sent == old(sent)
        invariant |Accepted(script[..i])| == i
        invariant callbacks == old(callbacks) + Accepted(script[..i])
        invariant !running || !sockOpen ==> i == 0
        decreases |script| - i
      {
        if !sockOpen {
          break;
        }
        if i == |script| {
          assert script[..i] == script;
          return;
        }
        assert script == script[..i] + script[i..];
        AcceptedConcat(script[..i], script[i..]);
        match script[i]
        case Received(p) =>
          assert script[..i + 1] == script[..i] + [script[i]];
          AcceptedConcat(script[..i], [script[i]]);
          callbacks := callbacks + [p];
          i := i + 1;
        case _ =>
          break;
      }
      assert i == 0 ==> script[..i] == [];
      threadAlive := false;
    }

    /** Clears `running` and closes the socket. */
    method Stop()
      requires Valid()
      modifies this
      ensures Valid()
      ensures !running && !sockOpen
      ensures bound == old(bound) && threadStarted == old(threadStarted) && threadAlive == old(threadAlive)
      ensures sent == old(sent) && callbacks == old(callbacks)
    {
      running := false;
      sockOpen := false;
    }
  }
}
