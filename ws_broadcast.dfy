/** ws_broadcast: how one WebSocket session reacts to what its `select!`
    loop sees, and the hub that the `/broadcast` handler publishes to. Each
    event is the branch of `select!` that fired, with its outcome. */
module WsBroadcast {

  /** Why `rx.recv()` failed. */
  datatype RecvError = Lagged(skipped: nat) | Closed

  datatype Event =
    | Received(text: string, sendOk: bool)  // `rx.recv()` gave a message; did `socket.send` succeed?
    | RecvFailed(error: RecvError)          // `rx.recv()` gave an error
    | Inbound                               // `socket.recv()` gave `Some(Ok(_))`
    | InboundError                          // `socket.recv()` gave `Some(Err(_))`
    | InboundEnd                            // `socket.recv()` gave `None`

  datatype Reason = SendFailed | ChannelFailed(error: RecvError) | SocketFailed | SocketEnded

  datatype Action = Subscribe | SendText(text: string) | Close(reason: Reason)

  /** The events that end the loop. */
  predicate Stops(e: Event) {
    (e.Received? && !e.sendOk) || e.RecvFailed? || e.InboundError? || e.InboundEnd?
  }

  /** The loop's reaction to `events` (after subscribing). */
  function Reaction(events: seq<Event>): seq<Action>
    decreases |events|
  {
    if events == [] then []
    else
      var rest := Reaction(events[1..]);
      match events[0]
      case Received(text, ok) => [SendText(text)] + (if ok then rest else [Close(SendFailed)])
      case RecvFailed(e) => [Close(ChannelFailed(e))]
      case Inbound => rest
      case InboundError => [Close(SocketFailed)]
      case InboundEnd => [Close(SocketEnded)]
  }

  /** `client_connection`: subscribe, then react. */
  function Session(events: seq<Event>): seq<Action> {
    [Subscribe] + Reaction(events)
  }

  /** The texts of the received messages, in order. */
  function Texts(events: seq<Event>): (texts: seq<string>)
    ensures |texts| <= |events|
  {
    if events == [] then []
    else (if events[0].Received? then [events[0].text] else []) + Texts(events[1..])
  }

  /** The texts written to the socket, in order. */
  function Sent(actions: seq<Action>): (texts: seq<string>)
    ensures |texts| <= |actions|
  {
    if actions == [] then []
    else (if actions[0].SendText? then [actions[0].text] else []) + Sent(actions[1..])
  }

  lemma {:induction false} SentAppend(a: seq<Action>, b: seq<Action>)
    ensures Sent(a + b) == Sent(a) + Sent(b)
  {
    if a == [] {
      assert a + b == b;
    } else {
      assert (a + b)[0] == a[0] && (a + b)[1..] == a[1..] + b;
      SentAppend(a[1..], b);
    }
  }

  /** The reaction never subscribes again, and a close is its last action. */
  lemma {:induction false} ReactionShape(events: seq<Event>)
    ensures forall i :: 0 <= i < |Reaction(events)| ==> !Reaction(events)[i].Subscribe?
    ensures forall i :: 0 <= i < |Reaction(events)| && Reaction(events)[i].Close? ==> i == |Reaction(events)| - 1
    decreases |events|
  {
    if events != [] {
      ReactionShape(events[1..]);
    }
  }

  /** A session subscribes exactly once, first, and sends nothing after it
      closes. */
  lemma SessionShape(events: seq<Event>)
    ensures Session(events)[0] == Subscribe
    ensures forall i :: 1 <= i < |Session(events)| ==> !Session(events)[i].Subscribe?
    ensures forall i :: 0 <= i < |Session(events)| && Session(events)[i].Close? ==> i == |Session(events)| - 1
  {
    ReactionShape(events);
    var r := Reaction(events);
    assert forall i :: 1 <= i < |Session(events)| ==> Session(events)[i] == r[i - 1];
  }

  /** Up to the first event that ends the loop, every received message is
      sent, in order, and the session then closes: a lag or a closed
      channel ends it, with no skipping forward. */
  lemma {:induction false} SentUpToFirstStop(events: seq<Event>, k: int)
    requires 0 <= k < |events| && Stops(events[k])
    requires forall j :: 0 <= j < k ==> !Stops(events[j])
    ensures Sent(Reaction(events)) == Texts(events[..k + 1])
    ensures Reaction(events) != [] && Reaction(events)[|Reaction(events)| - 1].Close?
    decreases |events|
  {
    var rest := Reaction(events[1..]);
    if k == 0 {
      assert events[..1] == [events[0]];
      assert Texts(events[..1]) == (if events[0].Received? then [events[0].text] else []) + Texts([]);
      match events[0]
      case Received(text, ok) =>
        SentAppend([SendText(text)], [Close(SendFailed)]);
      case RecvFailed(e) =>
      case InboundError =>
      case InboundEnd =>
    } else {
      SentUpToFirstStop(events[1..], k - 1);
      assert events[1..][..k] == events[1..k + 1];
      assert events[..k + 1][1..] == events[1..k + 1];
      match events[0]
      case Received(text, ok) =>
        SentAppend([SendText(text)], rest);
      case Inbound =>
    }
  }

  /** Without an ending event every received message is sent, in order. */
  lemma {:induction false} SentAllWithoutStop(events: seq<Event>)
    requires forall j :: 0 <= j < |events| ==> !Stops(events[j])
    ensures Sent(Reaction(events)) == Texts(events)
    ensures forall i :: 0 <= i < |Reaction(events)| ==> Reaction(events)[i].SendText?
    decreases |events|
  {
    if events != [] {
      SentAllWithoutStop(events[1..]);
      match events[0]
      case Received(text, ok) =>
        SentAppend([SendText(text)], Reaction(events[1..]));
      case Inbound =>
    }
  }

  /** The session loop, event by event, stopping at the first `break`. */
  method ClientConnection(events: seq<Event>) returns (actions: seq<Action>)
    ensures actions == Session(events)
  {
    actions := [Subscribe];
    var i := 0;
    while i < |events|
      invariant 0 <= i <= |events|
      invariant actions + Reaction(events[i..]) == Session(events)
    {
      assert events[i..][1..] == events[i + 1..];
      match events[i] {
        case Received(text, ok) =>
          actions := actions + [SendText(text)];
          if !ok {
            actions := actions + [Close(SendFailed)];
            return;
          }
        case RecvFailed(e) =>
          actions := actions + [Close(ChannelFailed(e))];
          return;
        case Inbound =>
        case InboundError =>
          actions := actions + [Close(SocketFailed)];
          return;
        case InboundEnd =>
          actions := actions + [Close(SocketEnded)];
          return;
      }
      i := i + 1;
    }
    assert events[i..] == [];
  }

  /** The sending side of the channel as the `/broadcast` handler sees it. */
  class Hub {
    /** live receivers, one per open session */
    var receivers: nat
    /** the messages that entered the channel */
    var log: seq<string>

    constructor ()
      ensures receivers == 0 && log == []
    {
      receivers := 0;
      log := [];
    }

    /** `tx.subscribe()`: the new receiver starts at the current end. */
    method Subscribe() returns (cursor: nat)
      modifies this
      ensures receivers == old(receivers) + 1 && log == old(log)
      ensures cursor == |log|
    {
      receivers := receivers + 1;
      cursor := |log|;
    }

    /** A session ended and dropped its receiver. */
    method Unsubscribe()
      requires receivers > 0
      modifies this
      ensures receivers == old(receivers) - 1 && log == old(log)
    {
      receivers := receivers - 1;
    }

    /** `broadcast`: a send with no receiver fails and keeps nothing, but the
        failure is ignored and the answer is always "ok". */
    method Publish(message: string) returns (reply: string)
      modifies this
      ensures reply == "ok"
      ensures log == old(log) + (if old(receivers) > 0 then [message] else [])
      ensures receivers == old(receivers)
    {
      if receivers > 0 {
        log := log + [message];
      }
      reply := "ok";
    }
  }
}
