/** The KNXnet/IP tunnelling client: one command is delivered by the fixed
    exchange connect, connection-state, tunnelling, disconnect (KNX
    Standard volume 3 part 8, chapters 3/8/2 Core and 3/8/4 Tunnelling).
    The frame codec lives in a module that is not part of this model, so
    frames are abstract values and the UDP socket is a trace of sent and
    received frames. */
module Knx {
  import opened Results
  import opened Text

  /** An IP address and UDP port. */
  datatype Endpoint = Endpoint(ip: string, port: int)

  /** The endpoint the client advertises for both control and data: the
      unspecified address, which lets the gateway answer through NAT. */
  const Unspecified: Endpoint := Endpoint("0.0.0.0", 0)

  /** A three-level group address as the frame codec parses it. */
  datatype GroupAddress = GroupAddress(mainGroup: int, middleGroup: int, subGroup: int)

  /** The service types of the exchange. */
  datatype ServiceType =
    | ConnectionRequestType | ConnectionResponseType
    | ConnectionStateRequestType | ConnectionStateResponseType
    | TunnellingRequestType | TunnellingAckType
    | DisconnectRequestType | DisconnectResponseType

  /** A frame the client builds and sends, with the fields it gives the codec. */
  datatype Request =
    | ConnectionRequest(control: Endpoint, dataEndpoint: Endpoint)
    | ConnectionStateRequest(channelId: int, control: Endpoint)
    | TunnellingRequest(dest: GroupAddress, channelId: int, data: int, dataSize: int)
    | DisconnectRequest(channelId: int, control: Endpoint)

  /** A decoded frame the client receives. The client reads nothing of a
      reply except the `channel_id` of the first one. */
  datatype Reply = Reply(service: ServiceType, channelId: int, status: int)

  datatype Event = Sent(to: Endpoint, frame: Request) | Received(reply: Reply)

  /** A run of the exchange: the socket events in order, and whether the run
      got its fourth reply. A run that is short of replies stays blocked in
      its receive for ever, since no timeout is set. */
  datatype Run = Run(events: seq<Event>, completed: bool)

  /** The client's fixed configuration. The local socket is bound to port
      3672; binding is not part of this model. */
  datatype Client = Client(gateway: Endpoint, control: Endpoint, data: Endpoint)

  const DefaultGatewayIp: string := "127.0.0.1"
  const DefaultGatewayPort: int := 3671

  /** `KNXClient(ip, port)`. */
  function NewClient(ip: string, port: int): (c: Client)
    ensures c.gateway == Endpoint(ip, port)
    ensures c.control == Unspecified && c.data == Unspecified
  {
    Client(Endpoint(ip, port), Endpoint("0.0.0.0", 0), Endpoint("0.0.0.0", 0))
  }

  // The four request builders, one per `_..._request` step.

  function ConnRequest(c: Client): Request {
    ConnectionRequest(c.control, c.data)
  }

  function ConnStateRequest(c: Client, connResp: Reply): Request {
    ConnectionStateRequest(connResp.channelId, c.control)
  }

  function TunnelRequest(connResp: Reply, dest: GroupAddress, data: int, dataSize: int): Request {
    TunnellingRequest(dest, connResp.channelId, data, dataSize)
  }

  function DisconnRequest(c: Client, connResp: Reply): Request {
    DisconnectRequest(connResp.channelId, c.control)
  }

  /** The frames a complete exchange sends, stated on their own terms: the
      two advertised endpoints, then the learned channel in every later
      request, the tunnelled write carrying its arguments unchanged. */
  function Handshake(c: Client, channelId: int, dest: GroupAddress, data: int, dataSize: int): seq<Request> {
    [ ConnectionRequest(c.control, c.data),
      ConnectionStateRequest(channelId, c.control),
      TunnellingRequest(dest, channelId, data, dataSize),
      DisconnectRequest(channelId, c.control) ]
  }

  /** The sent frames of a trace, in order. */
  function SentFrames(events: seq<Event>): seq<Request> {
    if |events| == 0 then []
    else (if events[0].Sent? then [events[0].frame] else []) + SentFrames(events[1..])
  }

  /** The received replies of a trace, in order. */
  function ReceivedReplies(events: seq<Event>): seq<Reply> {
    if |events| == 0 then []
    else (if events[0].Received? then [events[0].reply] else []) + ReceivedReplies(events[1..])
  }

  /** Strict request/reply alternation starting with a send: every send is
      followed by exactly one receive before the next send. */
  predicate Alternates(events: seq<Event>)
    decreases |events|
  {
    if |events| == 0 then true
    else if |events| == 1 then events[0].Sent?
    else events[0].Sent? && events[1].Received? && Alternates(events[2..])
  }

  /** Every frame of the trace goes to the same peer. */
  predicate AllSentTo(events: seq<Event>, to: Endpoint) {
    forall i :: 0 <= i < |events| && events[i].Sent? ==> events[i].to == to
  }

  /** The trace of sending `requests` in turn to `to`, waiting after each for
      the next of `replies`; it stops after the send whose reply is missing. */
  function Exchange(to: Endpoint, requests: seq<Request>, replies: seq<Reply>): (events: seq<Event>)
    requires |replies| <= |requests|
    decreases |requests|
  {
    if |requests| == 0 then []
    else if |replies| == 0 then [Sent(to, requests[0])]
    else [Sent(to, requests[0])] + ([Received(replies[0])] + Exchange(to, requests[1..], replies[1..]))
  }

  /** An exchange sends exactly its requests, takes exactly its replies,
      alternates sends and receives starting with a send, and sends every
      frame to the one peer, when it has a reply for every request or for
      all but the last one. */
  lemma ExchangeShape(to: Endpoint, requests: seq<Request>, replies: seq<Reply>)
    requires |replies| <= |requests| <= |replies| + 1
    ensures var e := Exchange(to, requests, replies);
      && SentFrames(e) == requests
      && ReceivedReplies(e) == replies
      && Alternates(e)
      && AllSentTo(e, to)
      && |e| == |requests| + |replies|
  {
    ExchangeTraffic(to, requests, replies);
    ExchangeForm(to, requests, replies);
  }

  lemma ExchangeTraffic(to: Endpoint, requests: seq<Request>, replies: seq<Reply>)
    requires |replies| <= |requests| <= |replies| + 1
    ensures SentFrames(Exchange(to, requests, replies)) == requests
    ensures ReceivedReplies(Exchange(to, requests, replies)) == replies
  {
    ExchangeSent(to, requests, replies);
    ExchangeReceived(to, requests, replies);
  }

  /** One request/reply round at the front of a trace. */
  lemma FilterRound(to: Endpoint, request: Request, reply: Reply, rest: seq<Event>)
    ensures SentFrames([Sent(to, request)] + ([Received(reply)] + rest)) == [request] + SentFrames(rest)
    ensures ReceivedReplies([Sent(to, request)] + ([Received(reply)] + rest)) == [reply] + ReceivedReplies(rest)
  {
    var tail := [Received(reply)] + rest;
    var e := [Sent(to, request)] + tail;
    assert e[1..] == tail && tail[1..] == rest;
  }

  lemma {:induction false} ExchangeSent(to: Endpoint, requests: seq<Request>, replies: seq<Reply>)
    requires |replies| <= |requests| <= |replies| + 1
    ensures SentFrames(Exchange(to, requests, replies)) == requests
    decreases |requests|
  {
    if |requests| > 0 {
      if |replies| == 0 {
        assert SentFrames([Sent(to, requests[0])]) == [requests[0]] + SentFrames([]);
      } else {
        ExchangeSent(to, requests[1..], replies[1..]);
        FilterRound(to, requests[0], replies[0], Exchange(to, requests[1..], replies[1..]));
        assert requests == [requests[0]] + requests[1..];
      }
    }
  }

  lemma {:induction false} ExchangeReceived(to: Endpoint, requests: seq<Request>, replies: seq<Reply>)
    requires |replies| <= |requests| <= |replies| + 1
    ensures ReceivedReplies(Exchange(to, requests, replies)) == replies
    decreases |requests|
  {
    if |requests| > 0 {
      if |replies| == 0 {
        assert ReceivedReplies([Sent(to, requests[0])]) == [] + ReceivedReplies([]);
      } else {
        ExchangeReceived(to, requests[1..], replies[1..]);
        FilterRound(to, requests[0], replies[0], Exchange(to, requests[1..], replies[1..]));
        assert replies == [replies[0]] + replies[1..];
      }
    }
  }

  lemma {:induction false} ExchangeForm(to: Endpoint, requests: seq<Request>, replies: seq<Reply>)
    requires |replies| <= |requests| <= |replies| + 1
    ensures var e := Exchange(to, requests, replies);
      Alternates(e) && AllSentTo(e, to) && |e| == |requests| + |replies|
    decreases |requests|
  {
    var e := Exchange(to, requests, replies);
    if |requests| > 0 && |replies| > 0 {
      var rest := Exchange(to, requests[1..], replies[1..]);
      ExchangeForm(to, requests[1..], replies[1..]);
      assert e[2..] == rest;
      forall i | 2 <= i < |e| && e[i].Sent? ensures e[i].to == to {
        assert e[i] == rest[i - 2];
      }
    }
  }

  /** `send_data_to_group_addr`: the four request/reply steps in order. The
      `inbox` holds the decoded replies the gateway sends back, in the order
      they arrive; the run stops, blocked, at the first receive that has no
      reply left to take. */
  function SendDataToGroupAddr(c: Client, dest: GroupAddress, data: int, dataSize: int, inbox: seq<Reply>)
    : (run: Run)
    ensures run.completed <==> |inbox| >= 4
  {
    var connReq := Sent(c.gateway, ConnRequest(c));
    if |inbox| == 0 then Run([connReq], false)
    else
      var connResp := inbox[0];
      var t1 := [connReq, Received(connResp), Sent(c.gateway, ConnStateRequest(c, connResp))];
      if |inbox| == 1 then Run(t1, false)
      else
        var t2 := t1 + [Received(inbox[1]), Sent(c.gateway, TunnelRequest(connResp, dest, data, dataSize))];
        if |inbox| == 2 then Run(t2, false)
        else
          var t3 := t2 + [Received(inbox[2]), Sent(c.gateway, DisconnRequest(c, connResp))];
          if |inbox| == 3 then Run(t3, false)
          else Run(t3 + [Received(inbox[3])], true)
  }

  /** The run is the exchange of a prefix of the handshake, whose channel is
      the one the first reply carries: one request more than the replies it
      has taken while blocked, all four requests and four replies when
      complete. */
  lemma RunIsExchange(c: Client, dest: GroupAddress, data: int, dataSize: int, inbox: seq<Reply>)
    requires |inbox| >= 1
    ensures var run := SendDataToGroupAddr(c, dest, data, dataSize, inbox);
      var n := if |inbox| < 4 then |inbox| else 4;
      var m := if run.completed then n else n + 1;
      run.events == Exchange(c.gateway, Handshake(c, inbox[0].channelId, dest, data, dataSize)[..m], inbox[..n])
  {
    var h := Handshake(c, inbox[0].channelId, dest, data, dataSize);
    if |inbox| == 1 {
      OneReplyRun(c, dest, data, dataSize, inbox);
      assert inbox[..1] == inbox;
    } else if |inbox| == 2 {
      TwoReplyRun(c, dest, data, dataSize, inbox);
      assert inbox[..2] == inbox;
    } else if |inbox| == 3 {
      ThreeReplyRun(c, dest, data, dataSize, inbox);
      assert inbox[..3] == inbox && h[..4] == h;
    } else {
      CompletedRun(c, dest, data, dataSize, inbox);
      assert h[..4] == h;
    }
  }

  lemma OneReplyRun(c: Client, dest: GroupAddress, data: int, dataSize: int, inbox: seq<Reply>)
    requires |inbox| == 1
    ensures SendDataToGroupAddr(c, dest, data, dataSize, inbox).events
         == Exchange(c.gateway, Handshake(c, inbox[0].channelId, dest, data, dataSize)[..2], inbox)
  {
    var h := Handshake(c, inbox[0].channelId, dest, data, dataSize)[..2];
    var g := c.gateway;
    assert h[1..] == [h[1]] && inbox[1..] == [];
    assert Exchange(g, h, inbox) == [Sent(g, h[0])] + ([Received(inbox[0])] + [Sent(g, h[1])]);
  }

  lemma TwoReplyRun(c: Client, dest: GroupAddress, data: int, dataSize: int, inbox: seq<Reply>)
    requires |inbox| == 2
    ensures SendDataToGroupAddr(c, dest, data, dataSize, inbox).events
         == Exchange(c.gateway, Handshake(c, inbox[0].channelId, dest, data, dataSize)[..3], inbox)
  {
    var h := Handshake(c, inbox[0].channelId, dest, data, dataSize)[..3];
    var g := c.gateway;
    assert h[1..][1..] == [h[2]] && inbox[1..][1..] == [];
    assert Exchange(g, h[1..][1..], inbox[1..][1..]) == [Sent(g, h[2])];
    var e1 := Exchange(g, h[1..], inbox[1..]);
    assert e1 == [Sent(g, h[1])] + ([Received(inbox[1])] + [Sent(g, h[2])]);
    assert Exchange(g, h, inbox) == [Sent(g, h[0])] + ([Received(inbox[0])] + e1);
  }

  lemma ThreeReplyRun(c: Client, dest: GroupAddress, data: int, dataSize: int, inbox: seq<Reply>)
    requires |inbox| == 3
    ensures SendDataToGroupAddr(c, dest, data, dataSize, inbox).events
         == Exchange(c.gateway, Handshake(c, inbox[0].channelId, dest, data, dataSize), inbox)
  {
    var h := Handshake(c, inbox[0].channelId, dest, data, dataSize);
    var g := c.gateway;
    assert h[1..][1..] == h[2..] && h[2..][1..] == [h[3]];
    assert inbox[1..][1..] == inbox[2..] && inbox[2..][1..] == [];
    assert Exchange(g, h[2..][1..], inbox[2..][1..]) == [Sent(g, h[3])];
    var e2 := Exchange(g, h[2..], inbox[2..]);
    assert e2 == [Sent(g, h[2])] + ([Received(inbox[2])] + [Sent(g, h[3])]);
    var e1 := Exchange(g, h[1..], inbox[1..]);
    assert e1 == [Sent(g, h[1])] + ([Received(inbox[1])] + e2);
    assert Exchange(g, h, inbox) == [Sent(g, h[0])] + ([Received(inbox[0])] + e1);
  }

  lemma CompletedRun(c: Client, dest: GroupAddress, data: int, dataSize: int, inbox: seq<Reply>)
    requires |inbox| >= 4
    ensures SendDataToGroupAddr(c, dest, data, dataSize, inbox).events
         == Exchange(c.gateway, Handshake(c, inbox[0].channelId, dest, data, dataSize), inbox[..4])
  {
    var h := Handshake(c, inbox[0].channelId, dest, data, dataSize);
    var g := c.gateway;
    var r := inbox[..4];
    assert h[1..][1..] == h[2..] && h[2..][1..] == h[3..] && h[3..][1..] == [];
    assert r[1..][1..] == r[2..] && r[2..][1..] == r[3..] && r[3..][1..] == [];
    assert Exchange(g, h[3..][1..], r[3..][1..]) == [];
    var e3 := Exchange(g, h[3..], r[3..]);
    assert e3 == [Sent(g, h[3])] + ([Received(r[3])] + []);
    var e2 := Exchange(g, h[2..], r[2..]);
    assert e2 == [Sent(g, h[2])] + ([Received(r[2])] + e3);
    var e1 := Exchange(g, h[1..], r[1..]);
    assert e1 == [Sent(g, h[1])] + ([Received(r[1])] + e2);
    assert Exchange(g, h, r) == [Sent(g, h[0])] + ([Received(r[0])] + e1);
  }

  /** What a run puts on the socket: a prefix of the handshake, one request
      more than the replies taken while blocked and all four requests once
      the fourth reply has arrived; every request goes to the gateway; sends
      and receives alternate, starting with a send; the replies are taken in
      arrival order. The channel in every request after the first is the one
      the first reply carries. */
  lemma RunShape(c: Client, dest: GroupAddress, data: int, dataSize: int, inbox: seq<Reply>)
    ensures var run := SendDataToGroupAddr(c, dest, data, dataSize, inbox);
      var n := if |inbox| < 4 then |inbox| else 4;
      var m := if run.completed then n else n + 1;
      var channelId := if |inbox| > 0 then inbox[0].channelId else 0;
      && SentFrames(run.events) == Handshake(c, channelId, dest, data, dataSize)[..m]
      && ReceivedReplies(run.events) == inbox[..n]
      && Alternates(run.events)
      && AllSentTo(run.events, c.gateway)
  {
    var run := SendDataToGroupAddr(c, dest, data, dataSize, inbox);
    if |inbox| == 0 {
      var h := Handshake(c, 0, dest, data, dataSize);
      assert run.events == Exchange(c.gateway, h[..1], []);
      ExchangeShape(c.gateway, h[..1], []);
    } else {
      var h := Handshake(c, inbox[0].channelId, dest, data, dataSize);
      var n := if |inbox| < 4 then |inbox| else 4;
      var m := if run.completed then n else n + 1;
      RunIsExchange(c, dest, data, dataSize, inbox);
      ExchangeShape(c.gateway, h[..m], inbox[..n]);
    }
  }

  /** A complete run sends exactly the four requests, in order. */
  lemma CompletedRunSendsFour(c: Client, dest: GroupAddress, data: int, dataSize: int, inbox: seq<Reply>)
    requires |inbox| >= 4
    ensures var sent := SentFrames(SendDataToGroupAddr(c, dest, data, dataSize, inbox).events);
      && |sent| == 4
      && sent[0].ConnectionRequest? && sent[1].ConnectionStateRequest?
      && sent[2].TunnellingRequest? && sent[3].DisconnectRequest?
      && sent[1].channelId == sent[2].channelId == sent[3].channelId == inbox[0].channelId
      && sent[2].dest == dest && sent[2].data == data && sent[2].dataSize == dataSize
  {
    RunShape(c, dest, data, dataSize, inbox);
  }

  /** The frames sent depend on the replies only through the `channel_id` of
      the connection response and the number of replies: the kinds and
      statuses of the replies, and every later reply's channel, are never
      inspected. */
  lemma SentDependsOnlyOnChannel(c: Client, dest: GroupAddress, data: int, dataSize: int,
                                 inbox1: seq<Reply>, inbox2: seq<Reply>)
    requires |inbox1| >= 1 && |inbox2| >= 1
    requires (if |inbox1| < 4 then |inbox1| else 4) == (if |inbox2| < 4 then |inbox2| else 4)
    requires inbox1[0].channelId == inbox2[0].channelId
    ensures SentFrames(SendDataToGroupAddr(c, dest, data, dataSize, inbox1).events)
         == SentFrames(SendDataToGroupAddr(c, dest, data, dataSize, inbox2).events)
  {
    RunShape(c, dest, data, dataSize, inbox1);
    RunShape(c, dest, data, dataSize, inbox2);
  }

  // The command-line entry point.

  /** How the command line ends. `Raised` stands for an exception from the
      group-address parser or from `int()` of the data word. */
  datatype CliOutcome =
    | Usage
    | UnsupportedDestination
    | Raised
    | Send(dest: GroupAddress, data: int, dataSize: int)

  /** The data size the command line sends for a destination's main group:
      two bytes for main group 0, one byte for main group 1, nothing for any
      other. */
  function DataSize(mainGroup: int): (size: Option<int>)
    ensures size.Some? <==> mainGroup in {0, 1}
    ensures size.Some? ==> size.value == 2 - mainGroup
  {
    if mainGroup == 0 then Some(2)
    else if mainGroup == 1 then Some(1)
    else None
  }

  /** The `__main__` block. `parseGroupAddress` is the codec's
      `GroupAddress.from_str`, which is not part of this model; `None` stands
      for the exception it raises. */
  function CliMain(argv: seq<string>, parseGroupAddress: string -> Option<GroupAddress>): (r: CliOutcome)
    ensures r.Send? <==>
      && |argv| == 4 && argv[1] == "-a"
      && parseGroupAddress(argv[2]).Some?
      && parseGroupAddress(argv[2]).value.mainGroup in {0, 1}
      && IsIntLiteral(argv[3])
    ensures |argv| == 4 && argv[1] == "-a" && parseGroupAddress(argv[2]).None? ==> r == Raised
    ensures (|argv| == 4 && argv[1] == "-a" && parseGroupAddress(argv[2]).Some?
             && parseGroupAddress(argv[2]).value.mainGroup !in {0, 1}) ==> r == UnsupportedDestination
    ensures (|argv| == 4 && argv[1] == "-a" && parseGroupAddress(argv[2]).Some?
             && parseGroupAddress(argv[2]).value.mainGroup in {0, 1} && !IsIntLiteral(argv[3])) ==> r == Raised
    ensures r.Send? ==>
      && r.dest == parseGroupAddress(argv[2]).value
      && r.data == LiteralValue(argv[3])
      && r.dataSize == (if r.dest.mainGroup == 0 then 2 else 1)
    ensures !(|argv| >= 2 && argv[1] == "-a" && |argv| == 4) ==> r == Usage
  {
    if |argv| < 2 then Usage
    else if argv[1] == "-a" then
      if |argv| != 4 then Usage
      else match parseGroupAddress(argv[2])
        case None => Raised
        case Some(dest) =>
          match DataSize(dest.mainGroup)
          case None => UnsupportedDestination
          case Some(size) =>
            match ParseInt(argv[3])
            case None => Raised
            case Some(data) => Send(dest, data, size)
    else Usage
  }

  /** The socket trace of the whole command line: a `Send` outcome runs one
      exchange with the default gateway; every other outcome sends nothing. */
  function CliRun(argv: seq<string>, parseGroupAddress: string -> Option<GroupAddress>, inbox: seq<Reply>)
    : (events: seq<Event>)
    ensures events != [] <==> CliMain(argv, parseGroupAddress).Send?
    ensures AllSentTo(events, Endpoint(DefaultGatewayIp, DefaultGatewayPort))
    ensures var r := CliMain(argv, parseGroupAddress);
      r.Send? ==> events == SendDataToGroupAddr(NewClient(DefaultGatewayIp, DefaultGatewayPort), r.dest, r.data, r.dataSize, inbox).events
    ensures var r := CliMain(argv, parseGroupAddress);
      r.Send? && |inbox| >= 2 ==>
        |SentFrames(events)| >= 3
        && SentFrames(events)[2] == TunnellingRequest(r.dest, inbox[0].channelId, r.data, r.dataSize)
  {
    match CliMain(argv, parseGroupAddress)
    case Send(dest, data, size) =>
      var c := NewClient(DefaultGatewayIp, DefaultGatewayPort);
      RunShape(c, dest, data, size, inbox);
      SendDataToGroupAddr(c, dest, data, size, inbox).events
    case _ => []
  }
}
