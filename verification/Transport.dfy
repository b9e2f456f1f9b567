/**
 What one endpoint does with one event, as functions on packet-level state
 (handle_request, handle_response, __r2p2_send_req, __r2p2_send_response, timer_triggered).
 The class in Endpoint.dfy carries these out on buffers, pools and sockets.
 */
module Transport {
  import opened Collections
  import opened Wire

  /** One more packet than the application's iovec table can take. */
  const TOO_MANY := 0xFF
  const ERR_NO_SOCKET := 1
  const ERR_DROP_MSG := 2
  /** The port of the socket on which requests arrive and from which servers answer. */
  const SERVER_PORT := 8000

  datatype Addr = Addr(host: int, port: int)

  datatype ClientState = WAck | WResponse

  datatype ClientPair = ClientPair(
    token: int,  // which call of r2p2_send_req this is
    port: int, rid: uint16, request: seq<Packet>, reply: seq<Packet>,
    expected: uint16, received: uint16, state: ClientState)

  datatype ServerPair = ServerPair(
    sender: Addr, rid: uint16, request: seq<Packet>, expected: uint16, received: uint16)

  /** Pending pairs in list order, requests the application is working on, and the last request id. */
  datatype Endpoint = Endpoint(
    clients: seq<ClientPair>, servers: seq<ServerPair>, app: map<int, ServerPair>, rid: uint16)

  datatype Completion = Success(reply: seq<Packet>) | Failure(code: int) | TimedOut

  datatype Effect =
    | Nothing
    | Send(port: int, dst: Addr, pkts: seq<Packet>)
    | Hand(handle: int, pair: ServerPair)
    | Complete(token: int, outcome: Completion)

  datatype Failed = WrongState | WrongKind | AppTableFull

  datatype Outcome = Ok(e: Endpoint, effect: Effect) | AssertFails(why: Failed)

  function Inc16(n: uint16): uint16 { (n + 1) % 0x1_0000 }

  /** Index of the first pending client pair on this port with this request id, or the length of the list. */
  function FindClient(cs: seq<ClientPair>, port: int, rid: uint16): (i: nat)
    ensures i <= |cs|
    ensures i < |cs| ==> cs[i].port == port && cs[i].rid == rid
    ensures forall j :: 0 <= j < i ==> !(cs[j].port == port && cs[j].rid == rid)
  {
    if cs == [] || (cs[0].port == port && cs[0].rid == rid) then 0
    else 1 + FindClient(cs[1..], port, rid)
  }

  function FindServer(ss: seq<ServerPair>, sender: Addr, rid: uint16): (i: nat)
    ensures i <= |ss|
    ensures i < |ss| ==> ss[i].sender == sender && ss[i].rid == rid
    ensures forall j :: 0 <= j < i ==> !(ss[j].sender == sender && ss[j].rid == rid)
  {
    if ss == [] || (ss[0].sender == sender && ss[0].rid == rid) then 0
    else 1 + FindServer(ss[1..], sender, rid)
  }

  function FindPort(cs: seq<ClientPair>, port: int): (i: nat)
    ensures i <= |cs|
    ensures i < |cs| ==> cs[i].port == port
    ensures forall j :: 0 <= j < i ==> cs[j].port != port
  {
    if cs == [] || cs[0].port == port then 0 else 1 + FindPort(cs[1..], port)
  }

  /** One-packet control message. */
  function Control(typ: MsgType, rid: uint16, body: seq<byte>): Packet {
    Packet(Header(typ, FixedRoute, true, true, rid, 1), body)
  }

  function AckPacket(rid: uint16): Packet { Control(Ack, rid, [65, 67, 75]) }

  function DropPacket(rid: uint16): Packet { Control(Drop, rid, [68, 82, 79, 80]) }

  // ----- the client half -----

  /** r2p2_send_req; no port means the socket pool is exhausted, and then nothing is framed. */
  function SendRequest(e: Endpoint, token: int, port: Option<int>, dst: Addr, pkts: seq<Packet>): Outcome
    requires port.Some? ==> pkts != []
  {
    if port.None? then Ok(e, Complete(token, Failure(-ERR_NO_SOCKET)))
    else
      var rid := Inc16(e.rid);
      var cp := ClientPair(token, port.value, rid, pkts, [], 0, 0, if |pkts| == 1 then WResponse else WAck);
      Ok(e.(clients := e.clients + [cp], rid := rid), Send(port.value, dst, [pkts[0]]))
  }

  /** Counting a reply packet in; None when it is out of order. */
  function CountIn(cp: ClientPair, p: Packet): Option<ClientPair> {
    var cp1 := cp.(reply := cp.reply + [p]);
    if p.header.first then Some(cp1.(expected := p.header.order, received := 1))
    else if p.header.order != cp.received then None
    else Some(cp1.(received := Inc16(cp.received)))
  }

  function HandleReply(e: Endpoint, i: nat, p: Packet): Outcome
    requires i < |e.clients|
  {
    var cp := e.clients[i];
    var gone := e.(clients := Without(e.clients, i));
    if cp.state != WResponse then AssertFails(WrongState)
    else
      var counted := CountIn(cp, p);
      if counted.None? then Ok(gone, Complete(cp.token, Failure(-1)))
      else if !p.header.last then Ok(e.(clients := e.clients[i := counted.value]), Nothing)
      else if counted.value.received != counted.value.expected then Ok(gone, Complete(cp.token, Failure(-1)))
      else if |counted.value.reply| >= TOO_MANY then AssertFails(AppTableFull)
      else Ok(gone, Complete(cp.token, Success(counted.value.reply)))
  }

  function HandleAck(e: Endpoint, i: nat, p: Packet, src: Addr): Outcome
    requires i < |e.clients|
  {
    var cp := e.clients[i];
    if cp.state != WAck || |p.body| != 3 || cp.request == [] then AssertFails(WrongState)
    else Ok(e.(clients := e.clients[i := cp.(state := WResponse)]), Send(cp.port, src, cp.request[1..]))
  }

  function HandleResponse(e: Endpoint, p: Packet, src: Addr, port: int): Outcome {
    var i := FindClient(e.clients, port, p.header.rid);
    if i == |e.clients| then Ok(e, Nothing)
    else
      match p.header.typ
      case Response => HandleReply(e, i, p)
      case Ack => HandleAck(e, i, p, src)
      case Drop =>
        Ok(e.(clients := Without(e.clients, i)), Complete(e.clients[i].token, Failure(-ERR_DROP_MSG)))
      case _ => AssertFails(WrongKind)
  }

  /** The timer of the pair that holds this port; a free socket's timer does nothing. */
  function FireTimer(e: Endpoint, port: int): Outcome {
    var i := FindPort(e.clients, port);
    if i == |e.clients| then Ok(e, Nothing)
    else Ok(e.(clients := Without(e.clients, i)), Complete(e.clients[i].token, TimedOut))
  }

  // ----- the server half -----

  /** A request whose last packet is in: hand it over, unless it needs the replication layer. */
  function Finish(e: Endpoint, sp: ServerPair, h: Header, handle: int): Outcome {
    if IsRaftMsg(h) || IsReplicated(h) then AssertFails(WrongKind)
    else if |sp.request| >= TOO_MANY then AssertFails(AppTableFull)
    else Ok(e.(app := e.app[handle := sp]), Hand(handle, sp))
  }

  function HandleFirst(e: Endpoint, p: Packet, src: Addr, keep: bool, handle: int): Outcome {
    var h := p.header;
    var sp := ServerPair(src, h.rid, [p], h.order, 1);
    if h.typ == Request && !keep then Ok(e, Send(SERVER_PORT, src, [DropPacket(h.rid)]))
    else if !h.last then
      Ok(e.(servers := e.servers + [sp]),
         if IsRaftMsg(h) then Nothing else Send(SERVER_PORT, src, [AckPacket(h.rid)]))
    else if h.order != 1 then Ok(e, Nothing)
    else Finish(e, sp, h, handle)
  }

  function HandleRest(e: Endpoint, p: Packet, src: Addr, handle: int): Outcome {
    var h, i := p.header, FindServer(e.servers, src, p.header.rid);
    if i == |e.servers| then Ok(e, Nothing)
    else
      var gone := e.(servers := Without(e.servers, i));
      var sp := e.servers[i].(request := e.servers[i].request + [p], received := Inc16(e.servers[i].received));
      if h.order != e.servers[i].received then Ok(gone, Nothing)
      else if !h.last then Ok(e.(servers := e.servers[i := sp]), Nothing)
      else if sp.received != sp.expected then Ok(gone, Nothing)
      else Finish(gone, sp, h, handle)
  }

  function HandleRequest(e: Endpoint, p: Packet, src: Addr, keep: bool, handle: int): Outcome {
    if p.header.first then HandleFirst(e, p, src, keep, handle) else HandleRest(e, p, src, handle)
  }

  /** r2p2_send_response for a request the application holds. */
  function SendReply(e: Endpoint, handle: int, pkts: seq<Packet>): Outcome
    requires handle in e.app
  {
    Ok(e.(app := e.app - {handle}), Send(SERVER_PORT, e.app[handle].sender, pkts))
  }

  /** handle_incoming_pck. */
  function HandleIncoming(e: Endpoint, p: Packet, src: Addr, port: int, keep: bool, handle: int): Outcome {
    if p.header.typ == RaftMsg then AssertFails(WrongKind)
    else if IsResponse(p.header) then HandleResponse(e, p, src, port)
    else HandleRequest(e, p, src, keep, handle)
  }
}
