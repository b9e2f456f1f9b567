/**
 An endpoint of the Linux build, event by event, on pools, intrusive lists, sockets and linked buffers.
 Every event has exactly the effect given in Transport.dfy and conserves all resources, whatever packet arrives.
 */
module Endpoint {
  import opened Wire
  import opened Transport
  import opened Buffers
  import opened Collections
  import opened Conservation
  import opened Holdings
  import opened PairTable
  import opened Resources
  import Framing

  /** The three- or four-byte control messages fit one packet. */
  lemma OnePacket(pkts: seq<Packet>, body: seq<byte>, typ: MsgType, rid: uint16)
    requires 0 < |body| <= PAYLOAD_SIZE && Framing.Framed(pkts, body, typ, FixedRoute, rid)
    requires pkts[|pkts| - 1].body != []
    ensures pkts == [Control(typ, rid, body)]
  {
    Framing.FramedCount(pkts, body, typ, FixedRoute, rid);
    assert |pkts| == 1;
    assert Framing.HeaderOk(pkts[0].header, 0, 1, typ, FixedRoute, rid);
    assert Bodies(pkts) == [pkts[0].body];
    ConcatSnoc([], pkts[0].body);
    assert [] + [pkts[0].body] == [pkts[0].body];
    assert pkts[0].body == Payload(pkts) == body;
    assert pkts == [pkts[0]];
  }

  /** A drop message or an acknowledgement answers this packet. */
  predicate SendsControl(h: Header, keep: bool) {
    if h.typ == Request && !keep then true else !h.last && !IsRaftMsg(h)
  }

  /** There is no buffer for a datagram, or none for the control message that answers it. */
  predicate NoBuffer(h: Header, keep: bool, taken: nat) {
    || taken >= BUFPOOL_SIZE
    || (h.typ != RaftMsg && !IsResponse(h) && h.first && SendsControl(h, keep) && taken + 1 >= BUFPOOL_SIZE)
  }

  class R2p2Endpoint {
    const res: Resources
    ghost var view: Transport.Endpoint  // the packet-level state

    /** Conservation of buffers, pairs, sockets and timers; one buffer may be in hand while a packet is handled. */
    ghost predicate ValidWith(hand: bool)
      reads this, res, res.repr
    {
      this !in res.repr && res.Valid() && Stands(res.Own(), view, hand)
    }

    ghost predicate Valid()
      reads this, res, res.repr
    {
      ValidWith(false)
    }

    constructor ()
      ensures Valid() && view == Endpoint([], [], map[], 0) && fresh(res.repr)
    {
      var r := Resources.Create();
      res, view := r, Endpoint([], [], map[], 0);
      new;
      StandsMeans(res.Own(), view, false);
    }

    // ----- list searches -----

    /** find_in_pending_client_pairs; i is the place of the pair in the list. */
    method FindClientPair(port: int, rid: uint16, ghost hand: bool) returns (id: int, ghost i: nat)
      requires ValidWith(hand)
      ensures i == FindClient(view.clients, port, rid) <= |res.Own().pc| == |view.clients|
      ensures (id == -1 <==> i == |res.Own().pc|) && (id != -1 ==> id == res.Own().pc[i])
    {
      StandsMeans(res.Own(), view, hand);
      id := res.FirstClient();
      i := 0;
      while id != -1
        invariant i <= |res.Own().pc| && (id == -1 <==> i == |res.Own().pc|) && (id != -1 ==> id == res.Own().pc[i])
        invariant forall j :: 0 <= j < i ==> !(view.clients[j].port == port && view.clients[j].rid == rid)
        decreases |res.Own().pc| - i
      {
        assert res.Own().pc[i] in res.Own().clients.Keys;
        var cp := res.clients.recs[id];
        if cp.port == port && cp.rid == rid { break; }
        id := res.NextClient(id, i);
        i := i + 1;
      }
      FirstClient(view.clients, port, rid, i);
    }

    /** find_in_pending_server_pairs; i is the place of the pair in the list. */
    method FindServerPair(sender: Addr, rid: uint16, ghost hand: bool) returns (id: int, ghost i: nat)
      requires ValidWith(hand)
      ensures i == FindServer(view.servers, sender, rid) <= |res.Own().ps| == |view.servers|
      ensures (id == -1 <==> i == |res.Own().ps|) && (id != -1 ==> id == res.Own().ps[i])
    {
      StandsMeans(res.Own(), view, hand);
      id := res.FirstServer();
      i := 0;
      while id != -1
        invariant i <= |res.Own().ps| && (id == -1 <==> i == |res.Own().ps|) && (id != -1 ==> id == res.Own().ps[i])
        invariant forall j :: 0 <= j < i ==> !(view.servers[j].sender == sender && view.servers[j].rid == rid)
        decreases |res.Own().ps| - i
      {
        assert res.Own().ps[i] in res.Own().servers.Keys;
        var sp := res.servers.recs[id];
        if sp.sender == sender && sp.rid == rid { break; }
        id := res.NextServer(id, i);
        i := i + 1;
      }
      FirstServer(view.servers, sender, rid, i);
    }

    // ----- freeing -----

    method RemoveClient(id: int, ghost i: nat, ghost hand: bool)
      requires ValidWith(hand) && i < |res.Own().pc| && res.Own().pc[i] == id
      modifies this, res.repr
      ensures ValidWith(hand) && |old(view).clients| == |old(res.Own()).pc|
      ensures view == old(view).(clients := Without(old(view).clients, i))
    {
      PendingClientLives(res.Own(), view, hand, i);
      WithoutClientStands(res.Own(), view, hand, i);
      res.RemoveClient(id, i);
      view := view.(clients := Without(view.clients, i));
    }

    method RemoveServer(id: int, ghost i: nat, ghost hand: bool)
      requires ValidWith(hand) && i < |res.Own().ps| && res.Own().ps[i] == id
      modifies this, res.repr
      ensures ValidWith(hand) && |old(view).servers| == |old(res.Own()).ps|
      ensures view == old(view).(servers := Without(old(view).servers, i))
    {
      PendingServerLives(res.Own(), view, hand, i);
      WithoutServerStands(res.Own(), view, hand, i);
      res.RemoveServer(id, i);
      view := view.(servers := Without(view.servers, i));
    }

    method FreeHand()
      requires ValidWith(true)
      modifies res.repr
      ensures Valid() && res.Own() == HandFreed(old(res.Own()))
    {
      HandFreedStands(res.Own(), view);
      res.Free(InHand);
    }

    // ----- the client half -----

    /** A packet of the reply, still in hand, for the call at place i of the list. */
    method HandleReplyPacket(id: int, ghost i: nat, p: Packet) returns (failed: bool, effect: Effect)
      requires ValidWith(true) && i < |res.Own().pc| == |view.clients| && res.Own().pc[i] == id
      requires InHand in res.Own().msgs && res.Own().msgs[InHand] == [p]
      modifies this, res.repr
      ensures var o := HandleReply(old(view), i, p);
              (failed <==> o.AssertFails?) && (!failed ==> Valid() && o == Ok(view, effect))
    {
      failed, effect := false, Nothing;
      ClientFacts(res.Own(), view, true, i);
      var cp := res.clients.recs[id];
      if cp.state != WResponse { return true, Nothing; }
      var inOrder := p.header.first || p.header.order == cp.received;
      var cp' := if p.header.first then cp.(expected := p.header.order, received := 1)
                 else cp.(received := Inc16(cp.received));
      LinkReply(id, i, p, cp');
      if !inOrder {
        effect := Complete(cp.token, Failure(-1));
        RemoveClient(id, i, false);
        return;
      }
      if !p.header.last { return; }
      if cp'.received != cp'.expected {
        effect := Complete(cp.token, Failure(-1));
        RemoveClient(id, i, false);
        return;
      }
      ClientFacts(res.Own(), view, false, i);
      var reply := res.Packets(ClientReply(id));
      if |reply| >= TOO_MANY { return true, Nothing; }
      effect := Complete(cp.token, Success(reply));
      RemoveClient(id, i, false);
    }

    /** The packet in hand joins the reply of a call, whose counters move to r. */
    method LinkReply(id: int, ghost i: nat, p: Packet, r: ClientRec)
      requires ValidWith(true) && i < |res.Own().pc| && res.Own().pc[i] == id && id in res.Own().clients
      requires InHand in res.Own().msgs && res.Own().msgs[InHand] == [p] && r.port == res.Own().clients[id].port
      modifies this, res.repr
      ensures Valid() && res.Own().pc == old(res.Own()).pc && |old(view).clients| == |old(res.Own()).pc|
      ensures var c := old(view).clients[i];
              var c' := ClientPair(r.token, r.port, r.rid, c.request, c.reply + [p], r.expected, r.received, r.state);
              view == old(view).(clients := old(view).clients[i := c'])
      ensures Without(view.clients, i) == Without(old(view).clients, i)
    {
      ReplyLinkedStands(res.Own(), view, i, r);
      res.Link(ClientReply(id));
      res.PutClient(id, r);
      ghost var c := view.clients[i];
      view := view.(clients := view.clients[i := ClientPair(r.token, r.port, r.rid, c.request, c.reply + [p],
                                                           r.expected, r.received, r.state)]);
    }

    method HandleAckPacket(id: int, ghost i: nat, p: Packet, src: Addr) returns (failed: bool, effect: Effect)
      requires ValidWith(true) && i < |res.Own().pc| == |view.clients| && res.Own().pc[i] == id
      modifies this, res.repr
      ensures var o := HandleAck(old(view), i, p, src);
              (failed <==> o.AssertFails?) && (!failed ==> Valid() && o == Ok(view, effect))
    {
      failed, effect := false, Nothing;
      ClientFacts(res.Own(), view, true, i);
      var cp := res.clients.recs[id];
      if cp.state != WAck || |p.body| != 3 { return true, Nothing; }
      var all := res.Packets(ClientRequest(id));
      if all == [] { return true, Nothing; }
      FreeHand();
      var rest := res.PacketsAfterFirst(ClientRequest(id));
      effect := Send(cp.port, src, rest);
      ClientSetStands(res.Own(), view, false, i, cp.(state := WResponse));
      res.PutClient(id, cp.(state := WResponse));
      view := view.(clients := view.clients[i := view.clients[i].(state := WResponse)]);
    }

    method HandleResponsePacket(p: Packet, src: Addr, port: int) returns (failed: bool, effect: Effect)
      requires ValidWith(true) && InHand in res.Own().msgs && res.Own().msgs[InHand] == [p]
      modifies this, res.repr
      ensures var o := HandleResponse(old(view), p, src, port);
              (failed <==> o.AssertFails?) && (!failed ==> Valid() && o == Ok(view, effect))
    {
      failed, effect := false, Nothing;
      var id, i := FindClientPair(port, p.header.rid, true);
      if id == -1 {
        FreeHand();
        return;
      }
      match p.header.typ {
        case Response =>
          failed, effect := HandleReplyPacket(id, i, p);
        case Ack =>
          failed, effect := HandleAckPacket(id, i, p, src);
        case Drop =>
          ClientFacts(res.Own(), view, true, i);
          effect := Complete(res.clients.recs[id].token, Failure(-ERR_DROP_MSG));
          RemoveClient(id, i, true);
          FreeHand();
        case _ =>
          failed := true;
      }
    }

    /** handle_timer_for_socket: a timer that ran out is disarmed; that of a free socket does nothing more. */
    method TimerFired(slot: int) returns (effect: Effect)
      requires Valid() && 0 <= slot < SOCKPOOL_SIZE
      modifies this, res.repr
      ensures Valid() && FireTimer(old(view), slot) == Ok(view, effect)
    {
      effect := Nothing;
      ghost var o := res.Own();
      ghost var i := SocketFacts(o, view, slot);
      var inUse, id := res.PairOfSocket(slot);
      res.Disarm(slot);
      if !inUse {
        assert res.Own() == o;
      } else {
        ClientFacts(o, view, false, i);
        effect := Complete(res.clients.recs[id].token, TimedOut);
        TimedOutClient(id, i, slot, o);
      }
    }

    /** timer_triggered, once the timer is disarmed. */
    method TimedOutClient(id: int, ghost i: nat, slot: int, ghost o: Holdings)
      requires this !in res.repr && res.Valid() && Stands(o, view, false)
      requires res.Own() == o.(armed := o.armed - {slot}) && i < |o.pc| && o.pc[i] == id
      requires id in o.clients && o.clients[id].port == slot
      modifies this, res.repr
      ensures Valid() && |old(view).clients| == |o.pc|
      ensures view == old(view).(clients := Without(old(view).clients, i))
    {
      PendingClientLives(o, view, false, i);
      WithoutClientStands(o, view, false, i);
      res.RemoveClient(id, i);
      assert o.armed - {slot} - {slot} == o.armed - {slot};
      view := view.(clients := Without(view.clients, i));
    }

    // ----- the server half -----

    /** Framing, sending and freeing a one-packet control message; fails without a buffer for it. */
    method SendControl(typ: MsgType, body: seq<byte>, rid: uint16, dst: Addr) returns (failed: bool, effect: Effect)
      requires res.Valid() && Scratch !in res.Own().msgs && 0 < |body| <= PAYLOAD_SIZE
      modifies res.repr
      ensures res.Valid() && (failed <==> old(res.Taken()) >= BUFPOOL_SIZE)
      ensures !failed ==> res.Own() == old(res.Own()) && res.servers.newest == old(res.servers.newest)
      ensures effect == Send(SERVER_PORT, dst, [Control(typ, rid, body)])
    {
      assert [body][0] == body && [body][1..] == [];
      assert Concat([body]) == body + Concat([]);
      var pkts := Framing.PrepareMsg([body], typ, FixedRoute, rid);
      OnePacket(pkts, body, typ, rid);
      effect := Send(SERVER_PORT, dst, pkts);
      ghost var o := res.Own();
      res.Open(Scratch);
      var ok := res.Append(Scratch, pkts[0]);
      if !ok { return true, effect; }
      var sent := res.Packets(Scratch);
      assert sent == [] + [pkts[0]] == pkts;
      effect := Send(SERVER_PORT, dst, sent);
      res.Free(Scratch);
      assert res.Own().msgs == o.msgs;
      failed := false;
    }

    /** Every pair owns a buffer or a socket, so the pair pools never run out. */
    lemma RoomForPairs(hand: bool)
      requires ValidWith(hand)
      ensures |res.Own().servers| < POOL_SIZE && |res.Own().clients| < POOL_SIZE
    {
      res.Opened();
      StandsMeans(res.Own(), view, hand);
      ServersWithinBuffers(res.store.st, res.Own(), hand);
      SocketsAreClients(res.Own(), hand);
    }

    /** A request refused by flow control: its packet joins the new pair, a drop message leaves, the pair is freed. */
    method RefuseFirst(id: int, r: ServerRec, ghost o: Holdings) returns (failed: bool, effect: Effect)
      requires this !in res.repr && res.Valid() && Stands(o, view, true)
      requires id !in o.servers && res.Own() == ServerAllocated(o, id, r)
      modifies res.repr
      ensures failed <==> old(res.Taken()) >= BUFPOOL_SIZE
      ensures !failed ==> Valid() && effect == Send(SERVER_PORT, r.sender, [DropPacket(r.rid)])
    {
      PlacesFree(o, view, true);
      NoScratch(o, view, true);
      HandFreedStands(o, view);
      AllocatedAndLinked(o, id, r, false);
      AllocatedAndFreed(o, id, r);
      NotListed(o, view, true, id);
      res.Link(ServerRequest(id));
      failed, effect := SendControl(Drop, [68, 82, 79, 80], r.rid, r.sender);
      if !failed {
        res.FreeServerPair(id);
      }
    }

    /** A single packet that claims to be one of several: the new pair is taken off the list it is not on, and freed. */
    method WrongSizeFirst(id: int, r: ServerRec, ghost o: Holdings)
      requires this !in res.repr && res.Valid() && Stands(o, view, true)
      requires id !in o.servers && InHand in o.msgs && res.Own() == WithServer(o, id, r, false)
      requires res.servers.newest == id != -1
      modifies res.repr
      ensures Valid()
    {
      PlacesFree(o, view, true);
      HandFreedStands(o, view);
      AllocatedAndFreed(o, id, r);
      NotListed(o, view, true, id);
      res.UnlistFreshServer(id);
      res.FreeServerPair(id);
    }

    /** The first of several packets: the pair is listed, an acknowledgement leaves, the packet joins the pair. */
    method AdmitFirst(id: int, r: ServerRec, ack: bool, ghost o: Holdings) returns (failed: bool, effect: Effect)
      requires this !in res.repr && res.Valid() && Stands(o, view, true)
      requires id !in o.servers && InHand in o.msgs && res.Own() == ServerAllocated(o, id, r)
      modifies this, res.repr
      ensures failed <==> ack && old(res.Taken()) >= BUFPOOL_SIZE
      ensures !failed ==> Valid()
      ensures var sp := ServerPair(r.sender, r.rid, o.msgs[InHand], r.expected, r.received);
              !failed ==> view == old(view).(servers := old(view).servers + [sp])
      ensures !failed ==> effect == if ack then Send(SERVER_PORT, r.sender, [AckPacket(r.rid)]) else Nothing
    {
      PlacesFree(o, view, true);
      NoScratch(o, view, true);
      NotListed(o, view, true, id);
      WithServerStands(o, view, id, r, true);
      AllocatedAndLinked(o, id, r, true);
      failed, effect := false, Nothing;
      res.ListServer(id);
      if ack {
        failed, effect := SendControl(Ack, [65, 67, 75], r.rid, r.sender);
        if failed { return; }
      }
      res.Link(ServerRequest(id));
      ghost var sp := ServerPair(r.sender, r.rid, o.msgs[InHand], r.expected, r.received);
      view := view.(servers := view.servers + [sp]);
    }

    /** The first packet of a request, in hand. */
    method HandleFirstPacket(p: Packet, src: Addr, keep: bool) returns (failed: bool, effect: Effect, handle: int)
      requires ValidWith(true) && InHand in res.Own().msgs && res.Own().msgs[InHand] == [p]
      modifies this, res.repr
      ensures var o := HandleFirst(old(view), p, src, keep, handle);
              && handle !in old(view).app
              && (failed <==> o.AssertFails? || (SendsControl(p.header, keep) && old(res.Taken()) >= BUFPOOL_SIZE))
              && (!failed ==> Valid() && o == Ok(view, effect))
    {
      var h := p.header;
      ghost var o := res.Own();
      RoomForPairs(true);
      PlacesFree(o, view, true);
      NoScratch(o, view, true);
      var r := ServerRec(src, h.rid, h.order, 1);
      var id := res.AllocServerPair(r);
      failed, effect, handle := false, Nothing, id;
      if h.typ == Request && !keep {
        failed, effect := RefuseFirst(id, r, o);
        return;
      }
      if !h.last {
        failed, effect := AdmitFirst(id, r, !IsRaftMsg(h), o);
        return;
      }
      AllocatedAndLinked(o, id, r, false);
      res.Link(ServerRequest(id));
      if h.order != 1 {
        WrongSizeFirst(id, r, o);
        return;
      }
      if IsRaftMsg(h) || IsReplicated(h) { return true, Nothing, id; }
      WithServerStands(o, view, id, r, false);
      var request := res.Packets(ServerRequest(id));
      effect := Hand(id, ServerPair(r.sender, r.rid, request, r.expected, r.received));
      view := view.(app := view.app[id := ServerPair(r.sender, r.rid, [p], r.expected, r.received)]);
    }

    /** The packet in hand joins the request of a pending pair, whose counters move to r. */
    method LinkRequest(id: int, ghost i: nat, p: Packet, r: ServerRec)
      requires ValidWith(true) && InHand in res.Own().msgs && res.Own().msgs[InHand] == [p]
      requires i < |res.Own().ps| && res.Own().ps[i] == id && id in res.Own().servers
      modifies this, res.repr
      ensures Valid() && res.Own().ps == old(res.Own()).ps && |old(view).servers| == |old(res.Own()).ps|
      ensures var request := old(view).servers[i].request + [p];
              view == old(view).(servers := old(view).servers[i := ServerPair(r.sender, r.rid, request,
                                                                              r.expected, r.received)])
      ensures Without(view.servers, i) == Without(old(view).servers, i)
    {
      RequestLinkedStands(res.Own(), view, i, r);
      res.Link(ServerRequest(id));
      res.PutServer(id, r);
      ghost var request := view.servers[i].request + [p];
      view := view.(servers := view.servers[i := ServerPair(r.sender, r.rid, request, r.expected, r.received)]);
    }

    /** A complete request leaves the list for the application. */
    method HandOver(id: int, ghost i: nat)
      requires Valid() && i < |res.Own().ps| && res.Own().ps[i] == id
      modifies this, res.repr
      ensures Valid() && |old(view).servers| == |old(res.Own()).ps|
      ensures view == old(view).(servers := Without(old(view).servers, i),
                                 app := old(view).app[id := old(view).servers[i]])
    {
      ToAppStands(res.Own(), view, i);
      res.UnlistServer(id, i);
      view := view.(servers := Without(view.servers, i), app := view.app[id := view.servers[i]]);
    }

    /** A later packet of a request, in hand. */
    method HandleRestPacket(p: Packet, src: Addr) returns (failed: bool, effect: Effect, handle: int)
      requires ValidWith(true) && InHand in res.Own().msgs && res.Own().msgs[InHand] == [p]
      modifies this, res.repr
      ensures var o := HandleRest(old(view), p, src, handle);
              (failed <==> o.AssertFails?) && (!failed ==> Valid() && o == Ok(view, effect))
      ensures !failed && effect.Hand? ==> handle !in old(view).app
    {
      var h := p.header;
      var id, i := FindServerPair(src, h.rid, true);
      failed, effect, handle := false, Nothing, id;
      if id == -1 {
        FreeHand();
        return;
      }
      ServerFacts(res.Own(), view, true, i);
      PendingNotInApp(res.Own(), view, true, i);
      var sp := res.servers.recs[id];
      if h.order != sp.received {
        RemoveServer(id, i, true);
        FreeHand();
        return;
      }
      var sp' := sp.(received := Inc16(sp.received));
      LinkRequest(id, i, p, sp');
      if !h.last { return; }
      if sp'.received != sp'.expected {
        RemoveServer(id, i, false);
        return;
      }
      ServerFacts(res.Own(), view, false, i);
      var request := res.Packets(ServerRequest(id));
      if IsRaftMsg(h) || IsReplicated(h) || |request| >= TOO_MANY { return true, Nothing, id; }
      effect := Hand(id, ServerPair(sp'.sender, sp'.rid, request, sp'.expected, sp'.received));
      HandOver(id, i);
    }

    /** A buffer for a datagram just received. */
    method TakeInHand(p: Packet) returns (ok: bool)
      requires Valid()
      modifies res.repr
      ensures ok <==> old(res.Taken()) < BUFPOOL_SIZE
      ensures ok ==> ValidWith(true) && InHand in res.Own().msgs && res.Own().msgs[InHand] == [p]
      ensures ok ==> res.Taken() == old(res.Taken()) + 1
    {
      TakenStands(res.Own(), view, p);
      ghost var m := res.Own().msgs;
      res.Open(InHand);
      ok := res.Append(InHand, p);
      assert [] + [p] == [p];
      UpdateTwice(m, InHand, [], [p]);
    }

    /**
     handle_incoming_pck, for any datagram: it is received into a buffer taken for it. The process stops exactly where
     an assertion of the source fails, or a buffer for the datagram or for the answer to it cannot be had.
     */
    method HandleIncomingPacket(p: Packet, src: Addr, port: int, keep: bool)
      returns (failed: bool, effect: Effect, handle: int)
      requires Valid()
      modifies this, res.repr
      ensures var o := HandleIncoming(old(view), p, src, port, keep, handle);
              && (failed <==> o.AssertFails? || NoBuffer(p.header, keep, old(res.Taken())))
              && (!failed ==> Valid() && o == Ok(view, effect))
      ensures !failed && effect.Hand? ==> handle !in old(view).app
    {
      handle := -1;
      var ok := TakeInHand(p);
      if !ok { return true, Nothing, handle; }
      if p.header.typ == RaftMsg {
        failed, effect := true, Nothing;
      } else if IsResponse(p.header) {
        failed, effect := HandleResponsePacket(p, src, port);
      } else if p.header.first {
        failed, effect, handle := HandleFirstPacket(p, src, keep);
      } else {
        failed, effect, handle := HandleRestPacket(p, src);
      }
    }

    // ----- calls of the application -----

    /** prepare_to_send: a socket with its timer for a new pair, -1 if there is none. */
    method PrepareToSend(id: int, r: ClientRec) returns (slot: int)
      requires res.Valid() && id in res.Own().clients
      modifies res.repr
      ensures res.Valid() && (slot == -1 <==> |old(res.Own()).sockets| >= SOCKPOOL_SIZE)
      ensures res.Taken() == old(res.Taken())
      ensures slot == -1 ==> res.Own() == old(res.Own())
      ensures slot != -1 ==> 0 <= slot < SOCKPOOL_SIZE && slot !in old(res.Own()).sockets
      ensures var o := old(res.Own());
              slot != -1 ==> res.Own() == o.(sockets := o.sockets[slot := id], armed := o.armed + {slot},
                                             clients := o.clients[id := r.(port := slot)])
    {
      ghost var o := res.Own();
      slot := res.TakeSocket();
      if slot == -1 { return; }
      res.ServeSocket(slot, id);
      UpdateTwice(o.sockets, slot, -1, id);
      res.Arm(slot);
      res.PutClient(id, r.(port := slot));
    }

    /** The framed request in its buffers, the pair on the list, the first packet on its way. */
    method OpenRequest(id: int, r: ClientRec, dst: Addr, pkts: seq<Packet>, ghost o: Holdings)
      returns (failed: bool, effect: Effect)
      requires this !in res.repr && res.Valid() && Stands(o, view, false) && pkts != [] && id !in o.clients
      requires r.port !in o.sockets && 0 <= r.port < SOCKPOOL_SIZE && |o.sockets| < SOCKPOOL_SIZE
      requires r.expected == r.received == 0
      requires var a := ClientAllocated(o, id, r);
               res.Own() == a.(sockets := o.sockets[r.port := id], armed := o.armed + {r.port}, rid := r.rid)
      modifies this, res.repr
      ensures failed <==> old(res.Taken()) + |pkts| > BUFPOOL_SIZE
      ensures !failed ==> Valid() && effect == Send(r.port, dst, [pkts[0]])
      ensures var state := if |pkts| == 1 then WResponse else WAck;
              !failed ==> view == old(view).(clients := old(view).clients
                                               + [ClientPair(r.token, r.port, r.rid, pkts, [], 0, 0, state)],
                               rid := r.rid)
    {
      ghost var state := if |pkts| == 1 then WResponse else WAck;
      WithClientStands(o, view, id, r.(state := state), pkts);
      NotListedClient(o, view, false, id);
      failed, effect := false, Nothing;
      var ok := res.AppendAll(ClientRequest(id), pkts);
      if !ok { return true, Nothing; }
      UpdateTwice(o.msgs[ClientReply(id) := []], ClientRequest(id), [], pkts);
      res.ListClient(id);
      var single := res.IsSingle(ClientRequest(id));
      UpdateTwice(o.clients, id, r, r.(state := state));
      res.PutClient(id, r.(state := if single then WResponse else WAck));
      assert res.Own() == WithClient(o, id, r.(state := state), pkts);
      var first := res.SendFirst(ClientRequest(id));
      effect := Send(r.port, dst, first);
      view := view.(clients := view.clients + [ClientPair(r.token, r.port, r.rid, pkts, [], 0, 0, state)],
                    rid := r.rid);
    }

    /** r2p2_send_req: without a socket the pair goes straight back and nothing is framed. */
    method SendReq(token: int, iov: seq<seq<byte>>, policy: Policy, dst: Addr)
      returns (failed: bool, effect: Effect, socket: Option<int>, pkts: seq<Packet>)
      requires Valid() && iov != []
      modifies this, res.repr
      ensures socket.None? <==> |old(res.Own()).sockets| >= SOCKPOOL_SIZE
      ensures socket.Some? ==> socket.value !in old(res.Own()).sockets
      ensures socket.Some? ==> Framing.Framed(pkts, Concat(iov), Request, policy, Inc16(old(view).rid))
      ensures failed <==> socket.Some? && old(res.Taken()) + |pkts| > BUFPOOL_SIZE
      ensures !failed ==> Valid() && SendRequest(old(view), token, socket, dst, pkts) == Ok(view, effect)
    {
      failed, pkts, socket := false, [], None;
      ghost var o := res.Own();
      RoomForPairs(false);
      PlacesFree(o, view, false);
      NoScratch(o, view, false);
      var r := ClientRec(token, NIL, 0, 0, 0, WAck);
      var id := res.AllocClientPair(r);
      var slot := PrepareToSend(id, r);
      if slot == -1 {
        effect := Complete(token, Failure(-ERR_NO_SOCKET));
        ClientGivenBack(o, id, r);
        NotListedClient(o, view, false, id);
        res.FreeClientPair(id);
        return;
      }
      socket := Some(slot);
      UpdateTwice(o.clients, id, r, r.(port := slot));
      failed, effect, pkts := FrameRequest(id, r.(port := slot), iov, policy, dst, o);
    }

    /** The part of r2p2_send_req after prepare_to_send. */
    method FrameRequest(id: int, r: ClientRec, iov: seq<seq<byte>>, policy: Policy, dst: Addr, ghost o: Holdings)
      returns (failed: bool, effect: Effect, pkts: seq<Packet>)
      requires this !in res.repr && res.Valid() && Stands(o, view, false) && iov != [] && id !in o.clients
      requires r.port !in o.sockets && 0 <= r.port < SOCKPOOL_SIZE && |o.sockets| < SOCKPOOL_SIZE
      requires r.expected == r.received == 0
      requires var a := ClientAllocated(o, id, r);
               res.Own() == a.(sockets := o.sockets[r.port := id], armed := o.armed + {r.port})
      modifies this, res.repr
      ensures Framing.Framed(pkts, Concat(iov), Request, policy, Inc16(old(view).rid))
      ensures failed <==> old(res.Taken()) + |pkts| > BUFPOOL_SIZE
      ensures !failed ==> Valid() && SendRequest(old(view), r.token, Some(r.port), dst, pkts) == Ok(view, effect)
    {
      NoScratch(o, view, false);
      res.NextRid();
      pkts := Framing.PrepareMsg(iov, Request, policy, res.rid);
      UpdateTwice(o.clients, id, r, r.(rid := res.rid));
      res.PutClient(id, r.(rid := res.rid));
      failed, effect := OpenRequest(id, r.(rid := res.rid), dst, pkts, o);
    }

    /** r2p2_send_response for a request the application holds. */
    method SendResponse(handle: int, iov: seq<seq<byte>>) returns (failed: bool, effect: Effect, pkts: seq<Packet>)
      requires Valid() && iov != [] && handle in view.app
      modifies this, res.repr
      ensures Framing.Framed(pkts, Concat(iov), Response, FixedRoute, old(view).app[handle].rid)
      ensures failed <==> old(res.Taken()) + |pkts| > BUFPOOL_SIZE
      ensures !failed ==> Valid() && SendReply(old(view), handle, pkts) == Ok(view, effect)
    {
      AnsweredStands(res.Own(), view, handle);
      var sp := res.servers.recs[handle];
      pkts := Framing.PrepareMsg(iov, Response, FixedRoute, sp.rid);
      var sent;
      failed, sent := ReplyAndFree(handle, pkts);
      effect := Send(SERVER_PORT, sp.sender, sent);
    }

    /** The reply in its buffers, sent, and freed with the request. */
    method ReplyAndFree(handle: int, pkts: seq<Packet>) returns (failed: bool, sent: seq<Packet>)
      requires Valid() && handle in view.app
      modifies this, res.repr
      ensures failed <==> old(res.Taken()) + |pkts| > BUFPOOL_SIZE
      ensures !failed ==> Valid() && view == old(view).(app := old(view).app - {handle}) && sent == pkts
    {
      AnsweredStands(res.Own(), view, handle);
      ghost var m := res.Own().msgs;
      var ok := res.AppendAll(ServerReply(handle), pkts);
      if !ok { return true, []; }
      failed := false;
      sent := res.Packets(ServerReply(handle));
      UpdateThenRemove(m, ServerRequest(handle), ServerReply(handle), pkts);
      res.FreeServerPair(handle);
      view := view.(app := view.app - {handle});
    }
  }

  /**
   What every valid endpoint conserves: taken buffers are those of the requests and replies of live pairs; there is one
   taken socket per call; taken pair objects are the live pairs; each list is a doubly linked chain of live pairs, and
   all calls are on theirs; and neither pair pool is ever full.
   */
  lemma NothingLeaks(e: R2p2Endpoint)
    requires e.Valid()
    ensures var r, o := e.res, e.res.Own();
            && r.store.pool.count == Total(o.msgs, ChainsOf(o.clients.Keys, o.servers.Keys))
            && o.msgs.Keys == ChainsOf(o.clients.Keys, o.servers.Keys)
            && r.sockets.count == |o.clients| <= SOCKPOOL_SIZE && |o.servers| <= r.store.pool.count <= BUFPOOL_SIZE
            && r.clients.pool.used == o.clients.Keys && r.servers.pool.used == o.servers.Keys
            && r.clients.pool.count < POOL_SIZE && r.servers.pool.count < POOL_SIZE
    ensures e.res.clients.ListsLivePairs() && e.res.servers.ListsLivePairs()
    ensures forall id :: id in e.res.Own().clients ==> id in e.res.clients.pending
  {
    var r, o := e.res, e.res.Own();
    r.Opened();
    StandsMeans(o, e.view, false);
    TakenByPairs(r.store.st, o);
    MessagesOfPairs(o);
    SocketsAreClients(o, false);
    ServersWithinBuffers(r.store.st, o, false);
    r.clients.ListIsLive();
    r.servers.ListIsLive();
    assert |r.store.pool.used| == |r.store.st.bufs.Keys|;
  }
}
