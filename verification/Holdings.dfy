/**
 What an endpoint holds between events and how each manipulation shows at packet level:
 pairs, pending lists, sockets with their timers, and the messages of live pairs.
 */
module Holdings {
  import opened Wire
  import opened Transport
  import opened Buffers
  import opened Collections

  /** A pair without its messages, which live in the chain store; the port is NIL while there is no socket. */
  datatype ClientRec = ClientRec(
    token: int, port: int, rid: uint16, expected: uint16, received: uint16, state: ClientState)

  datatype ServerRec = ServerRec(sender: Addr, rid: uint16, expected: uint16, received: uint16)

  type Msgs = map<ChainId, seq<Packet>>

  function Msg(msgs: Msgs, c: ChainId): seq<Packet> {
    if c in msgs then msgs[c] else []
  }

  function ClientAt(msgs: Msgs, clients: map<int, ClientRec>, id: int): ClientPair {
    var r := if id in clients then clients[id] else ClientRec(0, 0, 0, 0, 0, WAck);
    ClientPair(r.token, r.port, r.rid, Msg(msgs, ClientRequest(id)), Msg(msgs, ClientReply(id)),
               r.expected, r.received, r.state)
  }

  function ServerAt(msgs: Msgs, servers: map<int, ServerRec>, id: int): ServerPair {
    var r := if id in servers then servers[id] else ServerRec(Addr(0, 0), 0, 0, 0);
    ServerPair(r.sender, r.rid, Msg(msgs, ServerRequest(id)), r.expected, r.received)
  }

  function ClientsAt(msgs: Msgs, clients: map<int, ClientRec>, ids: seq<int>): seq<ClientPair> {
    seq(|ids|, i requires 0 <= i < |ids| => ClientAt(msgs, clients, ids[i]))
  }

  function ServersAt(msgs: Msgs, servers: map<int, ServerRec>, ids: seq<int>): seq<ServerPair> {
    seq(|ids|, i requires 0 <= i < |ids| => ServerAt(msgs, servers, ids[i]))
  }

  function AppAt(msgs: Msgs, servers: map<int, ServerRec>, pending: seq<int>): map<int, ServerPair> {
    map id | id in servers && id !in pending :: ServerAt(msgs, servers, id)
  }

  /** Exactly the messages of live pairs exist. */
  predicate Live(c: ChainId, clients: map<int, ClientRec>, servers: map<int, ServerRec>) {
    match c
    case ClientRequest(i) => i in clients
    case ClientReply(i) => i in clients
    case ServerRequest(i) => i in servers
    case ServerReply(i) => i in servers
    case _ => false
  }

  ghost predicate SocketsOk(sockets: map<int, int>, armed: set<int>, clients: map<int, ClientRec>) {
    && |sockets| <= SOCKPOOL_SIZE
    && armed == sockets.Keys
    && (forall p :: p in sockets ==> 0 <= p < SOCKPOOL_SIZE && sockets[p] in clients && clients[sockets[p]].port == p)
    && (forall i :: i in clients ==> clients[i].port in sockets && sockets[clients[i].port] == i)
  }

  /** A pending list: each pair at most once, and only live pairs. */
  ghost predicate Pending(ids: seq<int>, live: set<int>) {
    NoDup(ids) && forall i :: 0 <= i < |ids| ==> ids[i] in live
  }

  ghost predicate AllListed(clients: map<int, ClientRec>, ids: seq<int>) {
    forall i :: i in clients ==> i in ids
  }

  lemma WithoutPending(ids: seq<int>, live: set<int>, i: nat)
    requires Pending(ids, live) && i < |ids|
    ensures Pending(Without(ids, i), live - {ids[i]})
    ensures forall x :: x in ids && x != ids[i] ==> x in Without(ids, i)
    ensures ids[i] !in Without(ids, i)
    ensures forall x :: x in Without(ids, i) ==> x in ids
  {
    var w := Without(ids, i);
    assert forall j :: 0 <= j < |w| ==> w[j] == if j < i then ids[j] else ids[j + 1];
    forall x | x in ids && x != ids[i]
      ensures x in w
    {
      var j :| 0 <= j < |ids| && ids[j] == x;
      assert x == if j < i then w[j] else w[j - 1];
    }
  }

  ghost predicate SameClient(msgs: Msgs, msgs': Msgs, clients: map<int, ClientRec>, clients': map<int, ClientRec>,
                             id: int) {
    ClientAt(msgs', clients', id) == ClientAt(msgs, clients, id)
  }

  ghost predicate SameServer(msgs: Msgs, msgs': Msgs, servers: map<int, ServerRec>, servers': map<int, ServerRec>,
                             id: int) {
    ServerAt(msgs', servers', id) == ServerAt(msgs, servers, id)
  }

  /** A pair leaves the list: the others are seen as before, in the same order. */
  lemma ClientLeaves(msgs: Msgs, msgs': Msgs, clients: map<int, ClientRec>, clients': map<int, ClientRec>,
                     ids: seq<int>, i: nat)
    requires i < |ids| && forall j :: 0 <= j < |ids| && j != i ==> SameClient(msgs, msgs', clients, clients', ids[j])
    ensures ClientsAt(msgs', clients', Without(ids, i)) == Without(ClientsAt(msgs, clients, ids), i)
  {
    var w := Without(ids, i);
    forall j | 0 <= j < |w|
      ensures ClientAt(msgs', clients', w[j]) == Without(ClientsAt(msgs, clients, ids), i)[j]
    {
      var k := if j < i then j else j + 1;
      assert w[j] == ids[k] && SameClient(msgs, msgs', clients, clients', ids[k]);
      assert Without(ClientsAt(msgs, clients, ids), i)[j] == ClientsAt(msgs, clients, ids)[k];
    }
  }

  lemma ClientChanges(msgs: Msgs, msgs': Msgs, clients: map<int, ClientRec>, clients': map<int, ClientRec>,
                      ids: seq<int>, i: nat)
    requires i < |ids| && forall j :: 0 <= j < |ids| && j != i ==> SameClient(msgs, msgs', clients, clients', ids[j])
    ensures ClientsAt(msgs', clients', ids) == ClientsAt(msgs, clients, ids)[i := ClientAt(msgs', clients', ids[i])]
  {
    forall j | 0 <= j < |ids| && j != i
      ensures ClientAt(msgs', clients', ids[j]) == ClientsAt(msgs, clients, ids)[j]
    {
      assert SameClient(msgs, msgs', clients, clients', ids[j]);
    }
  }

  lemma ClientsStay(msgs: Msgs, msgs': Msgs, clients: map<int, ClientRec>, clients': map<int, ClientRec>, ids: seq<int>)
    requires forall j :: 0 <= j < |ids| ==> SameClient(msgs, msgs', clients, clients', ids[j])
    ensures ClientsAt(msgs', clients', ids) == ClientsAt(msgs, clients, ids)
  {
    forall j | 0 <= j < |ids|
      ensures ClientAt(msgs', clients', ids[j]) == ClientsAt(msgs, clients, ids)[j]
    {
      assert SameClient(msgs, msgs', clients, clients', ids[j]);
    }
  }

  lemma ServerLeaves(msgs: Msgs, msgs': Msgs, servers: map<int, ServerRec>, servers': map<int, ServerRec>,
                     ids: seq<int>, i: nat)
    requires i < |ids| && forall j :: 0 <= j < |ids| && j != i ==> SameServer(msgs, msgs', servers, servers', ids[j])
    ensures ServersAt(msgs', servers', Without(ids, i)) == Without(ServersAt(msgs, servers, ids), i)
  {
    var w := Without(ids, i);
    forall j | 0 <= j < |w|
      ensures ServerAt(msgs', servers', w[j]) == Without(ServersAt(msgs, servers, ids), i)[j]
    {
      var k := if j < i then j else j + 1;
      assert w[j] == ids[k] && SameServer(msgs, msgs', servers, servers', ids[k]);
      assert Without(ServersAt(msgs, servers, ids), i)[j] == ServersAt(msgs, servers, ids)[k];
    }
  }

  lemma ServerChanges(msgs: Msgs, msgs': Msgs, servers: map<int, ServerRec>, servers': map<int, ServerRec>,
                      ids: seq<int>, i: nat)
    requires i < |ids| && forall j :: 0 <= j < |ids| && j != i ==> SameServer(msgs, msgs', servers, servers', ids[j])
    ensures ServersAt(msgs', servers', ids) == ServersAt(msgs, servers, ids)[i := ServerAt(msgs', servers', ids[i])]
  {
    forall j | 0 <= j < |ids| && j != i
      ensures ServerAt(msgs', servers', ids[j]) == ServersAt(msgs, servers, ids)[j]
    {
      assert SameServer(msgs, msgs', servers, servers', ids[j]);
    }
  }

  lemma ServersStay(msgs: Msgs, msgs': Msgs, servers: map<int, ServerRec>, servers': map<int, ServerRec>, ids: seq<int>)
    requires forall j :: 0 <= j < |ids| ==> SameServer(msgs, msgs', servers, servers', ids[j])
    ensures ServersAt(msgs', servers', ids) == ServersAt(msgs, servers, ids)
  {
    forall j | 0 <= j < |ids|
      ensures ServerAt(msgs', servers', ids[j]) == ServersAt(msgs, servers, ids)[j]
    {
      assert SameServer(msgs, msgs', servers, servers', ids[j]);
    }
  }

  /** The first match in a list is what the search function finds. */
  lemma FirstClient(cs: seq<ClientPair>, port: int, rid: uint16, i: nat)
    requires i <= |cs| && (i < |cs| ==> cs[i].port == port && cs[i].rid == rid)
    requires forall j :: 0 <= j < i ==> !(cs[j].port == port && cs[j].rid == rid)
    ensures i == FindClient(cs, port, rid)
  {
  }

  lemma FirstServer(ss: seq<ServerPair>, sender: Addr, rid: uint16, i: nat)
    requires i <= |ss| && (i < |ss| ==> ss[i].sender == sender && ss[i].rid == rid)
    requires forall j :: 0 <= j < i ==> !(ss[j].sender == sender && ss[j].rid == rid)
    ensures i == FindServer(ss, sender, rid)
  {
  }

  /** Everything an endpoint holds: messages, pairs, pending lists, sockets, running timers, the last request id. */
  datatype Holdings = Holdings(
    msgs: Msgs, clients: map<int, ClientRec>, servers: map<int, ServerRec>,
    pc: seq<int>, ps: seq<int>, sockets: map<int, int>, armed: set<int>, rid: uint16)

  /** The packet-level state these holdings stand for. */
  ghost function ViewOf(o: Holdings): Endpoint {
    Endpoint(ClientsAt(o.msgs, o.clients, o.pc), ServersAt(o.msgs, o.servers, o.ps),
             AppAt(o.msgs, o.servers, o.ps), o.rid)
  }

  /** Exactly the messages of live pairs exist, besides a buffer in hand. */
  ghost predicate OnlyLive(msgs: Msgs, hand: bool, clients: map<int, ClientRec>, servers: map<int, ServerRec>) {
    forall c :: c in msgs <==> Live(c, clients, servers) || (hand && c == InHand)
  }

  /** A server pair holds no reply between events: it is framed, sent and freed within one call. */
  ghost predicate NoReplies(msgs: Msgs) {
    forall id :: Msg(msgs, ServerReply(id)) == []
  }

  lemma OnlyLiveWithoutClient(msgs: Msgs, hand: bool, clients: map<int, ClientRec>, servers: map<int, ServerRec>,
                              id: int)
    requires OnlyLive(msgs, hand, clients, servers)
    ensures OnlyLive(msgs - {ClientReply(id)} - {ClientRequest(id)}, hand, clients - {id}, servers)
  {
    forall c: ChainId
      ensures c in msgs - {ClientReply(id)} - {ClientRequest(id)} <==>
              Live(c, clients - {id}, servers) || (hand && c == InHand)
    {
      assert c in msgs <==> Live(c, clients, servers) || (hand && c == InHand);
    }
  }

  lemma OnlyLiveWithoutServer(msgs: Msgs, hand: bool, clients: map<int, ClientRec>, servers: map<int, ServerRec>,
                              id: int)
    requires OnlyLive(msgs, hand, clients, servers)
    ensures OnlyLive(msgs - {ServerRequest(id)} - {ServerReply(id)}, hand, clients, servers - {id})
  {
    forall c: ChainId
      ensures c in msgs - {ServerRequest(id)} - {ServerReply(id)} <==>
              Live(c, clients, servers - {id}) || (hand && c == InHand)
    {
      assert c in msgs <==> Live(c, clients, servers) || (hand && c == InHand);
    }
  }

  /** Pairs, lists, sockets and messages fit together and nothing is left over, except a buffer in hand. */
  ghost predicate Conserved(o: Holdings, hand: bool) {
    && OnlyLive(o.msgs, hand, o.clients, o.servers)
    && NoReplies(o.msgs)
    && (hand ==> |o.msgs[InHand]| == 1)
    && Pending(o.pc, o.clients.Keys) && AllListed(o.clients, o.pc)
    && Pending(o.ps, o.servers.Keys) && AllHold(o.msgs, o.servers)
    && SocketsOk(o.sockets, o.armed, o.clients)
  }

  /** A server pair holds at least the first packet of its request. */
  ghost predicate AllHold(msgs: Msgs, servers: map<int, ServerRec>) {
    forall id :: id in servers ==> Msg(msgs, ServerRequest(id)) != []
  }

  /** Conserved holdings that stand for this state; stays out of proofs that only pass it on. */
  ghost predicate Stands(o: Holdings, view: Endpoint, hand: bool) {
    forall x {:trigger About(x)} :: x == o ==> Conserved(x, hand) && view == ViewOf(x)
  }

  lemma StandsMeans(o: Holdings, view: Endpoint, hand: bool)
    ensures Stands(o, view, hand) <==> Conserved(o, hand) && view == ViewOf(o)
  {
    assert About(o);
  }

  lemma SocketGivenBack(sockets: map<int, int>, armed: set<int>, clients: map<int, ClientRec>, id: int)
    requires SocketsOk(sockets, armed, clients) && id in clients
    ensures SocketsOk(sockets - {clients[id].port}, armed - {clients[id].port}, clients - {id})
  {
    var port := clients[id].port;
    assert (sockets - {port}).Keys == sockets.Keys - {port};
    SubsetSize((sockets - {port}).Keys, sockets.Keys);
  }

  // ----- what each manipulation does to the packet-level state -----

  /** Messages that belong to no pair do not show. */
  lemma SamePairs(o: Holdings, o': Holdings)
    requires o' == o.(msgs := o'.msgs)
    requires forall c: ChainId :: !c.Scratch? && !c.InHand? ==> Msg(o'.msgs, c) == Msg(o.msgs, c)
    ensures ViewOf(o') == ViewOf(o)
  {
    ClientsStay(o.msgs, o'.msgs, o.clients, o.clients, o.pc);
    ServersStay(o.msgs, o'.msgs, o.servers, o.servers, o.ps);
    assert AppAt(o'.msgs, o.servers, o.ps) == AppAt(o.msgs, o.servers, o.ps);
  }

  function Taken(o: Holdings, p: Packet): Holdings {
    o.(msgs := o.msgs[InHand := [p]])
  }

  lemma TakenStands(o: Holdings, view: Endpoint, p: Packet)
    requires Stands(o, view, false)
    ensures InHand !in o.msgs && Stands(Taken(o, p), view, true)
  {
    StandsMeans(o, view, false);
    SamePairs(o, Taken(o, p));
    StandsMeans(Taken(o, p), view, true);
  }

  function HandFreed(o: Holdings): Holdings {
    o.(msgs := o.msgs - {InHand})
  }

  lemma HandFreedStands(o: Holdings, view: Endpoint)
    requires Stands(o, view, true)
    ensures InHand in o.msgs && |o.msgs[InHand]| == 1 && Stands(HandFreed(o), view, false)
  {
    var o' := HandFreed(o);
    assert Conserved(o', false) by {
      StandsMeans(o, view, true);
    }
    assert view == ViewOf(o') by {
      StandsMeans(o, view, true);
      SamePairs(o, o');
    }
    StandsMeans(o, view, true);
    StandsMeans(o', view, false);
  }

  /** free_client_pair: the reply, the request, then the socket with its timer, if there is one, and the object. */
  function FreedClient(o: Holdings, id: int): Holdings
    requires id in o.clients
  {
    var port := o.clients[id].port;
    var o' := o.(msgs := o.msgs - {ClientReply(id)} - {ClientRequest(id)}, clients := o.clients - {id});
    if port == NIL then o' else o'.(sockets := o.sockets - {port}, armed := o.armed - {port})
  }

  /** free_server_pair: the request, the reply, and the object. */
  function FreedServer(o: Holdings, id: int): Holdings {
    o.(msgs := o.msgs - {ServerRequest(id)} - {ServerReply(id)}, servers := o.servers - {id})
  }

  function WithoutClient(o: Holdings, i: nat): Holdings
    requires i < |o.pc| && o.pc[i] in o.clients
  {
    var id := o.pc[i];
    var port := o.clients[id].port;
    o.(msgs := o.msgs - {ClientReply(id)} - {ClientRequest(id)}, clients := o.clients - {id}, pc := Without(o.pc, i),
       sockets := o.sockets - {port}, armed := o.armed - {port})
  }

  lemma WithoutClientConserved(o: Holdings, hand: bool, i: nat)
    requires Conserved(o, hand) && i < |o.pc|
    ensures Conserved(WithoutClient(o, i), hand)
  {
    var id, o' := o.pc[i], WithoutClient(o, i);
    assert o'.clients.Keys == o.clients.Keys - {id};
    assert SocketsOk(o'.sockets, o'.armed, o'.clients) by {
      SocketGivenBack(o.sockets, o.armed, o.clients, id);
    }
    assert Pending(o'.pc, o'.clients.Keys) && AllListed(o'.clients, o'.pc) by {
      WithoutPending(o.pc, o.clients.Keys, i);
    }
    assert OnlyLive(o'.msgs, hand, o'.clients, o'.servers) by {
      OnlyLiveWithoutClient(o.msgs, hand, o.clients, o.servers, id);
    }
  }

  lemma WithoutClientView(o: Holdings, i: nat)
    requires NoDup(o.pc) && i < |o.pc| && o.pc[i] in o.clients
    ensures ViewOf(WithoutClient(o, i)) == ViewOf(o).(clients := Without(ViewOf(o).clients, i))
  {
    var o' := WithoutClient(o, i);
    ClientLeaves(o.msgs, o'.msgs, o.clients, o'.clients, o.pc, i);
    ServersStay(o.msgs, o'.msgs, o.servers, o.servers, o.ps);
    assert AppAt(o'.msgs, o.servers, o.ps) == AppAt(o.msgs, o.servers, o.ps);
  }

  lemma PendingClientLives(o: Holdings, view: Endpoint, hand: bool, i: nat)
    requires Stands(o, view, hand) && i < |o.pc|
    ensures o.pc[i] in o.clients && ClientReply(o.pc[i]) in o.msgs && ClientRequest(o.pc[i]) in o.msgs
    ensures o.clients[o.pc[i]].port != NIL && o.clients[o.pc[i]].port in o.sockets && o.pc[i] !in Without(o.pc, i)
  {
    StandsMeans(o, view, hand);
    assert o.pc[i] in o.clients.Keys;
    WithoutPending(o.pc, o.clients.Keys, i);
  }

  lemma WithoutClientStands(o: Holdings, view: Endpoint, hand: bool, i: nat)
    requires Stands(o, view, hand) && i < |o.pc| && o.pc[i] in o.clients
    ensures |view.clients| == |o.pc|
    ensures Stands(WithoutClient(o, i), view.(clients := Without(view.clients, i)), hand)
  {
    StandsMeans(o, view, hand);
    var o' := WithoutClient(o, i);
    assert Conserved(o', hand) by {
      WithoutClientConserved(o, hand, i);
    }
    assert ViewOf(o') == view.(clients := Without(view.clients, i)) by {
      WithoutClientView(o, i);
    }
    StandsMeans(o', view.(clients := Without(view.clients, i)), hand);
  }

  function WithoutServer(o: Holdings, id: int, ps: seq<int>): Holdings {
    o.(msgs := o.msgs - {ServerRequest(id)} - {ServerReply(id)}, servers := o.servers - {id}, ps := ps)
  }

  lemma WithoutServerConserved(o: Holdings, hand: bool, id: int, ps: seq<int>)
    requires Conserved(o, hand) && Pending(ps, o.servers.Keys - {id})
    ensures Conserved(WithoutServer(o, id, ps), hand)
  {
    OnlyLiveWithoutServer(o.msgs, hand, o.clients, o.servers, id);
    assert WithoutServer(o, id, ps).servers.Keys == o.servers.Keys - {id};
  }

  lemma WithoutServerView(o: Holdings, i: nat)
    requires Pending(o.ps, o.servers.Keys) && i < |o.ps|
    ensures ViewOf(WithoutServer(o, o.ps[i], Without(o.ps, i))) == ViewOf(o).(servers := Without(ViewOf(o).servers, i))
  {
    var o' := WithoutServer(o, o.ps[i], Without(o.ps, i));
    WithoutPending(o.ps, o.servers.Keys, i);
    ServerLeaves(o.msgs, o'.msgs, o.servers, o'.servers, o.ps, i);
    ClientsStay(o.msgs, o'.msgs, o.clients, o.clients, o.pc);
    assert AppAt(o'.msgs, o'.servers, o'.ps) == AppAt(o.msgs, o.servers, o.ps);
  }

  lemma PendingServerLives(o: Holdings, view: Endpoint, hand: bool, i: nat)
    requires Stands(o, view, hand) && i < |o.ps|
    ensures o.ps[i] in o.servers && ServerReply(o.ps[i]) in o.msgs && ServerRequest(o.ps[i]) in o.msgs
    ensures o.ps[i] !in Without(o.ps, i)
  {
    StandsMeans(o, view, hand);
    WithoutPending(o.ps, o.servers.Keys, i);
    assert o.ps[i] in o.servers.Keys;
  }

  lemma WithoutServerStands(o: Holdings, view: Endpoint, hand: bool, i: nat)
    requires Stands(o, view, hand) && i < |o.ps|
    ensures |view.servers| == |o.ps|
    ensures Stands(WithoutServer(o, o.ps[i], Without(o.ps, i)), view.(servers := Without(view.servers, i)), hand)
  {
    StandsMeans(o, view, hand);
    var o' := WithoutServer(o, o.ps[i], Without(o.ps, i));
    assert Conserved(o', hand) by {
      WithoutPending(o.ps, o.servers.Keys, i);
      WithoutServerConserved(o, hand, o.ps[i], Without(o.ps, i));
    }
    assert ViewOf(o') == view.(servers := Without(view.servers, i)) by {
      WithoutServerView(o, i);
    }
    StandsMeans(o', view.(servers := Without(view.servers, i)), hand);
  }

  lemma AppLoses(msgs: Msgs, msgs': Msgs, servers: map<int, ServerRec>, ps: seq<int>, id: int)
    requires forall j :: j != id ==> SameServer(msgs, msgs', servers, servers - {id}, j)
    ensures AppAt(msgs', servers - {id}, ps) == AppAt(msgs, servers, ps) - {id}
  {
    var a, b := AppAt(msgs', servers - {id}, ps), AppAt(msgs, servers, ps) - {id};
    forall j | j in a
      ensures j in b && a[j] == b[j]
    {
      assert SameServer(msgs, msgs', servers, servers - {id}, j);
    }
  }

  lemma AnsweredView(o: Holdings, id: int)
    requires id !in o.ps
    ensures ViewOf(WithoutServer(o, id, o.ps)) == ViewOf(o).(app := ViewOf(o).app - {id})
  {
    var o' := WithoutServer(o, id, o.ps);
    ServersStay(o.msgs, o'.msgs, o.servers, o'.servers, o.ps);
    ClientsStay(o.msgs, o'.msgs, o.clients, o.clients, o.pc);
    AppLoses(o.msgs, o'.msgs, o.servers, o.ps, id);
  }

  /** A request leaves the application's hands. */
  lemma AnsweredStands(o: Holdings, view: Endpoint, id: int)
    requires Stands(o, view, false) && id in view.app
    ensures id in o.servers && id !in o.ps && ServerReply(id) in o.msgs && ServerRequest(id) in o.msgs
    ensures o.msgs[ServerReply(id)] == []
    ensures o.servers[id].sender == view.app[id].sender && o.servers[id].rid == view.app[id].rid
    ensures Stands(WithoutServer(o, id, o.ps), view.(app := view.app - {id}), false)
  {
    StandsMeans(o, view, false);
    assert Msg(o.msgs, ServerReply(id)) == [];
    WithoutServerConserved(o, false, id, o.ps);
    AnsweredView(o, id);
    StandsMeans(WithoutServer(o, id, o.ps), view.(app := view.app - {id}), false);
  }

  /** The buffer in hand joins the reply of pending client i, whose record changes to r. */
  function ReplyLinked(o: Holdings, i: nat, r: ClientRec): Holdings
    requires i < |o.pc| && InHand in o.msgs && ClientReply(o.pc[i]) in o.msgs
  {
    var c := ClientReply(o.pc[i]);
    o.(msgs := (o.msgs - {InHand})[c := o.msgs[c] + o.msgs[InHand]], clients := o.clients[o.pc[i] := r])
  }

  lemma ReplyLinkedConserved(o: Holdings, i: nat, r: ClientRec)
    requires Conserved(o, true) && i < |o.pc| && ClientReply(o.pc[i]) in o.msgs
    requires o.pc[i] in o.clients && r.port == o.clients[o.pc[i]].port
    ensures Conserved(ReplyLinked(o, i, r), false)
  {
    var o' := ReplyLinked(o, i, r);
    assert o'.clients.Keys == o.clients.Keys;
    forall c: ChainId
      ensures c in o'.msgs <==> Live(c, o'.clients, o'.servers)
    {
      assert c in o.msgs <==> Live(c, o.clients, o.servers) || c == InHand;
    }
  }

  lemma ReplyLinkedView(o: Holdings, i: nat, r: ClientRec)
    requires i < |o.pc| && InHand in o.msgs && ClientReply(o.pc[i]) in o.msgs && NoDup(o.pc)
    ensures var c := ViewOf(o).clients[i];
            var c' := ClientPair(r.token, r.port, r.rid, c.request,
                                 c.reply + o.msgs[InHand], r.expected, r.received, r.state);
            ViewOf(ReplyLinked(o, i, r)) == ViewOf(o).(clients := ViewOf(o).clients[i := c'])
  {
    var o' := ReplyLinked(o, i, r);
    ClientChanges(o.msgs, o'.msgs, o.clients, o'.clients, o.pc, i);
    ServersStay(o.msgs, o'.msgs, o.servers, o.servers, o.ps);
    assert AppAt(o'.msgs, o.servers, o.ps) == AppAt(o.msgs, o.servers, o.ps);
  }

  lemma ReplyLinkedStands(o: Holdings, view: Endpoint, i: nat, r: ClientRec)
    requires Stands(o, view, true) && i < |o.pc|
    requires o.pc[i] in o.clients && r.port == o.clients[o.pc[i]].port
    ensures InHand in o.msgs && |o.msgs[InHand]| == 1 && ClientReply(o.pc[i]) in o.msgs && |view.clients| == |o.pc|
    ensures var c := view.clients[i];
            var c' := ClientPair(r.token, r.port, r.rid, c.request,
                                 c.reply + o.msgs[InHand], r.expected, r.received, r.state);
            Stands(ReplyLinked(o, i, r), view.(clients := view.clients[i := c']), false)
  {
    StandsMeans(o, view, true);
    assert Live(ClientReply(o.pc[i]), o.clients, o.servers);
    ReplyLinkedConserved(o, i, r);
    ReplyLinkedView(o, i, r);
    var c := view.clients[i];
    var c' := ClientPair(r.token, r.port, r.rid, c.request, c.reply + o.msgs[InHand], r.expected, r.received, r.state);
    StandsMeans(ReplyLinked(o, i, r), view.(clients := view.clients[i := c']), false);
  }

  /** Only the record of pending client i changes. */
  function ClientSet(o: Holdings, i: nat, r: ClientRec): Holdings
    requires i < |o.pc|
  {
    o.(clients := o.clients[o.pc[i] := r])
  }

  lemma ClientSetStands(o: Holdings, view: Endpoint, hand: bool, i: nat, r: ClientRec)
    requires Stands(o, view, hand) && i < |o.pc|
    requires o.pc[i] in o.clients && r.port == o.clients[o.pc[i]].port
    ensures |view.clients| == |o.pc|
    ensures var c := view.clients[i];
            var c' := ClientPair(r.token, r.port, r.rid, c.request, c.reply, r.expected, r.received, r.state);
            Stands(ClientSet(o, i, r), view.(clients := view.clients[i := c']), hand)
  {
    StandsMeans(o, view, hand);
    var id, o' := o.pc[i], ClientSet(o, i, r);
    var c := view.clients[i];
    var c' := ClientPair(r.token, r.port, r.rid, c.request, c.reply, r.expected, r.received, r.state);
    assert Conserved(o', hand) by {
      assert o'.clients.Keys == o.clients.Keys;
    }
    assert ClientAt(o'.msgs, o'.clients, id) == c';
    ClientChanges(o.msgs, o'.msgs, o.clients, o'.clients, o.pc, i);
    StandsMeans(o', view.(clients := view.clients[i := c']), hand);
  }

  lemma NoScratch(o: Holdings, view: Endpoint, hand: bool)
    requires Stands(o, view, hand)
    ensures Scratch !in o.msgs && view.rid == o.rid
    ensures forall id :: id in view.app ==> id in o.servers
  {
    StandsMeans(o, view, hand);
    assert !Live(Scratch, o.clients, o.servers);
  }

  /** What the records of a pending client or server say about the packet-level pair. */
  lemma ClientFacts(o: Holdings, view: Endpoint, hand: bool, i: nat)
    requires Stands(o, view, hand) && i < |o.pc|
    ensures o.pc[i] in o.clients && |view.clients| == |o.pc|
    ensures ClientReply(o.pc[i]) in o.msgs && ClientRequest(o.pc[i]) in o.msgs
    ensures view.clients[i] == ClientAt(o.msgs, o.clients, o.pc[i])
  {
    StandsMeans(o, view, hand);
  }

  lemma ServerFacts(o: Holdings, view: Endpoint, hand: bool, i: nat)
    requires Stands(o, view, hand) && i < |o.ps|
    ensures o.ps[i] in o.servers && |view.servers| == |o.ps|
    ensures ServerRequest(o.ps[i]) in o.msgs && ServerReply(o.ps[i]) in o.msgs
    ensures view.servers[i] == ServerAt(o.msgs, o.servers, o.ps[i])
  {
    StandsMeans(o, view, hand);
  }

  /** A new client pair with its request, its socket and its timer, at the end of the list. */
  function WithClient(o: Holdings, id: int, r: ClientRec, request: seq<Packet>): Holdings {
    o.(msgs := o.msgs[ClientReply(id) := []][ClientRequest(id) := request],
       clients := o.clients[id := r],
       pc := o.pc + [id], sockets := o.sockets[r.port := id], armed := o.armed + {r.port}, rid := r.rid)
  }

  lemma OnlyLiveWithClient(o: Holdings, id: int, r: ClientRec, request: seq<Packet>)
    requires OnlyLive(o.msgs, false, o.clients, o.servers)
    ensures var o' := WithClient(o, id, r, request); OnlyLive(o'.msgs, false, o'.clients, o'.servers)
  {
    var o' := WithClient(o, id, r, request);
    forall c: ChainId
      ensures c in o'.msgs <==> Live(c, o'.clients, o'.servers)
    {
      assert c in o.msgs <==> Live(c, o.clients, o.servers);
    }
  }

  lemma SocketTaken(sockets: map<int, int>, armed: set<int>, clients: map<int, ClientRec>, id: int, r: ClientRec)
    requires SocketsOk(sockets, armed, clients) && id !in clients && r.port !in sockets && |sockets| < SOCKPOOL_SIZE
    requires 0 <= r.port < SOCKPOOL_SIZE
    ensures SocketsOk(sockets[r.port := id], armed + {r.port}, clients[id := r])
  {
    assert sockets[r.port := id].Keys == sockets.Keys + {r.port};
  }

  lemma SnocPending(ids: seq<int>, live: set<int>, id: int)
    requires Pending(ids, live) && id !in live
    ensures Pending(ids + [id], live + {id}) && id in ids + [id]
    ensures forall x :: x in ids ==> x in ids + [id]
  {
    assert (ids + [id])[|ids|] == id;
  }

  lemma WithClientReplies(o: Holdings, id: int, r: ClientRec, request: seq<Packet>)
    requires NoReplies(o.msgs)
    ensures NoReplies(WithClient(o, id, r, request).msgs)
  {
    var o' := WithClient(o, id, r, request);
    forall x: int
      ensures Msg(o'.msgs, ServerReply(x)) == []
    {
      assert Msg(o.msgs, ServerReply(x)) == [];
    }
  }

  lemma WithClientLists(o: Holdings, id: int, r: ClientRec, request: seq<Packet>)
    requires Pending(o.pc, o.clients.Keys) && AllListed(o.clients, o.pc) && id !in o.clients
    ensures var o' := WithClient(o, id, r, request);
            Pending(o'.pc, o'.clients.Keys) && AllListed(o'.clients, o'.pc)
  {
    var o' := WithClient(o, id, r, request);
    assert o'.clients.Keys == o.clients.Keys + {id};
    SnocPending(o.pc, o.clients.Keys, id);
  }

  lemma WithClientConserved(o: Holdings, id: int, r: ClientRec, request: seq<Packet>)
    requires Conserved(o, false) && id !in o.clients && r.port !in o.sockets && |o.sockets| < SOCKPOOL_SIZE
    requires 0 <= r.port < SOCKPOOL_SIZE
    ensures Conserved(WithClient(o, id, r, request), false)
  {
    SocketTaken(o.sockets, o.armed, o.clients, id, r);
    OnlyLiveWithClient(o, id, r, request);
    WithClientReplies(o, id, r, request);
    WithClientLists(o, id, r, request);
  }

  lemma WithClientView(o: Holdings, id: int, r: ClientRec, request: seq<Packet>)
    requires id !in o.pc
    ensures ViewOf(WithClient(o, id, r, request)) ==
            ViewOf(o).(clients := ViewOf(o).clients
                         + [ClientPair(r.token, r.port, r.rid, request, [], r.expected, r.received, r.state)],
                       rid := r.rid)
  {
    var o' := WithClient(o, id, r, request);
    ClientsStay(o.msgs, o'.msgs, o.clients, o'.clients, o.pc);
    assert ClientsAt(o'.msgs, o'.clients, o'.pc)
        == ClientsAt(o'.msgs, o'.clients, o.pc) + [ClientAt(o'.msgs, o'.clients, id)];
    ServersStay(o.msgs, o'.msgs, o.servers, o.servers, o.ps);
    assert AppAt(o'.msgs, o.servers, o.ps) == AppAt(o.msgs, o.servers, o.ps);
  }

  lemma WithClientStands(o: Holdings, view: Endpoint, id: int, r: ClientRec, request: seq<Packet>)
    requires Stands(o, view, false) && id !in o.clients && r.port !in o.sockets && |o.sockets| < SOCKPOOL_SIZE
    requires 0 <= r.port < SOCKPOOL_SIZE
    ensures ClientRequest(id) !in o.msgs && ClientReply(id) !in o.msgs
    ensures var c := ClientPair(r.token, r.port, r.rid, request, [], r.expected, r.received, r.state);
            Stands(WithClient(o, id, r, request), view.(clients := view.clients + [c], rid := r.rid), false)
  {
    StandsMeans(o, view, false);
    WithClientConserved(o, id, r, request);
    WithClientView(o, id, r, request);
    var c := ClientPair(r.token, r.port, r.rid, request, [], r.expected, r.received, r.state);
    StandsMeans(WithClient(o, id, r, request), view.(clients := view.clients + [c], rid := r.rid), false);
  }

  /** The buffer in hand becomes the first packet of a new server pair, pending or not. */
  function WithServer(o: Holdings, id: int, r: ServerRec, pending: bool): Holdings
    requires InHand in o.msgs
  {
    o.(msgs := (o.msgs - {InHand})[ServerReply(id) := []][ServerRequest(id) := o.msgs[InHand]],
       servers := o.servers[id := r], ps := if pending then o.ps + [id] else o.ps)
  }

  lemma OnlyLiveWithServer(o: Holdings, id: int, r: ServerRec, pending: bool)
    requires OnlyLive(o.msgs, true, o.clients, o.servers)
    ensures var o' := WithServer(o, id, r, pending); OnlyLive(o'.msgs, false, o'.clients, o'.servers)
  {
    var o' := WithServer(o, id, r, pending);
    forall c: ChainId
      ensures c in o'.msgs <==> Live(c, o'.clients, o'.servers)
    {
      assert c in o.msgs <==> Live(c, o.clients, o.servers) || c == InHand;
    }
  }

  lemma WithServerReplies(o: Holdings, id: int, r: ServerRec, pending: bool)
    requires NoReplies(o.msgs) && InHand in o.msgs
    ensures NoReplies(WithServer(o, id, r, pending).msgs)
  {
    var o' := WithServer(o, id, r, pending);
    forall x: int
      ensures Msg(o'.msgs, ServerReply(x)) == []
    {
      assert Msg(o.msgs, ServerReply(x)) == [];
    }
  }

  lemma WithServerLists(o: Holdings, id: int, r: ServerRec, pending: bool)
    requires Pending(o.ps, o.servers.Keys) && id !in o.servers && InHand in o.msgs
    ensures var o' := WithServer(o, id, r, pending); Pending(o'.ps, o'.servers.Keys)
  {
    SnocPending(o.ps, o.servers.Keys, id);
    assert o.servers[id := r].Keys == o.servers.Keys + {id};
  }

  lemma WithServerConserved(o: Holdings, id: int, r: ServerRec, pending: bool)
    requires Conserved(o, true) && id !in o.servers
    ensures Conserved(WithServer(o, id, r, pending), false)
  {
    OnlyLiveWithServer(o, id, r, pending);
    WithServerReplies(o, id, r, pending);
    WithServerLists(o, id, r, pending);
  }

  lemma WithServerView(o: Holdings, id: int, r: ServerRec, pending: bool)
    requires InHand in o.msgs && id !in o.servers && id !in o.ps
    ensures var sp := ServerPair(r.sender, r.rid, o.msgs[InHand], r.expected, r.received);
            ViewOf(WithServer(o, id, r, pending)) ==
            if pending then ViewOf(o).(servers := ViewOf(o).servers + [sp])
            else ViewOf(o).(app := ViewOf(o).app[id := sp])
  {
    var o' := WithServer(o, id, r, pending);
    ClientsStay(o.msgs, o'.msgs, o.clients, o.clients, o.pc);
    ServersStay(o.msgs, o'.msgs, o.servers, o'.servers, o.ps);
    if pending {
      assert ServersAt(o'.msgs, o'.servers, o'.ps)
          == ServersAt(o'.msgs, o'.servers, o.ps) + [ServerAt(o'.msgs, o'.servers, id)];
      assert AppAt(o'.msgs, o'.servers, o'.ps) == AppAt(o.msgs, o.servers, o.ps);
    } else {
      assert AppAt(o'.msgs, o'.servers, o'.ps)
             == AppAt(o.msgs, o.servers, o.ps)[id := ServerAt(o'.msgs, o'.servers, id)];
    }
  }

  lemma WithServerStands(o: Holdings, view: Endpoint, id: int, r: ServerRec, pending: bool)
    requires Stands(o, view, true) && id !in o.servers
    ensures InHand in o.msgs && |o.msgs[InHand]| == 1 && ServerRequest(id) !in o.msgs && ServerReply(id) !in o.msgs
    ensures var sp := ServerPair(r.sender, r.rid, o.msgs[InHand], r.expected, r.received);
            Stands(WithServer(o, id, r, pending),
                   if pending then view.(servers := view.servers + [sp]) else view.(app := view.app[id := sp]), false)
  {
    StandsMeans(o, view, true);
    WithServerConserved(o, id, r, pending);
    WithServerView(o, id, r, pending);
    var sp := ServerPair(r.sender, r.rid, o.msgs[InHand], r.expected, r.received);
    StandsMeans(WithServer(o, id, r, pending),
                if pending then view.(servers := view.servers + [sp]) else view.(app := view.app[id := sp]), false);
  }

  /** The buffer in hand joins the request of pending server pair i, whose record changes to r. */
  function RequestLinked(o: Holdings, i: nat, r: ServerRec): Holdings
    requires i < |o.ps| && InHand in o.msgs && ServerRequest(o.ps[i]) in o.msgs
  {
    var c := ServerRequest(o.ps[i]);
    o.(msgs := (o.msgs - {InHand})[c := o.msgs[c] + o.msgs[InHand]], servers := o.servers[o.ps[i] := r])
  }

  lemma RequestLinkedConserved(o: Holdings, i: nat, r: ServerRec)
    requires Conserved(o, true) && i < |o.ps| && ServerRequest(o.ps[i]) in o.msgs
    ensures Conserved(RequestLinked(o, i, r), false)
  {
    var o' := RequestLinked(o, i, r);
    assert o'.servers.Keys == o.servers.Keys;
    forall c: ChainId
      ensures c in o'.msgs <==> Live(c, o'.clients, o'.servers)
    {
      assert c in o.msgs <==> Live(c, o.clients, o.servers) || c == InHand;
    }
  }

  lemma RequestLinkedView(o: Holdings, i: nat, r: ServerRec)
    requires i < |o.ps| && InHand in o.msgs && ServerRequest(o.ps[i]) in o.msgs && Pending(o.ps, o.servers.Keys)
    ensures var sp := ServerPair(r.sender, r.rid, ViewOf(o).servers[i].request + o.msgs[InHand],
                                  r.expected, r.received);
            ViewOf(RequestLinked(o, i, r)) == ViewOf(o).(servers := ViewOf(o).servers[i := sp])
  {
    var o' := RequestLinked(o, i, r);
    ServerChanges(o.msgs, o'.msgs, o.servers, o'.servers, o.ps, i);
    ClientsStay(o.msgs, o'.msgs, o.clients, o.clients, o.pc);
    assert AppAt(o'.msgs, o'.servers, o.ps) == AppAt(o.msgs, o.servers, o.ps);
  }

  lemma RequestLinkedStands(o: Holdings, view: Endpoint, i: nat, r: ServerRec)
    requires Stands(o, view, true) && i < |o.ps|
    ensures InHand in o.msgs && |o.msgs[InHand]| == 1 && ServerRequest(o.ps[i]) in o.msgs && |view.servers| == |o.ps|
    ensures var sp := ServerPair(r.sender, r.rid, view.servers[i].request + o.msgs[InHand], r.expected, r.received);
            Stands(RequestLinked(o, i, r), view.(servers := view.servers[i := sp]), false)
  {
    StandsMeans(o, view, true);
    assert Live(ServerRequest(o.ps[i]), o.clients, o.servers);
    RequestLinkedConserved(o, i, r);
    RequestLinkedView(o, i, r);
    var sp := ServerPair(r.sender, r.rid, view.servers[i].request + o.msgs[InHand], r.expected, r.received);
    StandsMeans(RequestLinked(o, i, r), view.(servers := view.servers[i := sp]), false);
  }

  /** A complete request leaves the pending list for the application. */
  lemma ToAppView(o: Holdings, i: nat)
    requires i < |o.ps| && Pending(o.ps, o.servers.Keys)
    ensures ViewOf(o.(ps := Without(o.ps, i))) ==
            ViewOf(o).(servers := Without(ViewOf(o).servers, i), app := ViewOf(o).app[o.ps[i] := ViewOf(o).servers[i]])
  {
    WithoutPending(o.ps, o.servers.Keys, i);
    ServerLeaves(o.msgs, o.msgs, o.servers, o.servers, o.ps, i);
    assert AppAt(o.msgs, o.servers, Without(o.ps, i))
        == AppAt(o.msgs, o.servers, o.ps)[o.ps[i] := ServerAt(o.msgs, o.servers, o.ps[i])];
  }

  lemma ToAppStands(o: Holdings, view: Endpoint, i: nat)
    requires Stands(o, view, false) && i < |o.ps|
    ensures |view.servers| == |o.ps| && o.ps[i] !in view.app
    ensures Stands(o.(ps := Without(o.ps, i)),
                   view.(servers := Without(view.servers, i), app := view.app[o.ps[i] := view.servers[i]]), false)
  {
    StandsMeans(o, view, false);
    WithoutPending(o.ps, o.servers.Keys, i);
    ToAppView(o, i);
    StandsMeans(o.(ps := Without(o.ps, i)),
                view.(servers := Without(view.servers, i), app := view.app[o.ps[i] := view.servers[i]]), false);
  }

  // ----- pairs that are allocated and freed within one event -----

  /** A server pair just allocated, with empty messages. */
  function ServerAllocated(o: Holdings, id: int, r: ServerRec): Holdings {
    o.(msgs := o.msgs[ServerReply(id) := []][ServerRequest(id) := []], servers := o.servers[id := r])
  }

  /** The buffer in hand joins a message. */
  function HandJoined(o: Holdings, c: ChainId): Holdings
    requires c in o.msgs && InHand in o.msgs
  {
    o.(msgs := (o.msgs - {InHand})[c := o.msgs[c] + o.msgs[InHand]])
  }

  /** Allocating a pair, listing it or not, and linking the packet in hand is what WithServer says. */
  lemma AllocatedAndLinked(o: Holdings, id: int, r: ServerRec, pending: bool)
    requires InHand in o.msgs && ServerRequest(id) !in o.msgs && ServerReply(id) !in o.msgs
    ensures var a := ServerAllocated(o, id, r);
            HandJoined(a.(ps := if pending then o.ps + [id] else o.ps), ServerRequest(id))
              == WithServer(o, id, r, pending)
  {
    var a, w := ServerAllocated(o, id, r), WithServer(o, id, r, pending);
    var b := HandJoined(a.(ps := if pending then o.ps + [id] else o.ps), ServerRequest(id));
    assert [] + o.msgs[InHand] == o.msgs[InHand];
    assert b.msgs == w.msgs;
  }

  /** Freeing a pair that was allocated and given the packet in hand leaves what freeing the packet alone leaves. */
  lemma AllocatedAndFreed(o: Holdings, id: int, r: ServerRec)
    requires InHand in o.msgs && ServerRequest(id) !in o.msgs && ServerReply(id) !in o.msgs && id !in o.servers
    ensures FreedServer(WithServer(o, id, r, false), id) == HandFreed(o)
  {
    var f := FreedServer(WithServer(o, id, r, false), id);
    assert f.msgs == o.msgs - {InHand};
    assert f.servers == o.servers;
  }

  /** A client pair just allocated, with empty messages and no socket. */
  function ClientAllocated(o: Holdings, id: int, r: ClientRec): Holdings {
    o.(msgs := o.msgs[ClientReply(id) := []][ClientRequest(id) := []], clients := o.clients[id := r])
  }

  /** Giving back a pair for which there was no socket restores everything. */
  lemma ClientGivenBack(o: Holdings, id: int, r: ClientRec)
    requires id !in o.clients && ClientRequest(id) !in o.msgs && ClientReply(id) !in o.msgs && r.port == NIL
    ensures FreedClient(ClientAllocated(o, id, r), id) == o
  {
    var f := FreedClient(ClientAllocated(o, id, r), id);
    assert f.msgs == o.msgs;
    assert f.clients == o.clients;
  }

  /** Only live pairs have messages, so a new pair's places are free. */
  lemma PlacesFree(o: Holdings, view: Endpoint, hand: bool)
    requires Stands(o, view, hand)
    ensures forall x :: x !in o.servers ==> ServerRequest(x) !in o.msgs && ServerReply(x) !in o.msgs
    ensures forall x :: x !in o.clients ==> ClientRequest(x) !in o.msgs && ClientReply(x) !in o.msgs
  {
    StandsMeans(o, view, hand);
    forall x | x !in o.servers
      ensures ServerRequest(x) !in o.msgs && ServerReply(x) !in o.msgs
    {
      assert !Live(ServerRequest(x), o.clients, o.servers) && !Live(ServerReply(x), o.clients, o.servers);
    }
    forall x | x !in o.clients
      ensures ClientRequest(x) !in o.msgs && ClientReply(x) !in o.msgs
    {
      assert !Live(ClientRequest(x), o.clients, o.servers) && !Live(ClientReply(x), o.clients, o.servers);
    }
  }

  /** A taken socket serves the call that is found by its port, and a free one has no timer running. */
  lemma SocketFacts(o: Holdings, view: Endpoint, slot: int) returns (i: nat)
    requires Stands(o, view, false)
    ensures |view.clients| == |o.pc| && i == FindPort(view.clients, slot)
    ensures slot in o.sockets ==> i < |o.pc| && o.pc[i] == o.sockets[slot] && o.pc[i] in o.clients
    ensures slot in o.sockets ==> o.clients[o.pc[i]].port == slot
    ensures slot !in o.sockets ==> i == |o.pc| && o.armed - {slot} == o.armed
  {
    StandsMeans(o, view, false);
    i := FindPort(view.clients, slot);
    if slot in o.sockets {
      var id := o.sockets[slot];
      assert id in o.clients && id in o.pc;
      var k :| 0 <= k < |o.pc| && o.pc[k] == id;
      assert view.clients[k] == ClientAt(o.msgs, o.clients, id);
      assert i <= k && o.pc[i] in o.clients.Keys;
      assert view.clients[i] == ClientAt(o.msgs, o.clients, o.pc[i]);
      assert o.clients[o.pc[i]].port == slot;
    }
  }

  lemma NotListed(o: Holdings, view: Endpoint, hand: bool, id: int)
    requires Stands(o, view, hand) && id !in o.servers
    ensures id !in o.ps && id !in view.app
  {
    StandsMeans(o, view, hand);
    assert forall i :: 0 <= i < |o.ps| ==> o.ps[i] in o.servers.Keys;
  }

  lemma PendingNotInApp(o: Holdings, view: Endpoint, hand: bool, i: nat)
    requires Stands(o, view, hand) && i < |o.ps|
    ensures o.ps[i] !in view.app
  {
    StandsMeans(o, view, hand);
    assert o.ps[i] in o.ps;
  }

  lemma NotListedClient(o: Holdings, view: Endpoint, hand: bool, id: int)
    requires Stands(o, view, hand) && id !in o.clients
    ensures id !in o.pc
  {
    StandsMeans(o, view, hand);
    assert forall i :: 0 <= i < |o.pc| ==> o.pc[i] in o.clients.Keys;
  }
}
