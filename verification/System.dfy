/**
 Clients, servers and a network that loses and reorders but does not duplicate datagrams.
 Every run keeps an invariant from which end-to-end delivery, handshake safety and
 single completion follow.
 */
module System {
  import opened Wire
  import opened Collections
  import opened Transport
  import Framing

  datatype Datagram = Datagram(src: Addr, dst: Addr, pkt: Packet)

  /** What identifies a request: the sender's address and the request id. */
  datatype Key = Key(addr: Addr, rid: uint16)

  /** How far a request has come, as seen from the effects it caused. */
  datatype Phase =
    | Req0Out
    | Refused
    | AckOut(server: int)
    | RestOut(server: int)
    | InApp(server: int)
    | Answered(server: int, reply: seq<Packet>, bytes: seq<byte>)

  /** History of one request: what the caller supplied, where it went, what the application was handed. */
  datatype Record = Record(
    token: int, bytes: seq<byte>, dst: Addr, request: seq<Packet>, phase: Phase, handed: seq<seq<byte>>)

  /** History of one call: the host that made it, the key it got, and the callbacks it received. */
  datatype Call = Call(host: int, key: Option<Key>, outcomes: seq<Completion>)

  /** No step reads `log` or `calls`, except that a new request must have an unused key. */
  datatype State = State(
    hosts: map<int, Endpoint>, net: multiset<Datagram>, log: map<Key, Record>, calls: map<int, Call>)

  datatype Step =
    | DoCall(host: int, token: int, port: Option<int>, dst: Addr, policy: Policy, bytes: seq<byte>, pkts: seq<Packet>)
    | Lose(d: Datagram)
    | Deliver(d: Datagram, at: int, keep: bool, handle: int)
    | Answer(host: int, handle: int, bytes: seq<byte>, pkts: seq<Packet>)
    | Timer(host: int, socket: int)

  predicate Init(s: State) {
    && s.net == multiset{} && s.log == map[] && s.calls == map[]
    && forall h :: h in s.hosts ==> s.hosts[h].clients == [] && s.hosts[h].servers == [] && s.hosts[h].app == map[]
  }

  predicate PortFree(e: Endpoint, port: int) {
    forall c :: c in e.clients ==> c.port != port
  }

  ghost predicate Enabled(s: State, step: Step) {
    match step
    case DoCall(h, token, port, dst, policy, bytes, pkts) =>
      && h in s.hosts && token !in s.calls && 0 < |pkts| <= BUFPOOL_SIZE && policy in {LbRoute, FixedRoute}
      && Framing.Framed(pkts, bytes, Request, policy, Inc16(s.hosts[h].rid))
      && (port.None? <==> |s.hosts[h].clients| >= SOCKPOOL_SIZE)
      && (port.Some? ==> PortFree(s.hosts[h], port.value)
                         && Key(Addr(h, port.value), Inc16(s.hosts[h].rid)) !in s.log)
    case Lose(d) => d in s.net
    case Deliver(d, at, keep, handle) =>
      && d in s.net && at in s.hosts && handle !in s.hosts[at].app
      // the first packet of a request may be routed to any server
      && (d.dst.host == at || (d.pkt.header.typ == Request && d.pkt.header.first))
    case Answer(h, handle, bytes, pkts) =>
      && h in s.hosts && handle in s.hosts[h].app && |pkts| <= BUFPOOL_SIZE
      && Framing.Framed(pkts, bytes, Response, FixedRoute, s.hosts[h].app[handle].rid)
    case Timer(h, port) => h in s.hosts
  }

  /** What the code of the concerned endpoint does. */
  function React(s: State, step: Step): Outcome
    requires !step.Lose?
    requires step.DoCall? ==> step.host in s.hosts && step.pkts != []
    requires step.Deliver? ==> step.at in s.hosts
    requires step.Answer? ==> step.host in s.hosts && step.handle in s.hosts[step.host].app
    requires step.Timer? ==> step.host in s.hosts
  {
    match step
    case DoCall(h, token, port, dst, policy, bytes, pkts) => SendRequest(s.hosts[h], token, port, dst, pkts)
    case Deliver(d, at, keep, handle) => HandleIncoming(s.hosts[at], d.pkt, d.src, d.dst.port, keep, handle)
    case Answer(h, handle, bytes, pkts) => SendReply(s.hosts[h], handle, pkts)
    case Timer(h, port) => FireTimer(s.hosts[h], port)
  }

  function Datagrams(src: Addr, dst: Addr, pkts: seq<Packet>): seq<Datagram> {
    seq(|pkts|, i requires 0 <= i < |pkts| => Datagram(src, dst, pkts[i]))
  }

  function SetPhase(log: map<Key, Record>, k: Key, phase: Phase): map<Key, Record> {
    if k in log then log[k := log[k].(phase := phase)] else log
  }

  /** Reading a request's progress off the datagrams that were sent. */
  function NoteSend(log: map<Key, Record>, h: int, port: int, dst: Addr, pkts: seq<Packet>, bytes: seq<byte>)
    : map<Key, Record>
  {
    if pkts == [] then log
    else
      var p := pkts[0].header;
      var k := Key(dst, p.rid);
      match p.typ
      case Ack => SetPhase(log, k, AckOut(h))
      case Drop => SetPhase(log, k, Refused)
      case Response => SetPhase(log, k, Answered(h, pkts, bytes))
      case Request =>
        if p.first then log else SetPhase(log, Key(Addr(h, port), p.rid), RestOut(dst.host))
      case _ => log
  }

  /** The system after host h moved to e with one effect. */
  function Observe(s: State, h: int, e: Endpoint, effect: Effect, bytes: seq<byte>): State {
    var s1 := s.(hosts := s.hosts[h := e]);
    match effect
    case Nothing => s1
    case Send(port, dst, pkts) =>
      s1.(net := s.net + multiset(Datagrams(Addr(h, port), dst, pkts)),
          log := NoteSend(s.log, h, port, dst, pkts, bytes))
    case Hand(handle, sp) =>
      var k := Key(sp.sender, sp.rid);
      if k !in s.log then s1
      else s1.(log := s.log[k := s.log[k].(phase := InApp(h), handed := s.log[k].handed + [Payload(sp.request)])])
    case Complete(token, outcome) =>
      if token !in s.calls then s1
      else s1.(calls := s.calls[token := s.calls[token].(outcomes := s.calls[token].outcomes + [outcome])])
  }

  /** Recording a call before its effects are observed. */
  function Register(s: State, step: Step): State
    requires step.DoCall? && step.host in s.hosts
  {
    var rid := Inc16(s.hosts[step.host].rid);
    var key := if step.port.None? then None else Some(Key(Addr(step.host, step.port.value), rid));
    s.(calls := s.calls[step.token := Call(step.host, key, [])],
       log := if key.None? then s.log
              else s.log[key.value := Record(step.token, step.bytes, step.dst, step.pkts, Req0Out, [])])
  }

  ghost predicate Next(s: State, step: Step, s': State) {
    && Enabled(s, step)
    && match step
       case Lose(d) => s' == s.(net := s.net - multiset{d})
       case DoCall(h, _, _, _, _, _, _) =>
         var r := React(s, step);
         r.Ok? && s' == Observe(Register(s, step), h, r.e, r.effect, [])
       case Deliver(d, at, _, _) =>
         var r := React(s, step);
         r.Ok? && s' == Observe(s.(net := s.net - multiset{d}), at, r.e, r.effect, [])
       case Answer(h, _, bytes, _) =>
         var r := React(s, step);
         r.Ok? && s' == Observe(s, h, r.e, r.effect, bytes)
       case Timer(h, _) =>
         var r := React(s, step);
         r.Ok? && s' == Observe(s, h, r.e, r.effect, [])
  }

  // ----- the invariant, entity by entity; everything is judged against the log -----

  predicate RecordOk(k: Key, r: Record)
  {
    && 0 < |r.request| <= BUFPOOL_SIZE
    && Payload(r.request) == r.bytes
    && (forall j :: 0 <= j < |r.request| ==>
          PacketOk(r.request[j], j, |r.request|, Request, k.rid) && !IsReplicated(r.request[j].header))
    && (r.phase.AckOut? || r.phase.RestOut? ==> |r.request| > 1)
    && (if r.phase.InApp? || r.phase.Answered? then r.handed == [r.bytes] else r.handed == [])
    && (r.phase.Answered? ==> ReplyOk(r.phase.reply, r.phase.bytes, k.rid))
  }

  predicate PacketOk(p: Packet, j: nat, n: nat, typ: MsgType, rid: uint16)
    requires j < n <= BUFPOOL_SIZE
  {
    var h := p.header;
    h.typ == typ && h.rid == rid && h.first == (j == 0) && h.last == (j == n - 1) && h.order == if j == 0 then n else j
  }

  predicate ReplyOk(reply: seq<Packet>, bytes: seq<byte>, rid: uint16) {
    && 0 < |reply| <= BUFPOOL_SIZE && Payload(reply) == bytes
    && forall j :: 0 <= j < |reply| ==> PacketOk(reply[j], j, |reply|, Response, rid)
  }

  predicate RestSent(phase: Phase) {
    phase.RestOut? || phase.InApp? || phase.Answered?
  }

  predicate ClientOk(log: map<Key, Record>, calls: map<int, Call>, h: int, c: ClientPair) {
    var k := Key(Addr(h, c.port), c.rid);
    && k in log
    && c.token == log[k].token && c.request == log[k].request && c.request != []
    && c.token in calls && calls[c.token] == Call(h, Some(k), [])
    && (c.state == WAck ==> |c.request| > 1 && !RestSent(log[k].phase))
    && (c.state == WResponse ==> |c.request| == 1 || RestSent(log[k].phase))
    && if log[k].phase.Answered? then
         var reply := log[k].phase.reply;
         c.received < |reply| && c.reply == reply[..c.received] && (c.received > 0 ==> c.expected == |reply|)
       else c.reply == [] && c.received == 0
  }

  predicate ServerOk(log: map<Key, Record>, h: int, sp: ServerPair) {
    var k := Key(sp.sender, sp.rid);
    && k in log
    && (log[k].phase == AckOut(h) || log[k].phase == RestOut(h))
    && (log[k].phase.AckOut? ==> sp.received == 1)
    && 1 <= sp.received < |log[k].request|
    && sp.request == log[k].request[..sp.received] && sp.expected == |log[k].request|
  }

  predicate AppOk(log: map<Key, Record>, h: int, sp: ServerPair) {
    var k := Key(sp.sender, sp.rid);
    k in log && log[k].phase == InApp(h)
  }

  ghost predicate ClientsOk(log: map<Key, Record>, calls: map<int, Call>, h: int, cs: seq<ClientPair>) {
    && (forall c {:trigger ClientOk(log, calls, h, c)} :: c in cs ==> ClientOk(log, calls, h, c))
    && (forall i, j :: 0 <= i < j < |cs| ==> cs[i].port != cs[j].port && cs[i].token != cs[j].token)
  }

  ghost predicate ServersOk(log: map<Key, Record>, h: int, ss: seq<ServerPair>) {
    && (forall sp {:trigger ServerOk(log, h, sp)} :: sp in ss ==> ServerOk(log, h, sp))
    && (forall i, j :: 0 <= i < j < |ss| ==> ss[i].sender != ss[j].sender || ss[i].rid != ss[j].rid)
  }

  ghost predicate AppsOk(log: map<Key, Record>, h: int, app: map<int, ServerPair>) {
    && (forall id {:trigger AppOk(log, h, app[id])} :: id in app ==> AppOk(log, h, app[id]))
    && (forall a, b :: a in app && b in app && a != b ==>
          app[a].sender != app[b].sender || app[a].rid != app[b].rid)
  }

  ghost predicate HostOk(log: map<Key, Record>, calls: map<int, Call>, h: int, e: Endpoint) {
    ClientsOk(log, calls, h, e.clients) && ServersOk(log, h, e.servers) && AppsOk(log, h, e.app)
  }

  function KeyOf(d: Datagram): Key {
    Key(if d.pkt.header.typ == Request then d.src else d.dst, d.pkt.header.rid)
  }

  function IndexOf(h: Header): nat {
    if h.first then 0 else h.order
  }

  predicate DatagramOk(log: map<Key, Record>, d: Datagram) {
    var k, p := KeyOf(d), d.pkt;
    && k in log
    && match p.header.typ
       case Request =>
         var j := IndexOf(p.header);
         && j < |log[k].request| && log[k].request[j] == p
         && (j == 0 ==> log[k].phase == Req0Out && d.dst == log[k].dst)
         && (j > 0 ==> RestSent(log[k].phase) && d.dst.host == log[k].phase.server)
       case Ack => log[k].phase == AckOut(d.src.host) && d.src.port == SERVER_PORT && p == AckPacket(k.rid)
       case Drop => log[k].phase == Refused
       case Response =>
         var j := IndexOf(p.header);
         && log[k].phase.Answered? && d.src == Addr(log[k].phase.server, SERVER_PORT)
         && j < |log[k].phase.reply| && log[k].phase.reply[j] == p
       case _ => false
  }

  /** Datagrams whose second delivery the protocol could not tell from the first. */
  predicate OnceOnly(d: Datagram) {
    d.pkt.header.typ == Ack || (d.pkt.header.first && d.pkt.header.typ in {Request, Response})
  }

  /** While the first reply packet is in flight its client has counted nothing in. */
  ghost predicate NotYetCounted(hosts: map<int, Endpoint>, d: Datagram) {
    d.pkt.header.typ == Response && d.pkt.header.first && d.dst.host in hosts ==>
      forall c :: c in hosts[d.dst.host].clients && c.port == d.dst.port && c.rid == d.pkt.header.rid
                  ==> c.received == 0
  }

  predicate Waiting(e: Endpoint, token: int) {
    exists c :: c in e.clients && c.token == token
  }

  ghost predicate CallOk(hosts: map<int, Endpoint>, log: map<Key, Record>, token: int, call: Call) {
    && call.host in hosts
    && |call.outcomes| == (if Waiting(hosts[call.host], token) then 0 else 1)
    && (call.key.Some? ==> call.key.value in log && log[call.key.value].token == token)
    && forall o :: o in call.outcomes && o.Success? ==>
         && call.key.Some?
         && log[call.key.value].phase.Answered? && o.reply == log[call.key.value].phase.reply
  }

  ghost predicate LogOk(log: map<Key, Record>) {
    forall k {:trigger RecordOk(k, log[k])} :: k in log ==> RecordOk(k, log[k])
  }

  ghost predicate HostsOk(hosts: map<int, Endpoint>, log: map<Key, Record>, calls: map<int, Call>) {
    forall h :: h in hosts ==> HostOk(log, calls, h, hosts[h])
  }

  ghost predicate NetOk(log: map<Key, Record>, net: multiset<Datagram>) {
    && (forall d {:trigger DatagramOk(log, d)} :: d in net ==> DatagramOk(log, d))
    && (forall d {:trigger OnceOnly(d)} :: d in net && OnceOnly(d) ==> net[d] == 1)
  }

  ghost predicate CountedOk(hosts: map<int, Endpoint>, net: multiset<Datagram>) {
    forall d {:trigger NotYetCounted(hosts, d)} :: d in net ==> NotYetCounted(hosts, d)
  }

  ghost predicate CallsOk(hosts: map<int, Endpoint>, log: map<Key, Record>, calls: map<int, Call>) {
    forall t {:trigger CallOk(hosts, log, t, calls[t])} :: t in calls ==> CallOk(hosts, log, t, calls[t])
  }

  ghost predicate Inv(s: State) {
    && LogOk(s.log)
    && HostsOk(s.hosts, s.log, s.calls)
    && NetOk(s.log, s.net)
    && CountedOk(s.hosts, s.net)
    && CallsOk(s.hosts, s.log, s.calls)
  }

  // ----- steps that touch one entity -----

  lemma LoseKeeps(s: State, d: Datagram)
    requires Inv(s) && d in s.net
    ensures Inv(s.(net := s.net - multiset{d}))
    ensures OnceOnly(d) ==> d !in s.net - multiset{d}
  {
    var net := s.net - multiset{d};
    assert forall x :: x in net ==> x in s.net && net[x] <= s.net[x];
  }

  lemma WithoutElements<T>(s: seq<T>, i: nat)
    requires i < |s|
    ensures forall x :: x in Without(s, i) ==> x in s
    ensures forall j :: 0 <= j < |s| && j != i ==> s[j] in Without(s, i)
  {
    var w := Without(s, i);
    forall j | 0 <= j < |s| && j != i
      ensures s[j] in w
    {
      assert s[j] == if j < i then w[j] else w[j - 1];
    }
  }

  /** Pairs that differ in port and token still do with one of them gone, and none has the token of that one. */
  lemma WithoutApart(cs: seq<ClientPair>, i: nat)
    requires i < |cs|
    requires forall j, k :: 0 <= j < k < |cs| ==> cs[j].port != cs[k].port && cs[j].token != cs[k].token
    ensures var w := Without(cs, i);
            && (forall j, k :: 0 <= j < k < |w| ==> w[j].port != w[k].port && w[j].token != w[k].token)
            && (forall j :: 0 <= j < |w| ==> w[j].token != cs[i].token)
  {
    var w := Without(cs, i);
    forall j | 0 <= j < |w|
      ensures w[j] == (if j < i then cs[j] else cs[j + 1]) && w[j].token != cs[i].token
    {
    }
  }

  lemma RemoveClient(log: map<Key, Record>, calls: map<int, Call>, h: int, cs: seq<ClientPair>, i: nat, call: Call)
    requires ClientsOk(log, calls, h, cs) && i < |cs|
    ensures ClientsOk(log, calls[cs[i].token := call], h, Without(cs, i))
    ensures forall c :: c in Without(cs, i) ==> c in cs && c.token != cs[i].token
    ensures forall c :: c in cs && c.token != cs[i].token ==> c in Without(cs, i)
  {
    WithoutElements(cs, i);
    WithoutApart(cs, i);
    forall c | c in Without(cs, i)
      ensures c.token != cs[i].token && ClientOk(log, calls[cs[i].token := call], h, c)
    {
      assert ClientOk(log, calls, h, c);
    }
  }

  /** Callbacks of a call made elsewhere do not concern this host's pairs. */
  lemma OtherCall(log: map<Key, Record>, calls: map<int, Call>, h: int, cs: seq<ClientPair>, t: int, call: Call)
    requires ClientsOk(log, calls, h, cs) && (t in calls ==> calls[t].host != h)
    ensures ClientsOk(log, calls[t := call], h, cs)
  {
    forall c | c in cs
      ensures ClientOk(log, calls[t := call], h, c)
    {
      assert ClientOk(log, calls, h, c);
    }
  }

  /** Clients that left, or did not count anything in, leave the first reply packets uncounted. */
  lemma CountedFewer(hosts: map<int, Endpoint>, net: multiset<Datagram>, h: int, e: Endpoint)
    requires CountedOk(hosts, net) && h in hosts
    requires forall c :: c in e.clients && c.received > 0 ==> c in hosts[h].clients
    ensures CountedOk(hosts[h := e], net)
  {
    forall d | d in net
      ensures NotYetCounted(hosts[h := e], d)
    {
      assert NotYetCounted(hosts, d);
    }
  }

  lemma CallsAfterCompletion(hosts: map<int, Endpoint>, log: map<Key, Record>, calls: map<int, Call>,
                             h: int, e: Endpoint, token: int, outcome: Completion)
    requires CallsOk(hosts, log, calls) && h in hosts && token in calls && calls[token].host == h
    requires Waiting(hosts[h], token) && !Waiting(e, token)
    requires forall t :: t != token ==> Waiting(e, t) == Waiting(hosts[h], t)
    requires outcome.Success? ==>
               var key := calls[token].key;
               key.Some? && key.value in log && log[key.value].phase.Answered?
               && outcome.reply == log[key.value].phase.reply
    ensures CallsOk(hosts[h := e], log, calls[token := calls[token].(outcomes := calls[token].outcomes + [outcome])])
  {
    var calls' := calls[token := calls[token].(outcomes := calls[token].outcomes + [outcome])];
    forall t | t in calls'
      ensures CallOk(hosts[h := e], log, t, calls'[t])
    {
      assert CallOk(hosts, log, t, calls[t]);
    }
  }

  lemma HostsAfterCompletion(hosts: map<int, Endpoint>, log: map<Key, Record>, calls: map<int, Call>,
                             h: int, i: nat, call: Call)
    requires HostsOk(hosts, log, calls) && h in hosts && i < |hosts[h].clients|
    ensures var e := hosts[h];
            HostsOk(hosts[h := e.(clients := Without(e.clients, i))], log, calls[e.clients[i].token := call])
  {
    var e := hosts[h];
    var c := e.clients[i];
    assert c in e.clients && ClientOk(log, calls, h, c);
    RemoveClient(log, calls, h, e.clients, i, call);
    forall g | g in hosts && g != h
      ensures HostOk(log, calls[c.token := call], g, hosts[g])
    {
      OtherCall(log, calls, g, hosts[g].clients, c.token, call);
    }
  }

  /** A pending client leaves with exactly one callback. */
  lemma CompletionKeeps(s: State, h: int, i: nat, outcome: Completion)
    requires Inv(s) && h in s.hosts && i < |s.hosts[h].clients|
    requires var c := s.hosts[h].clients[i];
             var k := Key(Addr(h, c.port), c.rid);
             outcome.Success? ==> k in s.log && s.log[k].phase.Answered? && outcome.reply == s.log[k].phase.reply
    ensures var e := s.hosts[h];
            Inv(Observe(s, h, e.(clients := Without(e.clients, i)), Complete(e.clients[i].token, outcome), []))
  {
    var e := s.hosts[h];
    var c := e.clients[i];
    var e' := e.(clients := Without(e.clients, i));
    assert c in e.clients && ClientOk(s.log, s.calls, h, c);
    HostsAfterCompletion(s.hosts, s.log, s.calls, h, i,
                         s.calls[c.token].(outcomes := s.calls[c.token].outcomes + [outcome]));
    RemoveClient(s.log, s.calls, h, e.clients, i, s.calls[c.token]);
    CountedFewer(s.hosts, s.net, h, e');
    assert Waiting(e, c.token) && !Waiting(e', c.token);
    assert forall t :: t != c.token ==> Waiting(e', t) == Waiting(e, t);
    CallsAfterCompletion(s.hosts, s.log, s.calls, h, e', c.token, outcome);
  }

  // ----- steps that move a request to its next phase -----

  /** A phase change that every client waiting for this request may miss. */
  predicate Unnoticed(r: Record, r': Record) {
    && r'.token == r.token && r'.request == r.request
    && !r.phase.Answered?
    && (RestSent(r'.phase) == RestSent(r.phase) || |r.request| == 1)
    && (r'.phase.Answered? ==> r'.phase.reply != [])
  }

  predicate IdleServer(phase: Phase, g: int) {
    phase != AckOut(g) && phase != RestOut(g) && phase != InApp(g)
  }

  /** A host that does not hold the request on its server side is not concerned. */
  lemma Bystander(log: map<Key, Record>, calls: map<int, Call>, g: int, e: Endpoint, k: Key, r: Record)
    requires HostOk(log, calls, g, e) && k in log && Unnoticed(log[k], r) && IdleServer(log[k].phase, g)
    ensures HostOk(log[k := r], calls, g, e)
  {
    forall c | c in e.clients
      ensures ClientOk(log[k := r], calls, g, c)
    {
      assert ClientOk(log, calls, g, c);
    }
    forall sp | sp in e.servers
      ensures ServerOk(log[k := r], g, sp)
    {
      assert ServerOk(log, g, sp);
    }
    forall id | id in e.app
      ensures AppOk(log[k := r], g, e.app[id])
    {
      assert AppOk(log, g, e.app[id]);
    }
  }

  lemma HostsMove(hosts: map<int, Endpoint>, log: map<Key, Record>, calls: map<int, Call>,
                  h: int, e: Endpoint, k: Key, r: Record)
    requires HostsOk(hosts, log, calls) && k in log && Unnoticed(log[k], r)
    requires forall g :: g in hosts && g != h ==> IdleServer(log[k].phase, g)
    requires HostOk(log[k := r], calls, h, e)
    ensures HostsOk(hosts[h := e], log[k := r], calls)
  {
    forall g | g in hosts && g != h
      ensures HostOk(log[k := r], calls, g, hosts[g])
    {
      Bystander(log, calls, g, hosts[g], k, r);
    }
  }

  lemma CallsMove(hosts: map<int, Endpoint>, log: map<Key, Record>, calls: map<int, Call>,
                  h: int, e: Endpoint, k: Key, r: Record)
    requires CallsOk(hosts, log, calls) && h in hosts && k in log
    requires r.token == log[k].token && !log[k].phase.Answered?
    requires forall t :: Waiting(e, t) == Waiting(hosts[h], t)
    ensures CallsOk(hosts[h := e], log[k := r], calls)
  {
    forall t | t in calls
      ensures CallOk(hosts[h := e], log[k := r], t, calls[t])
    {
      assert CallOk(hosts, log, t, calls[t]);
    }
  }

  /** Datagrams of other requests, and those of this one that survive the change. */
  lemma NetMove(log: map<Key, Record>, net: multiset<Datagram>, k: Key, r: Record)
    requires NetOk(log, net) && k in log
    requires forall d :: d in net && KeyOf(d) == k ==> DatagramOk(log[k := r], d)
    ensures NetOk(log[k := r], net)
  {
    forall d | d in net
      ensures DatagramOk(log[k := r], d)
    {
      assert DatagramOk(log, d);
    }
  }

  lemma NetAdd(log: map<Key, Record>, net: multiset<Datagram>, d: Datagram)
    requires NetOk(log, net) && DatagramOk(log, d) && (OnceOnly(d) ==> d !in net)
    ensures NetOk(log, net + multiset{d})
  {
  }

  /** Once its only copy is delivered, nothing else of a fresh request is in flight. */
  lemma NothingElseInFlight(s: State, d: Datagram)
    requires LogOk(s.log) && NetOk(s.log, s.net) && d !in s.net && DatagramOk(s.log, d)
    requires (d.pkt.header.typ == Request && d.pkt.header.first) || d.pkt.header.typ == Ack
    ensures forall x :: x in s.net ==> KeyOf(x) != KeyOf(d)
  {
    var k := KeyOf(d);
    assert RecordOk(k, s.log[k]);
    forall x | x in s.net
      ensures KeyOf(x) != k
    {
      assert DatagramOk(s.log, x);
    }
  }

  lemma SingleDatagram(src: Addr, dst: Addr, p: Packet)
    ensures multiset(Datagrams(src, dst, [p])) == multiset{Datagram(src, dst, p)}
  {
    assert Datagrams(src, dst, [p]) == [Datagram(src, dst, p)];
  }

  /** First packet refused: the client is told, the server keeps nothing. */
  lemma RefuseKeeps(s: State, h: int, d: Datagram)
    requires Inv(s) && h in s.hosts && d !in s.net && DatagramOk(s.log, d)
    requires d.pkt.header.typ == Request && d.pkt.header.first
    ensures Inv(Observe(s, h, s.hosts[h], Send(SERVER_PORT, d.src, [DropPacket(d.pkt.header.rid)]), []))
  {
    var k, e := KeyOf(d), s.hosts[h];
    var r := s.log[k].(phase := Refused);
    var drop := Datagram(Addr(h, SERVER_PORT), d.src, DropPacket(k.rid));
    assert RecordOk(k, s.log[k]);
    NothingElseInFlight(s, d);
    Bystander(s.log, s.calls, h, e, k, r);
    HostsMove(s.hosts, s.log, s.calls, h, e, k, r);
    CallsMove(s.hosts, s.log, s.calls, h, e, k, r);
    NetMove(s.log, s.net, k, r);
    NetAdd(s.log[k := r], s.net, drop);
    SingleDatagram(Addr(h, SERVER_PORT), d.src, DropPacket(k.rid));
    CountedFewer(s.hosts, s.net, h, e);
  }

  lemma AckingHost(log: map<Key, Record>, calls: map<int, Call>, h: int, e: Endpoint, k: Key, sp: ServerPair)
    requires HostOk(log, calls, h, e) && k in log && log[k].phase == Req0Out && k == Key(sp.sender, sp.rid)
    requires |log[k].request| > 1 && sp.request == [log[k].request[0]]
    requires sp.received == 1 && sp.expected == |log[k].request|
    ensures HostOk(log[k := log[k].(phase := AckOut(h))], calls, h, e.(servers := e.servers + [sp]))
  {
    var r := log[k].(phase := AckOut(h));
    Bystander(log, calls, h, e, k, r);
    assert sp.request == r.request[..1];
    assert ServerOk(log[k := r], h, sp);
    forall x | x in e.servers
      ensures Key(x.sender, x.rid) != k
    {
      assert ServerOk(log, h, x);
    }
  }

  /** First packet of a longer request: a pair is opened and acknowledged. */
  lemma AckKeeps(s: State, h: int, d: Datagram)
    requires Inv(s) && h in s.hosts && d !in s.net && DatagramOk(s.log, d)
    requires d.pkt.header.typ == Request && d.pkt.header.first && !d.pkt.header.last
    ensures var e, p := s.hosts[h], d.pkt;
            var sp := ServerPair(d.src, p.header.rid, [p], p.header.order, 1);
            Inv(Observe(s, h, e.(servers := e.servers + [sp]), Send(SERVER_PORT, d.src, [AckPacket(p.header.rid)]), []))
  {
    var k, e, p := KeyOf(d), s.hosts[h], d.pkt;
    var sp := ServerPair(d.src, p.header.rid, [p], p.header.order, 1);
    var e' := e.(servers := e.servers + [sp]);
    var r := s.log[k].(phase := AckOut(h));
    var ack := Datagram(Addr(h, SERVER_PORT), d.src, AckPacket(k.rid));
    assert RecordOk(k, s.log[k]) && RecordOk(k, r);
    AckingHost(s.log, s.calls, h, e, k, sp);
    HostsMove(s.hosts, s.log, s.calls, h, e', k, r);
    CallsMove(s.hosts, s.log, s.calls, h, e', k, r);
    assert NetOk(s.log[k := r], s.net + multiset{ack}) by {
      NothingElseInFlight(s, d);
      NetMove(s.log, s.net, k, r);
      NetAdd(s.log[k := r], s.net, ack);
    }
    SingleDatagram(Addr(h, SERVER_PORT), d.src, AckPacket(k.rid));
    CountedFewer(s.hosts, s.net, h, e');
    assert NotYetCounted(s.hosts[h := e'], ack);
  }

  /** A one-packet request goes straight to the application. */
  lemma HandFirstKeeps(s: State, h: int, d: Datagram, handle: int)
    requires Inv(s) && h in s.hosts && d !in s.net && DatagramOk(s.log, d) && handle !in s.hosts[h].app
    requires d.pkt.header.typ == Request && d.pkt.header.first && d.pkt.header.last
    ensures var e, p := s.hosts[h], d.pkt;
            var sp := ServerPair(d.src, p.header.rid, [p], p.header.order, 1);
            Inv(Observe(s, h, e.(app := e.app[handle := sp]), Hand(handle, sp), []))
  {
    var k, e, p := KeyOf(d), s.hosts[h], d.pkt;
    var sp := ServerPair(d.src, p.header.rid, [p], p.header.order, 1);
    assert RecordOk(k, s.log[k]);
    assert s.log[k].request == [p];
    NothingElseInFlight(s, d);
    var r := s.log[k].(phase := InApp(h), handed := s.log[k].handed + [Payload(sp.request)]);
    assert r.handed == [r.bytes];
    Bystander(s.log, s.calls, h, e, k, r);
    HandKeeps(s, h, e, k, r, handle, sp);
  }

  /** Handing a request over, once the other pairs of the host are known to be fine. */
  lemma HandKeeps(s: State, h: int, e: Endpoint, k: Key, r: Record, handle: int, sp: ServerPair)
    requires Inv(s) && h in s.hosts && k in s.log && Unnoticed(s.log[k], r) && RecordOk(k, r)
    requires r.phase == InApp(h) && s.log[k].phase != InApp(h)
    requires forall g :: g in s.hosts && g != h ==> IdleServer(s.log[k].phase, g)
    requires HostOk(s.log[k := r], s.calls, h, e)
    requires e.clients == s.hosts[h].clients && e.app == s.hosts[h].app && handle !in e.app
    requires k == Key(sp.sender, sp.rid)
    requires forall d :: d in s.net && KeyOf(d) == k ==> DatagramOk(s.log[k := r], d)
    ensures Inv(s.(hosts := s.hosts[h := e.(app := e.app[handle := sp])], log := s.log[k := r]))
  {
    var e' := e.(app := e.app[handle := sp]);
    var log' := s.log[k := r];
    assert HostOk(s.log, s.calls, h, s.hosts[h]);
    assert forall id :: id in e.app ==> AppOk(s.log, h, e.app[id]) && Key(e.app[id].sender, e.app[id].rid) != k;
    assert AppsOk(log', h, e'.app);
    HostsMove(s.hosts, s.log, s.calls, h, e', k, r);
    CallsMove(s.hosts, s.log, s.calls, h, e', k, r);
    NetMove(s.log, s.net, k, r);
    CountedFewer(s.hosts, s.net, h, e');
  }

  lemma RemoveServer(log: map<Key, Record>, h: int, ss: seq<ServerPair>, i: nat)
    requires ServersOk(log, h, ss) && i < |ss|
    ensures ServersOk(log, h, Without(ss, i))
    ensures forall sp :: sp in Without(ss, i) ==> Key(sp.sender, sp.rid) != Key(ss[i].sender, ss[i].rid)
  {
    WithoutElements(ss, i);
    var w := Without(ss, i);
    forall sp | sp in w
      ensures Key(sp.sender, sp.rid) != Key(ss[i].sender, ss[i].rid)
    {
      var j :| 0 <= j < |w| && w[j] == sp;
      assert sp == if j < i then ss[j] else ss[j + 1];
    }
  }

  /** Replacing one host's server-side state without touching the log. */
  lemma ServerSideKeeps(s: State, h: int, ss: seq<ServerPair>)
    requires Inv(s) && h in s.hosts && ServersOk(s.log, h, ss)
    ensures Inv(s.(hosts := s.hosts[h := s.hosts[h].(servers := ss)]))
  {
    var e' := s.hosts[h].(servers := ss);
    CountedFewer(s.hosts, s.net, h, e');
    forall t | t in s.calls
      ensures CallOk(s.hosts[h := e'], s.log, t, s.calls[t])
    {
      assert CallOk(s.hosts, s.log, t, s.calls[t]);
      assert Waiting(e', t) == Waiting(s.hosts[h], t);
    }
  }

  /** A later packet that arrives in order extends the prefix its pair holds. */
  lemma PrefixGrows(s: State, h: int, d: Datagram, i: nat)
    requires Inv(s) && h in s.hosts && DatagramOk(s.log, d) && i < |s.hosts[h].servers|
    requires d.pkt.header.typ == Request && !d.pkt.header.first
    requires var sp := s.hosts[h].servers[i];
             Key(sp.sender, sp.rid) == KeyOf(d) && d.pkt.header.order == sp.received
    ensures var sp, request := s.hosts[h].servers[i], s.log[KeyOf(d)].request;
            && s.log[KeyOf(d)].phase == RestOut(h)
            && sp.request + [d.pkt] == request[..sp.received + 1]
            && Inc16(sp.received) == sp.received + 1
            && sp.expected == |request|
            && (d.pkt.header.last <==> sp.received + 1 == |request|)
  {
    var sp, k := s.hosts[h].servers[i], KeyOf(d);
    assert sp in s.hosts[h].servers && ServerOk(s.log, h, sp);
    assert RecordOk(k, s.log[k]);
  }

  lemma AppendKeeps(s: State, h: int, d: Datagram, i: nat)
    requires Inv(s) && h in s.hosts && DatagramOk(s.log, d) && i < |s.hosts[h].servers|
    requires d.pkt.header.typ == Request && !d.pkt.header.first && !d.pkt.header.last
    requires var sp := s.hosts[h].servers[i];
             Key(sp.sender, sp.rid) == KeyOf(d) && d.pkt.header.order == sp.received
    ensures var e := s.hosts[h];
            var sp := e.servers[i].(request := e.servers[i].request + [d.pkt],
                                    received := Inc16(e.servers[i].received));
            Inv(Observe(s, h, e.(servers := e.servers[i := sp]), Nothing, []))
  {
    PrefixGrows(s, h, d, i);
    var e := s.hosts[h];
    var sp := e.servers[i].(request := e.servers[i].request + [d.pkt], received := Inc16(e.servers[i].received));
    assert e.servers[i] in e.servers && ServerOk(s.log, h, e.servers[i]);
    assert RecordOk(KeyOf(d), s.log[KeyOf(d)]);
    assert ServerOk(s.log, h, sp);
    ServerSideKeeps(s, h, e.servers[i := sp]);
  }

  lemma PairLeaves(log: map<Key, Record>, calls: map<int, Call>, h: int, e: Endpoint, i: nat, k: Key, r: Record)
    requires HostOk(log, calls, h, e) && i < |e.servers| && k == Key(e.servers[i].sender, e.servers[i].rid)
    requires k in log && log[k].phase == RestOut(h) && r.phase == InApp(h) && Unnoticed(log[k], r)
    ensures HostOk(log[k := r], calls, h, e.(servers := Without(e.servers, i)))
  {
    RemoveServer(log, h, e.servers, i);
    forall sp | sp in Without(e.servers, i)
      ensures ServerOk(log[k := r], h, sp)
    {
      assert ServerOk(log, h, sp);
    }
    forall c | c in e.clients
      ensures ClientOk(log[k := r], calls, h, c)
    {
      assert ClientOk(log, calls, h, c);
    }
    forall id | id in e.app
      ensures AppOk(log[k := r], h, e.app[id])
    {
      assert AppOk(log, h, e.app[id]);
    }
  }

  lemma HandRestKeeps(s: State, h: int, d: Datagram, i: nat, handle: int)
    requires Inv(s) && h in s.hosts && DatagramOk(s.log, d) && i < |s.hosts[h].servers| && handle !in s.hosts[h].app
    requires d.pkt.header.typ == Request && !d.pkt.header.first && d.pkt.header.last
    requires var sp := s.hosts[h].servers[i];
             Key(sp.sender, sp.rid) == KeyOf(d) && d.pkt.header.order == sp.received
    ensures var e := s.hosts[h];
            var sp := e.servers[i].(request := e.servers[i].request + [d.pkt],
                                    received := Inc16(e.servers[i].received));
            && sp.received == sp.expected
            && sp.request == s.log[KeyOf(d)].request
            && Inv(Observe(s, h, e.(servers := Without(e.servers, i), app := e.app[handle := sp]),
                           Hand(handle, sp), []))
  {
    PrefixGrows(s, h, d, i);
    var e, k := s.hosts[h], KeyOf(d);
    var sp := e.servers[i].(request := e.servers[i].request + [d.pkt], received := Inc16(e.servers[i].received));
    assert RecordOk(k, s.log[k]);
    assert sp.request == s.log[k].request;
    var r := s.log[k].(phase := InApp(h), handed := s.log[k].handed + [Payload(sp.request)]);
    assert r.handed == [r.bytes];
    PairLeaves(s.log, s.calls, h, e, i, k, r);
    forall x | x in s.net && KeyOf(x) == k
      ensures DatagramOk(s.log[k := r], x)
    {
      assert DatagramOk(s.log, x);
    }
    HandKeeps(s, h, e.(servers := Without(e.servers, i)), k, r, handle, sp);
  }

  // ----- the client's side of the handshake -----

  /** An acknowledgement in flight finds its client waiting for it. */
  lemma AckFindsWAck(s: State, d: Datagram, i: nat)
    requires Inv(s) && DatagramOk(s.log, d) && d.pkt.header.typ == Ack && d.dst.host in s.hosts
    requires i < |s.hosts[d.dst.host].clients|
    requires var c := s.hosts[d.dst.host].clients[i]; c.port == d.dst.port && c.rid == d.pkt.header.rid
    ensures s.hosts[d.dst.host].clients[i].state == WAck && |d.pkt.body| == 3
    ensures |s.log[KeyOf(d)].request| > 1
  {
    var c := s.hosts[d.dst.host].clients[i];
    assert c in s.hosts[d.dst.host].clients && ClientOk(s.log, s.calls, d.dst.host, c);
    assert RecordOk(KeyOf(d), s.log[KeyOf(d)]);
  }

  /** Only the acknowledged client notices that the rest of its request is on the way. */
  lemma AckBystander(log: map<Key, Record>, calls: map<int, Call>, g: int, e: Endpoint, k: Key, r: Record)
    requires HostOk(log, calls, g, e) && k in log && log[k].phase.AckOut?
    requires r == log[k].(phase := RestOut(log[k].phase.server))
    ensures ServersOk(log[k := r], g, e.servers) && AppsOk(log[k := r], g, e.app)
    ensures g != k.addr.host ==> ClientsOk(log[k := r], calls, g, e.clients)
  {
    forall sp | sp in e.servers
      ensures ServerOk(log[k := r], g, sp)
    {
      assert ServerOk(log, g, sp);
    }
    forall id | id in e.app
      ensures AppOk(log[k := r], g, e.app[id])
    {
      assert AppOk(log, g, e.app[id]);
    }
    if g != k.addr.host {
      forall c | c in e.clients
        ensures ClientOk(log[k := r], calls, g, c)
      {
        assert ClientOk(log, calls, g, c);
      }
    }
  }

  lemma AckedClient(log: map<Key, Record>, calls: map<int, Call>, h: int, cs: seq<ClientPair>, i: nat, k: Key,
                    r: Record)
    requires ClientsOk(log, calls, h, cs) && i < |cs| && k in log && log[k].phase.AckOut?
    requires k == Key(Addr(h, cs[i].port), cs[i].rid) && r == log[k].(phase := RestOut(log[k].phase.server))
    ensures ClientsOk(log[k := r], calls, h, cs[i := cs[i].(state := WResponse)])
  {
    var cs' := cs[i := cs[i].(state := WResponse)];
    assert cs[i] in cs && ClientOk(log, calls, h, cs[i]);
    forall c | c in cs'
      ensures ClientOk(log[k := r], calls, h, c)
    {
      var j :| 0 <= j < |cs'| && cs'[j] == c;
      if j != i {
        assert cs[j] == c && ClientOk(log, calls, h, c);
        assert if j < i then cs[j].port != cs[i].port else cs[i].port != cs[j].port;
      }
    }
  }

  lemma AckedHosts(hosts: map<int, Endpoint>, log: map<Key, Record>, calls: map<int, Call>, i: nat, k: Key, r: Record)
    requires HostsOk(hosts, log, calls) && k.addr.host in hosts && i < |hosts[k.addr.host].clients|
    requires k in log && log[k].phase.AckOut? && r == log[k].(phase := RestOut(log[k].phase.server))
    requires var c := hosts[k.addr.host].clients[i]; k == Key(Addr(k.addr.host, c.port), c.rid)
    ensures var h := k.addr.host;
            var e := hosts[h];
            HostsOk(hosts[h := e.(clients := e.clients[i := e.clients[i].(state := WResponse)])], log[k := r], calls)
  {
    var h := k.addr.host;
    var e := hosts[h];
    var e' := e.(clients := e.clients[i := e.clients[i].(state := WResponse)]);
    AckedClient(log, calls, h, e.clients, i, k, r);
    forall g | g in hosts
      ensures HostOk(log[k := r], calls, g, hosts[h := e'][g])
    {
      AckBystander(log, calls, g, hosts[g], k, r);
    }
  }

  /** The packets after the first, once sent, are accounted for by the new phase. */
  lemma RestInFlight(log: map<Key, Record>, net: multiset<Datagram>, k: Key, r: Record, dst: Addr)
    requires NetOk(log, net) && k in log && RecordOk(k, r) && r.phase == RestOut(dst.host)
    requires forall d :: d in net ==> KeyOf(d) != k
    ensures NetOk(log[k := r], net + multiset(Datagrams(k.addr, dst, r.request[1..])))
  {
    NetMove(log, net, k, r);
    var ds := Datagrams(k.addr, dst, r.request[1..]);
    forall d | d in ds
      ensures DatagramOk(log[k := r], d) && !OnceOnly(d)
    {
      var j :| 0 <= j < |ds| && ds[j] == d;
      assert d.pkt == r.request[j + 1];
      assert PacketOk(r.request[j + 1], j + 1, |r.request|, Request, k.rid);
    }
    forall d | d in net + multiset(ds)
      ensures DatagramOk(log[k := r], d) && (OnceOnly(d) ==> (net + multiset(ds))[d] == 1)
    {
      assert d in net || d in ds;
      if OnceOnly(d) {
        assert d !in ds;
      }
    }
  }

  lemma SameWaiting(e: Endpoint, i: nat, c: ClientPair)
    requires i < |e.clients| && c.token == e.clients[i].token
    ensures forall t :: Waiting(e.(clients := e.clients[i := c]), t) == Waiting(e, t)
  {
    var e' := e.(clients := e.clients[i := c]);
    forall t
      ensures Waiting(e', t) == Waiting(e, t)
    {
      if Waiting(e, t) {
        var x :| x in e.clients && x.token == t;
        var j :| 0 <= j < |e.clients| && e.clients[j] == x;
        assert e'.clients[j] in e'.clients;
      }
      if Waiting(e', t) {
        var x :| x in e'.clients && x.token == t;
        var j :| 0 <= j < |e'.clients| && e'.clients[j] == x;
        assert e.clients[j] in e.clients;
      }
    }
  }

  /** Replies are not in flight before the request was answered, so a larger net of requests counts nothing. */
  lemma CountedMoreRequests(hosts: map<int, Endpoint>, net: multiset<Datagram>, ds: seq<Datagram>)
    requires CountedOk(hosts, net) && forall d :: d in ds ==> d.pkt.header.typ == Request
    ensures CountedOk(hosts, net + multiset(ds))
  {
    forall d | d in net + multiset(ds)
      ensures NotYetCounted(hosts, d)
    {
      assert d in net || d in ds;
    }
  }

  lemma AckReceivedKeeps(s: State, d: Datagram, i: nat)
    requires Inv(s) && DatagramOk(s.log, d) && d.pkt.header.typ == Ack && d.dst.host in s.hosts && d !in s.net
    requires i < |s.hosts[d.dst.host].clients|
    requires var c := s.hosts[d.dst.host].clients[i]; c.port == d.dst.port && c.rid == d.pkt.header.rid
    ensures var h := d.dst.host;
            var e := s.hosts[h];
            var c := e.clients[i];
            c.request != [] &&
            Inv(Observe(s, h, e.(clients := e.clients[i := c.(state := WResponse)]),
                        Send(c.port, d.src, c.request[1..]), []))
  {
    AckFindsWAck(s, d, i);
    var h, k := d.dst.host, KeyOf(d);
    var e := s.hosts[h];
    var c := e.clients[i];
    var e' := e.(clients := e.clients[i := c.(state := WResponse)]);
    var r := s.log[k].(phase := RestOut(d.src.host));
    assert c in e.clients && ClientOk(s.log, s.calls, h, c);
    assert RecordOk(k, s.log[k]) && RecordOk(k, r);
    AckedHosts(s.hosts, s.log, s.calls, i, k, r);
    SameWaiting(e, i, c.(state := WResponse));
    CallsMove(s.hosts, s.log, s.calls, h, e', k, r);
    var rest := Datagrams(k.addr, d.src, r.request[1..]);
    assert NetOk(s.log[k := r], s.net + multiset(rest)) by {
      NothingElseInFlight(s, d);
      RestInFlight(s.log, s.net, k, r, d.src);
    }
    assert CountedOk(s.hosts[h := e'], s.net + multiset(rest)) by {
      CountedFewer(s.hosts, s.net, h, e');
      assert forall j :: 0 <= j < |r.request| ==> PacketOk(r.request[j], j, |r.request|, Request, k.rid);
      CountedMoreRequests(s.hosts[h := e'], s.net, rest);
    }
    assert PacketOk(r.request[1], 1, |r.request|, Request, k.rid);
  }

  // ----- replies -----

  /** A reply packet in flight finds its client waiting for it; in order, it extends the prefix received. */
  lemma ReplyFindsWResponse(s: State, d: Datagram, i: nat)
    requires Inv(s) && DatagramOk(s.log, d) && d.pkt.header.typ == Response && d.dst.host in s.hosts
    requires NotYetCounted(s.hosts, d)
    requires i < |s.hosts[d.dst.host].clients|
    requires var c := s.hosts[d.dst.host].clients[i]; c.port == d.dst.port && c.rid == d.pkt.header.rid
    ensures var c, reply := s.hosts[d.dst.host].clients[i], s.log[KeyOf(d)].phase.reply;
            && c.state == WResponse
            && (CountIn(c, d.pkt).Some? ==>
                  var c' := CountIn(c, d.pkt).value;
                  && c'.received == c.received + 1 <= |reply| && c'.reply == reply[..c'.received]
                  && c'.expected == |reply|
                  && (d.pkt.header.last <==> c'.received == |reply|))
  {
    var k, c := KeyOf(d), s.hosts[d.dst.host].clients[i];
    assert c in s.hosts[d.dst.host].clients && ClientOk(s.log, s.calls, d.dst.host, c);
    assert RecordOk(k, s.log[k]);
    var reply := s.log[k].phase.reply;
    var j := IndexOf(d.pkt.header);
    assert PacketOk(reply[j], j, |reply|, Response, k.rid);
    if CountIn(c, d.pkt).Some? {
      assert j == c.received;
      assert reply[..j] + [reply[j]] == reply[..j + 1];
    }
  }

  lemma CountKeeps(s: State, d: Datagram, i: nat)
    requires Inv(s) && DatagramOk(s.log, d) && d.pkt.header.typ == Response && d.dst.host in s.hosts
    requires NotYetCounted(s.hosts, d) && (d.pkt.header.first ==> d !in s.net)
    requires i < |s.hosts[d.dst.host].clients|
    requires var c := s.hosts[d.dst.host].clients[i];
             c.port == d.dst.port && c.rid == d.pkt.header.rid && CountIn(c, d.pkt).Some?
    requires !d.pkt.header.last
    ensures var h := d.dst.host;
            var e := s.hosts[h];
            Inv(Observe(s, h, e.(clients := e.clients[i := CountIn(e.clients[i], d.pkt).value]), Nothing, []))
  {
    ReplyFindsWResponse(s, d, i);
    var h, k := d.dst.host, KeyOf(d);
    var e := s.hosts[h];
    var c := e.clients[i];
    var c' := CountIn(c, d.pkt).value;
    var e' := e.(clients := e.clients[i := c']);
    assert c in e.clients && ClientOk(s.log, s.calls, h, c);
    assert ClientOk(s.log, s.calls, h, c');
    assert ClientsOk(s.log, s.calls, h, e'.clients);
    SameWaiting(e, i, c');
    forall t | t in s.calls
      ensures CallOk(s.hosts[h := e'], s.log, t, s.calls[t])
    {
      assert CallOk(s.hosts, s.log, t, s.calls[t]);
    }
    forall x | x in s.net
      ensures NotYetCounted(s.hosts[h := e'], x)
    {
      FirstReplyIsGone(s, d, x, c);
    }
  }

  /** After a packet of a reply was counted in, its first packet is no longer in flight. */
  lemma FirstReplyIsGone(s: State, d: Datagram, x: Datagram, c: ClientPair)
    requires Inv(s) && DatagramOk(s.log, d) && d.pkt.header.typ == Response && d.dst.host in s.hosts
    requires (d.pkt.header.first ==> d !in s.net) && c in s.hosts[d.dst.host].clients
    requires c.port == d.dst.port && c.rid == d.pkt.header.rid && CountIn(c, d.pkt).Some? && x in s.net
    ensures NotYetCounted(s.hosts, x)
    ensures x.pkt.header.typ == Response && x.pkt.header.first ==> x.dst != d.dst || x.pkt.header.rid != c.rid
  {
    assert DatagramOk(s.log, x) && NotYetCounted(s.hosts, x);
    assert RecordOk(KeyOf(d), s.log[KeyOf(d)]);
  }

  /** Framed packets carry the headers the invariant speaks of. */
  lemma FramedPackets(pkts: seq<Packet>, bytes: seq<byte>, typ: MsgType, policy: Policy, rid: uint16)
    requires |pkts| <= BUFPOOL_SIZE && Framing.Framed(pkts, bytes, typ, policy, rid)
    ensures 0 < |pkts| && Payload(pkts) == bytes
    ensures forall j :: 0 <= j < |pkts| ==> PacketOk(pkts[j], j, |pkts|, typ, rid) && pkts[j].header.policy == policy
  {
    forall j | 0 <= j < |pkts|
      ensures PacketOk(pkts[j], j, |pkts|, typ, rid) && pkts[j].header.policy == policy
    {
      assert Framing.HeaderOk(pkts[j].header, j, |pkts|, typ, policy, rid);
    }
  }

  /** The packets of an answer, once sent, are accounted for by the new phase. */
  lemma AnswerInFlight(log: map<Key, Record>, net: multiset<Datagram>, k: Key, r: Record)
    requires NetOk(log, net) && k in log && log[k].phase.InApp? && r.request == log[k].request
    requires r.phase.Answered? && r.phase.server == log[k].phase.server && ReplyOk(r.phase.reply, r.phase.bytes, k.rid)
    ensures NetOk(log[k := r], net + multiset(Datagrams(Addr(r.phase.server, SERVER_PORT), k.addr, r.phase.reply)))
  {
    forall d | d in net && KeyOf(d) == k
      ensures DatagramOk(log[k := r], d) && d.pkt.header.typ == Request
    {
      assert DatagramOk(log, d);
    }
    NetMove(log, net, k, r);
    var src, reply := Addr(r.phase.server, SERVER_PORT), r.phase.reply;
    var ds := Datagrams(src, k.addr, reply);
    forall d | d in ds
      ensures DatagramOk(log[k := r], d) && d !in net && (OnceOnly(d) ==> d == ds[0])
    {
      var j :| 0 <= j < |ds| && ds[j] == d;
      assert PacketOk(reply[j], j, |reply|, Response, k.rid);
      assert KeyOf(d) == k;
    }
    assert ds == [ds[0]] + ds[1..];
    assert ds[0] !in ds[1..] by {
      assert forall j :: 0 < j < |reply| ==> PacketOk(reply[j], j, |reply|, Response, k.rid);
      assert PacketOk(reply[0], 0, |reply|, Response, k.rid);
    }
    forall d | d in net + multiset(ds)
      ensures DatagramOk(log[k := r], d) && (OnceOnly(d) ==> (net + multiset(ds))[d] == 1)
    {
      assert d in net || d in ds;
      if OnceOnly(d) {
        if d in ds {
          assert multiset(ds)[ds[0]] == 1;
        } else {
          assert multiset(ds)[d] == 0;
        }
      }
    }
  }

  lemma AnswerHost(log: map<Key, Record>, calls: map<int, Call>, h: int, e: Endpoint, handle: int, k: Key, r: Record)
    requires HostOk(log, calls, h, e) && handle in e.app && k == Key(e.app[handle].sender, e.app[handle].rid)
    requires k in log && Unnoticed(log[k], r) && log[k].phase == InApp(h)
    ensures HostOk(log[k := r], calls, h, e.(app := e.app - {handle}))
  {
    forall c | c in e.clients
      ensures ClientOk(log[k := r], calls, h, c)
    {
      assert ClientOk(log, calls, h, c);
    }
    forall sp | sp in e.servers
      ensures ServerOk(log[k := r], h, sp)
    {
      assert ServerOk(log, h, sp);
    }
    forall id | id in e.app - {handle}
      ensures AppOk(log[k := r], h, e.app[id])
    {
      assert AppOk(log, h, e.app[id]);
    }
  }

  lemma AnswerKeeps(s: State, h: int, handle: int, bytes: seq<byte>, pkts: seq<Packet>)
    requires Inv(s) && h in s.hosts && handle in s.hosts[h].app && |pkts| <= BUFPOOL_SIZE
    requires Framing.Framed(pkts, bytes, Response, FixedRoute, s.hosts[h].app[handle].rid)
    ensures var r := SendReply(s.hosts[h], handle, pkts);
            Inv(Observe(s, h, r.e, r.effect, bytes))
  {
    var e := s.hosts[h];
    var sp := e.app[handle];
    var k := Key(sp.sender, sp.rid);
    assert AppOk(s.log, h, sp);
    var r := s.log[k].(phase := Answered(h, pkts, bytes));
    var e' := e.(app := e.app - {handle});
    FramedPackets(pkts, bytes, Response, FixedRoute, sp.rid);
    assert PacketOk(pkts[0], 0, |pkts|, Response, k.rid);
    assert RecordOk(k, s.log[k]) && RecordOk(k, r);
    AnswerHost(s.log, s.calls, h, e, handle, k, r);
    HostsMove(s.hosts, s.log, s.calls, h, e', k, r);
    CallsMove(s.hosts, s.log, s.calls, h, e', k, r);
    AnswerInFlight(s.log, s.net, k, r);
    CountedFewer(s.hosts, s.net, h, e');
    var ds := Datagrams(Addr(h, SERVER_PORT), sp.sender, pkts);
    forall d | d in s.net + multiset(ds)
      ensures NotYetCounted(s.hosts[h := e'], d)
    {
      assert d in s.net || d in ds;
      if d in ds {
        NobodyCountedYet(s, k, d);
      }
    }
  }

  /** Before the answer nobody has counted in a packet of it. */
  lemma NobodyCountedYet(s: State, k: Key, d: Datagram)
    requires Inv(s) && k in s.log && !s.log[k].phase.Answered? && d.dst == k.addr
    requires d.pkt.header.typ == Response && d.pkt.header.first ==> d.pkt.header.rid == k.rid
    ensures NotYetCounted(s.hosts, d)
  {
    var h := k.addr.host;
    if h in s.hosts {
      assert forall c :: c in s.hosts[h].clients ==> ClientOk(s.log, s.calls, h, c);
    }
  }

  // ----- calls -----

  lemma NewCall(log: map<Key, Record>, calls: map<int, Call>, h: int, e: Endpoint, token: int, call: Call)
    requires HostOk(log, calls, h, e) && token !in calls
    ensures HostOk(log, calls[token := call], h, e)
    ensures !Waiting(e, token)
  {
    forall c | c in e.clients
      ensures ClientOk(log, calls[token := call], h, c) && c.token != token
    {
      assert ClientOk(log, calls, h, c);
    }
  }

  lemma NewRecord(log: map<Key, Record>, calls: map<int, Call>, h: int, e: Endpoint, k: Key, r: Record)
    requires HostOk(log, calls, h, e) && k !in log
    ensures HostOk(log[k := r], calls, h, e)
  {
    forall c | c in e.clients
      ensures ClientOk(log[k := r], calls, h, c)
    {
      assert ClientOk(log, calls, h, c);
    }
    forall sp | sp in e.servers
      ensures ServerOk(log[k := r], h, sp)
    {
      assert ServerOk(log, h, sp);
    }
    forall id | id in e.app
      ensures AppOk(log[k := r], h, e.app[id])
    {
      assert AppOk(log, h, e.app[id]);
    }
  }

  /** Without a free socket the call fails at once and leaves nothing behind. */
  lemma NoSocketKeeps(s: State, h: int, token: int)
    requires Inv(s) && h in s.hosts && token !in s.calls
    ensures Inv(s.(calls := s.calls[token := Call(h, None, [Failure(-ERR_NO_SOCKET)])]))
  {
    var call := Call(h, None, [Failure(-ERR_NO_SOCKET)]);
    forall g | g in s.hosts
      ensures HostOk(s.log, s.calls[token := call], g, s.hosts[g]) && !Waiting(s.hosts[g], token)
    {
      NewCall(s.log, s.calls, g, s.hosts[g], token, call);
    }
  }

  /** Registering a call and its request, before its pair exists, concerns no other pair. */
  lemma HostsWithNewCall(s: State, token: int, call: Call, k: Key, r: Record)
    requires Inv(s) && token !in s.calls && k !in s.log
    ensures HostsOk(s.hosts, s.log[k := r], s.calls[token := call])
    ensures forall g :: g in s.hosts ==> !Waiting(s.hosts[g], token)
  {
    forall g | g in s.hosts
      ensures HostOk(s.log[k := r], s.calls[token := call], g, s.hosts[g]) && !Waiting(s.hosts[g], token)
    {
      NewCall(s.log, s.calls, g, s.hosts[g], token, call);
      NewRecord(s.log, s.calls[token := call], g, s.hosts[g], k, r);
    }
  }

  lemma CallsWithNewCall(s: State, h: int, e: Endpoint, token: int, k: Key, r: Record)
    requires Inv(s) && h in s.hosts && token !in s.calls && k !in s.log && r.token == token
    requires Waiting(e, token) && forall t :: t != token ==> Waiting(e, t) == Waiting(s.hosts[h], t)
    ensures CallsOk(s.hosts[h := e], s.log[k := r], s.calls[token := Call(h, Some(k), [])])
  {
    var calls' := s.calls[token := Call(h, Some(k), [])];
    forall t | t in calls'
      ensures CallOk(s.hosts[h := e], s.log[k := r], t, calls'[t])
    {
      if t != token {
        assert CallOk(s.hosts, s.log, t, s.calls[t]);
      }
    }
  }

  lemma NewRequestInFlight(log: map<Key, Record>, net: multiset<Datagram>, k: Key, r: Record)
    requires NetOk(log, net) && k !in log && RecordOk(k, r) && r.phase == Req0Out
    ensures NetOk(log[k := r], net + multiset{Datagram(k.addr, r.dst, r.request[0])})
  {
    var d := Datagram(k.addr, r.dst, r.request[0]);
    assert PacketOk(r.request[0], 0, |r.request|, Request, k.rid);
    forall x | x in net
      ensures DatagramOk(log[k := r], x) && x != d
    {
      assert DatagramOk(log, x);
    }
    NetAdd(log[k := r], net, d);
  }

  lemma NewClient(log: map<Key, Record>, calls: map<int, Call>, h: int, e: Endpoint, cp: ClientPair)
    requires ClientsOk(log, calls, h, e.clients) && ClientOk(log, calls, h, cp)
    requires PortFree(e, cp.port) && !Waiting(e, cp.token)
    ensures ClientsOk(log, calls, h, e.clients + [cp])
    ensures Waiting(e.(clients := e.clients + [cp]), cp.token)
    ensures forall t :: t != cp.token ==> Waiting(e.(clients := e.clients + [cp]), t) == Waiting(e, t)
  {
    var cs := e.clients + [cp];
    assert cs[|e.clients|] == cp;
    assert forall i :: 0 <= i < |e.clients| ==> e.clients[i] in e.clients;
    assert forall c :: c in e.clients ==> c in cs;
  }

  function FreshPair(token: int, port: int, rid: uint16, request: seq<Packet>): ClientPair {
    ClientPair(token, port, rid, request, [], 0, 0, if |request| == 1 then WResponse else WAck)
  }

  lemma CallHosts(s: State, h: int, port: int, r: Record, rid: uint16)
    requires Inv(s) && h in s.hosts && r.token !in s.calls
    requires PortFree(s.hosts[h], port) && Key(Addr(h, port), rid) !in s.log
    requires r.request != [] && r.phase == Req0Out
    ensures var k, e := Key(Addr(h, port), rid), s.hosts[h];
            var e' := e.(clients := e.clients + [FreshPair(r.token, port, rid, r.request)], rid := rid);
            var log', calls' := s.log[k := r], s.calls[r.token := Call(h, Some(k), [])];
            HostsOk(s.hosts[h := e'], log', calls') && CallsOk(s.hosts[h := e'], log', calls')
  {
    var e, k, cp := s.hosts[h], Key(Addr(h, port), rid), FreshPair(r.token, port, rid, r.request);
    var call := Call(h, Some(k), []);
    HostsWithNewCall(s, r.token, call, k, r);
    NewClient(s.log[k := r], s.calls[r.token := call], h, e, cp);
    var e1 := e.(clients := e.clients + [cp]);
    assert forall t :: Waiting(e1.(rid := rid), t) == Waiting(e1, t);
    CallsWithNewCall(s, h, e1.(rid := rid), r.token, k, r);
  }

  lemma CallKeeps(s: State, h: int, port: int, r: Record)
    requires Inv(s) && h in s.hosts && r.token !in s.calls && PortFree(s.hosts[h], port)
    requires var k := Key(Addr(h, port), Inc16(s.hosts[h].rid)); k !in s.log && RecordOk(k, r)
    requires r.phase == Req0Out
    ensures var o := SendRequest(s.hosts[h], r.token, Some(port), r.dst, r.request);
            var k := Key(Addr(h, port), Inc16(s.hosts[h].rid));
            var s1 := s.(calls := s.calls[r.token := Call(h, Some(k), [])], log := s.log[k := r]);
            Inv(Observe(s1, h, o.e, o.effect, []))
  {
    var e, rid := s.hosts[h], Inc16(s.hosts[h].rid);
    var k := Key(Addr(h, port), rid);
    var e' := e.(clients := e.clients + [FreshPair(r.token, port, rid, r.request)], rid := rid);
    CallHosts(s, h, port, r, rid);
    NewRequestInFlight(s.log, s.net, k, r);
    assert PacketOk(r.request[0], 0, |r.request|, Request, rid);
    SingleDatagram(k.addr, r.dst, r.request[0]);
    CountedFewer(s.hosts, s.net, h, e');
  }

  // ----- every delivery, and every step -----

  /** The only assertion a delivery can trip: a complete message with too many packets for the application's table. */
  ghost predicate Tolerated(log: map<Key, Record>, d: Datagram, o: Outcome) {
    o.AssertFails? ==>
      && o.why == AppTableFull && KeyOf(d) in log
      && TOO_MANY <= if d.pkt.header.typ == Request then |log[KeyOf(d)].request|
                     else if log[KeyOf(d)].phase.Answered? then |log[KeyOf(d)].phase.reply| else 0
  }

  lemma FirstKeeps(s: State, h: int, d: Datagram, keep: bool, handle: int)
    requires Inv(s) && h in s.hosts && d !in s.net && DatagramOk(s.log, d) && handle !in s.hosts[h].app
    requires d.pkt.header.typ == Request && d.pkt.header.first
    ensures var o := HandleFirst(s.hosts[h], d.pkt, d.src, keep, handle);
            o.Ok? && Inv(Observe(s, h, o.e, o.effect, []))
  {
    assert RecordOk(KeyOf(d), s.log[KeyOf(d)]);
    if !keep {
      RefuseKeeps(s, h, d);
    } else if !d.pkt.header.last {
      AckKeeps(s, h, d);
    } else {
      HandFirstKeeps(s, h, d, handle);
    }
  }

  lemma RestKeeps(s: State, h: int, d: Datagram, handle: int)
    requires Inv(s) && h in s.hosts && DatagramOk(s.log, d) && handle !in s.hosts[h].app
    requires d.pkt.header.typ == Request && !d.pkt.header.first
    ensures var o := HandleRest(s.hosts[h], d.pkt, d.src, handle);
            Tolerated(s.log, d, o) && (o.Ok? ==> Inv(Observe(s, h, o.e, o.effect, [])))
  {
    var e, p := s.hosts[h], d.pkt;
    assert RecordOk(KeyOf(d), s.log[KeyOf(d)]);
    var i := FindServer(e.servers, d.src, p.header.rid);
    if i == |e.servers| {
      ServerSideKeeps(s, h, e.servers);
    } else if p.header.order != e.servers[i].received {
      RemoveServer(s.log, h, e.servers, i);
      ServerSideKeeps(s, h, Without(e.servers, i));
    } else if !p.header.last {
      AppendKeeps(s, h, d, i);
    } else {
      HandRestKeeps(s, h, d, i, handle);
    }
  }

  lemma ReplyKeeps(s: State, d: Datagram, i: nat)
    requires Inv(s) && DatagramOk(s.log, d) && d.pkt.header.typ == Response && d.dst.host in s.hosts
    requires NotYetCounted(s.hosts, d) && (d.pkt.header.first ==> d !in s.net)
    requires i < |s.hosts[d.dst.host].clients|
    requires var c := s.hosts[d.dst.host].clients[i]; c.port == d.dst.port && c.rid == d.pkt.header.rid
    ensures var o := HandleReply(s.hosts[d.dst.host], i, d.pkt);
            Tolerated(s.log, d, o) && (o.Ok? ==> Inv(Observe(s, d.dst.host, o.e, o.effect, [])))
  {
    var h := d.dst.host;
    var c := s.hosts[h].clients[i];
    ReplyFindsWResponse(s, d, i);
    assert KeyOf(d) == Key(Addr(h, c.port), c.rid);
    if CountIn(c, d.pkt).None? {
      CompletionKeeps(s, h, i, Failure(-1));
    } else if !d.pkt.header.last {
      CountKeeps(s, d, i);
    } else {
      var reply := s.log[KeyOf(d)].phase.reply;
      assert CountIn(c, d.pkt).value.reply == reply[..|reply|] == reply;
      CompletionKeeps(s, h, i, Success(reply));
    }
  }

  lemma ResponseKeeps(s: State, d: Datagram)
    requires Inv(s) && DatagramOk(s.log, d) && IsResponse(d.pkt.header) && d.dst.host in s.hosts
    requires NotYetCounted(s.hosts, d) && (OnceOnly(d) ==> d !in s.net)
    ensures var o := HandleResponse(s.hosts[d.dst.host], d.pkt, d.src, d.dst.port);
            Tolerated(s.log, d, o) && (o.Ok? ==> Inv(Observe(s, d.dst.host, o.e, o.effect, [])))
  {
    var h := d.dst.host;
    var e := s.hosts[h];
    var i := FindClient(e.clients, d.dst.port, d.pkt.header.rid);
    if i == |e.clients| {
      ServerSideKeeps(s, h, e.servers);
    } else if d.pkt.header.typ == Response {
      ReplyKeeps(s, d, i);
    } else if d.pkt.header.typ == Ack {
      AckFindsWAck(s, d, i);
      AckReceivedKeeps(s, d, i);
    } else {
      CompletionKeeps(s, h, i, Failure(-ERR_DROP_MSG));
    }
  }

  /** Whatever arrives, wherever it is routed, the endpoint's assertions hold and the invariant is kept. */
  lemma DeliverKeeps(s: State, step: Step)
    requires Inv(s) && step.Deliver? && Enabled(s, step)
    ensures var o, s1 := React(s, step), s.(net := s.net - multiset{step.d});
            Tolerated(s.log, step.d, o) && (o.Ok? ==> Inv(Observe(s1, step.at, o.e, o.effect, [])))
  {
    var d := step.d;
    var s1 := s.(net := s.net - multiset{d});
    LoseKeeps(s, d);
    assert DatagramOk(s.log, d) && NotYetCounted(s.hosts, d);
    if IsResponse(d.pkt.header) {
      ResponseKeeps(s1, d);
    } else if d.pkt.header.first {
      FirstKeeps(s1, step.at, d, step.keep, step.handle);
    } else {
      RestKeeps(s1, step.at, d, step.handle);
    }
  }

  lemma TimerKeeps(s: State, h: int, port: int)
    requires Inv(s) && h in s.hosts
    ensures var o := FireTimer(s.hosts[h], port);
            o.Ok? && Inv(Observe(s, h, o.e, o.effect, []))
  {
    var i := FindPort(s.hosts[h].clients, port);
    if i == |s.hosts[h].clients| {
      ServerSideKeeps(s, h, s.hosts[h].servers);
    } else {
      CompletionKeeps(s, h, i, TimedOut);
    }
  }

  lemma RefusedCall(s: State, h: int, token: int, failure: Completion)
    requires h in s.hosts && token !in s.calls
    ensures Observe(s.(calls := s.calls[token := Call(h, None, [])]), h, s.hosts[h], Complete(token, failure), [])
            == s.(calls := s.calls[token := Call(h, None, [failure])])
  {
    assert s.hosts[h := s.hosts[h]] == s.hosts;
    assert [] + [failure] == [failure];
    assert s.calls[token := Call(h, None, [])][token := Call(h, None, [failure])]
        == s.calls[token := Call(h, None, [failure])];
  }

  lemma DoCallKeeps(s: State, step: Step)
    requires Inv(s) && step.DoCall? && Enabled(s, step)
    ensures var o := React(s, step);
            o.Ok? && Inv(Observe(Register(s, step), step.host, o.e, o.effect, []))
  {
    var h, rid := step.host, Inc16(s.hosts[step.host].rid);
    if step.port.None? {
      NoSocketKeeps(s, h, step.token);
      RefusedCall(s, h, step.token, Failure(-ERR_NO_SOCKET));
    } else {
      var r := Record(step.token, step.bytes, step.dst, step.pkts, Req0Out, []);
      assert RecordOk(Key(Addr(h, step.port.value), rid), r) by {
        FramedPackets(step.pkts, step.bytes, Request, step.policy, rid);
      }
      CallKeeps(s, h, step.port.value, r);
    }
  }

  lemma NextKeeps(s: State, step: Step, s': State)
    requires Inv(s) && Next(s, step, s')
    ensures Inv(s')
  {
    match step
    case Lose(d) => LoseKeeps(s, d);
    case DoCall(_, _, _, _, _, _, _) => DoCallKeeps(s, step);
    case Deliver(_, _, _, _) => DeliverKeeps(s, step);
    case Answer(h, handle, bytes, pkts) => AnswerKeeps(s, h, handle, bytes, pkts);
    case Timer(h, port) => TimerKeeps(s, h, port);
  }

  // ----- whole runs -----

  ghost predicate IsRun(run: seq<State>, steps: seq<Step>) {
    && |run| == |steps| + 1 && Init(run[0])
    && forall i :: 0 <= i < |steps| ==> Next(run[i], steps[i], run[i + 1])
  }

  lemma {:induction false} RunsKeepInv(run: seq<State>, steps: seq<Step>, n: nat)
    requires IsRun(run, steps) && n < |run|
    ensures Inv(run[n])
  {
    if n > 0 {
      RunsKeepInv(run, steps, n - 1);
      assert Next(run[n - 1], steps[n - 1], run[n]);
      NextKeeps(run[n - 1], steps[n - 1], run[n]);
    }
  }

  /**
   End to end: in every run a request reaches the application at most once and with exactly the bytes of
   its caller, and a success callback carries exactly the bytes the application answered with.
   */
  lemma EndToEnd(run: seq<State>, steps: seq<Step>, n: nat)
    requires IsRun(run, steps) && n < |run|
    ensures var s := run[n];
            && (forall k :: k in s.log ==> s.log[k].handed == [] || s.log[k].handed == [s.log[k].bytes])
            && (forall t, o :: t in s.calls && o in s.calls[t].outcomes && o.Success? ==>
                  && s.calls[t].key.Some? && s.calls[t].key.value in s.log
                  && var r := s.log[s.calls[t].key.value];
                     r.token == t && r.phase.Answered? && Payload(o.reply) == r.phase.bytes)
  {
    var s := run[n];
    RunsKeepInv(run, steps, n);
    forall k | k in s.log
      ensures s.log[k].handed == [] || s.log[k].handed == [s.log[k].bytes]
    {
      assert RecordOk(k, s.log[k]);
    }
    forall t, o | t in s.calls && o in s.calls[t].outcomes && o.Success?
      ensures s.calls[t].key.Some? && s.calls[t].key.value in s.log
      ensures var r := s.log[s.calls[t].key.value];
              r.token == t && r.phase.Answered? && Payload(o.reply) == r.phase.bytes
    {
      assert CallOk(s.hosts, s.log, t, s.calls[t]);
      assert RecordOk(s.calls[t].key.value, s.log[s.calls[t].key.value]);
    }
  }

  /**
   Handshake safety: no delivery in any run finds a pair in the wrong state or a packet of the wrong kind;
   the packet limit of the application's table is the only assertion left.
   */
  lemma HandshakeSafe(run: seq<State>, steps: seq<Step>, n: nat, step: Step)
    requires IsRun(run, steps) && n < |run| && step.Deliver? && Enabled(run[n], step)
    ensures var o := React(run[n], step);
            Tolerated(run[n].log, step.d, o) && o != AssertFails(WrongState) && o != AssertFails(WrongKind)
  {
    RunsKeepInv(run, steps, n);
    DeliverKeeps(run[n], step);
  }

  /** Single completion: a call has received no callback while its pair waits, and exactly one afterwards. */
  lemma ExactlyOneCompletion(run: seq<State>, steps: seq<Step>, n: nat, t: int)
    requires IsRun(run, steps) && n < |run| && t in run[n].calls
    ensures var s := run[n];
            && s.calls[t].host in s.hosts
            && |s.calls[t].outcomes| == if Waiting(s.hosts[s.calls[t].host], t) then 0 else 1
  {
    RunsKeepInv(run, steps, n);
    assert CallOk(run[n].hosts, run[n].log, t, run[n].calls[t]);
  }
}
