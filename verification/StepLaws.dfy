/**
 What each step of a run brings about, told by requests and calls instead of pairs and buffers: which packets go out,
 what the application is handed, which callback a call gets, and which packet each side waits for next.
 */
module StepLaws {
  import opened Collections
  import opened Wire
  import opened Transport
  import opened System
  import Framing

  // ----- pending pairs as a table of counts -----

  datatype Line = Line(key: Key, count: int)

  ghost function Lookup(t: seq<Line>, k: Key): (r: Option<int>)
    ensures r.Some? ==> exists i :: 0 <= i < |t| && t[i] == Line(k, r.value)
    ensures r.None? ==> forall i :: 0 <= i < |t| ==> t[i].key != k
  {
    if t == [] then None else if t[0].key == k then Some(t[0].count) else Lookup(t[1..], k)
  }

  ghost predicate Apart(t: seq<Line>) {
    forall i, j :: 0 <= i < j < |t| ==> t[i].key != t[j].key
  }

  lemma LookupAt(t: seq<Line>, i: nat)
    requires Apart(t) && i < |t|
    ensures Lookup(t, t[i].key) == Some(t[i].count)
  {
  }

  lemma LookupWithout(t: seq<Line>, i: nat, k: Key)
    requires Apart(t) && i < |t|
    ensures Lookup(Without(t, i), k) == if k == t[i].key then None else Lookup(t, k)
  {
    var w, r := Without(t, i), Lookup(t, k);
    assert forall j :: 0 <= j < |w| ==> w[j] == if j < i then t[j] else t[j + 1];
    if r.Some? && k != t[i].key {
      var j :| 0 <= j < |t| && t[j] == Line(k, r.value);
      var m := if j < i then j else j - 1;
      assert w[m] == t[j] && Apart(w);
      LookupAt(w, m);
    }
  }

  lemma LookupUpdate(t: seq<Line>, i: nat, n: int, k: Key)
    requires Apart(t) && i < |t|
    ensures Lookup(t[i := Line(t[i].key, n)], k) == if k == t[i].key then Some(n) else Lookup(t, k)
  {
    var u := t[i := Line(t[i].key, n)];
    assert Apart(u) && u[i] == Line(t[i].key, n);
    assert forall j :: 0 <= j < |t| && j != i ==> u[j] == t[j];
  }

  lemma LookupSnoc(t: seq<Line>, l: Line, k: Key)
    requires Apart(t) && forall i :: 0 <= i < |t| ==> t[i].key != l.key
    ensures Lookup(t + [l], k) == if k == l.key then Some(l.count) else Lookup(t, k)
  {
    var u := t + [l];
    assert u[|t|] == l && forall i :: 0 <= i < |t| ==> u[i] == t[i];
  }

  function Waitlist(h: int, cs: seq<ClientPair>): seq<Line> {
    seq(|cs|, i requires 0 <= i < |cs| => Line(Key(Addr(h, cs[i].port), cs[i].rid), cs[i].received))
  }

  function Partials(ss: seq<ServerPair>): seq<Line> {
    seq(|ss|, i requires 0 <= i < |ss| => Line(Key(ss[i].sender, ss[i].rid), ss[i].received))
  }

  type Hosts = map<int, Endpoint>

  /** How many packets of its reply have been counted in for a request whose call is pending. */
  ghost function Awaited(hosts: Hosts, k: Key): Option<int> {
    if k.addr.host in hosts then Lookup(Waitlist(k.addr.host, hosts[k.addr.host].clients), k) else None
  }

  ghost function PartOf(ss: seq<ServerPair>, k: Key): Option<int> {
    Lookup(Partials(ss), k)
  }

  /** How many packets of a request a server has gathered while it waits for more. */
  ghost function Gathered(hosts: Hosts, h: int, k: Key): Option<int> {
    if h in hosts then PartOf(hosts[h].servers, k) else None
  }

  /** The request that the application knows by a handle. */
  ghost function Held(hosts: Hosts, h: int, handle: int): Option<Key> {
    if h in hosts && handle in hosts[h].app
    then Some(Key(hosts[h].app[handle].sender, hosts[h].app[handle].rid)) else None
  }

  ghost predicate CallsElsewhere(hosts: Hosts, hosts': Hosts, k: Key) {
    forall x {:trigger Awaited(hosts', x)} :: x != k ==> Awaited(hosts', x) == Awaited(hosts, x)
  }

  ghost predicate CallsSame(hosts: Hosts, hosts': Hosts) {
    forall x {:trigger Awaited(hosts', x)} :: Awaited(hosts', x) == Awaited(hosts, x)
  }

  ghost predicate PartsElsewhere(hosts: Hosts, hosts': Hosts, h: int, k: Key) {
    forall g, x {:trigger Gathered(hosts', g, x)} ::
      g != h || x != k ==> Gathered(hosts', g, x) == Gathered(hosts, g, x)
  }

  ghost predicate PartsSame(hosts: Hosts, hosts': Hosts) {
    forall g, x {:trigger Gathered(hosts', g, x)} :: Gathered(hosts', g, x) == Gathered(hosts, g, x)
  }

  ghost predicate HeldElsewhere(hosts: Hosts, hosts': Hosts, h: int, handle: int) {
    forall g, id {:trigger Held(hosts', g, id)} ::
      g != h || id != handle ==> Held(hosts', g, id) == Held(hosts, g, id)
  }

  ghost predicate HeldSame(hosts: Hosts, hosts': Hosts) {
    forall g, id {:trigger Held(hosts', g, id)} :: Held(hosts', g, id) == Held(hosts, g, id)
  }

  ghost predicate ServersSame(hosts: Hosts, hosts': Hosts) {
    PartsSame(hosts, hosts') && HeldSame(hosts, hosts')
  }

  // ----- the laws -----

  /** The call of request k gets this callback, its first, and its pair is gone. */
  ghost predicate Completes(s: State, s': State, k: Key, outcome: Completion) {
    && k in s.log && s.log[k].token in s.calls && Awaited(s'.hosts, k) == None
    && s'.calls == s.calls[s.log[k].token := s.calls[s.log[k].token].(outcomes := [outcome])]
  }

  /** A packet of a reply: the next one counts, the last one completes the call, any other fails it. */
  ghost predicate ReplyLaw(s: State, d: Datagram, s': State) {
    var k, j, e, e' := KeyOf(d), IndexOf(d.pkt.header), s.hosts, s'.hosts;
    && s'.log == s.log && s'.net == s.net - multiset{d} && ServersSame(e, e') && CallsElsewhere(e, e', k)
    && k in s.log && s.log[k].phase.Answered? && j < |s.log[k].phase.reply|
    && match Awaited(e, k)
       case None => s'.calls == s.calls && Awaited(e', k) == None
       case Some(i) =>
         var reply := s.log[k].phase.reply;
         if i != j then Completes(s, s', k, Failure(-1))
         else if j + 1 < |reply| then s'.calls == s.calls && Awaited(e', k) == Some(j + 1)
         else |reply| < 255 && Completes(s, s', k, Success(reply)) && Payload(reply) == s.log[k].phase.bytes
  }

  /** An acknowledgement: everything but the first packet of the request goes out, to the server that sent it. */
  ghost predicate AckLaw(s: State, d: Datagram, s': State) {
    var k, e, e' := KeyOf(d), s.hosts, s'.hosts;
    && s'.calls == s.calls && ServersSame(e, e') && CallsSame(e, e') && k in s.log && |s.log[k].request| > 1
    && if Awaited(e, k).None? then s'.log == s.log && s'.net == s.net - multiset{d}
       else
         && s'.log == s.log[k := s.log[k].(phase := RestOut(d.src.host))]
         && s'.net == s.net - multiset{d} + multiset(Datagrams(k.addr, d.src, s.log[k].request[1..]))
  }

  ghost predicate DropLaw(s: State, d: Datagram, s': State) {
    var k, e, e' := KeyOf(d), s.hosts, s'.hosts;
    && s'.log == s.log && s'.net == s.net - multiset{d} && ServersSame(e, e') && CallsElsewhere(e, e', k)
    && if Awaited(e, k).None? then s'.calls == s.calls && Awaited(e', k) == None
       else Completes(s, s', k, Failure(-2))
  }

  function FromServer(at: int, k: Key, p: Packet): Datagram {
    Datagram(Addr(at, 8000), k.addr, p)
  }

  /** The first packet of a request: refused, handed over if it is the only one, or acknowledged. */
  ghost predicate FirstLaw(s: State, d: Datagram, at: int, keep: bool, handle: int, s': State) {
    var k, e, e' := KeyOf(d), s.hosts, s'.hosts;
    && s'.calls == s.calls && CallsSame(e, e') && k in s.log
    && var r := s.log[k];
       if !keep then
         && s'.log == s.log[k := r.(phase := Refused)] && ServersSame(e, e')
         && s'.net == s.net - multiset{d} + multiset{FromServer(at, k, DropPacket(k.rid))}
       else if |r.request| == 1 then
         && s'.log == s.log[k := r.(phase := InApp(at), handed := [r.bytes])]
         && s'.net == s.net - multiset{d} && PartsSame(e, e')
         && HeldElsewhere(e, e', at, handle) && Held(e', at, handle) == Some(k)
       else
         && s'.log == s.log[k := r.(phase := AckOut(at))] && HeldSame(e, e')
         && s'.net == s.net - multiset{d} + multiset{FromServer(at, k, AckPacket(k.rid))}
         && PartsElsewhere(e, e', at, k) && Gathered(e', at, k) == Some(1)
  }

  /** A later packet of a request: the next one counts, the last one hands it over, any other undoes the gathering. */
  ghost predicate RestLaw(s: State, d: Datagram, at: int, handle: int, s': State) {
    var k, j, e, e' := KeyOf(d), IndexOf(d.pkt.header), s.hosts, s'.hosts;
    && s'.calls == s.calls && CallsSame(e, e') && s'.net == s.net - multiset{d} && PartsElsewhere(e, e', at, k)
    && k in s.log
    && var r := s.log[k];
       match Gathered(e, at, k)
       case None => s'.log == s.log && Gathered(e', at, k) == None && HeldSame(e, e')
       case Some(i) =>
         if i != j then s'.log == s.log && Gathered(e', at, k) == None && HeldSame(e, e')
         else if j + 1 < |r.request| then s'.log == s.log && Gathered(e', at, k) == Some(j + 1) && HeldSame(e, e')
         else
           && |r.request| < 255 && s'.log == s.log[k := r.(phase := InApp(at), handed := [r.bytes])]
           && Gathered(e', at, k) == None && HeldElsewhere(e, e', at, handle) && Held(e', at, handle) == Some(k)
  }

  /** A call: its first packet goes out and it is pending, or it fails at once for want of a socket. */
  ghost predicate CallLaw(s: State, step: Step, s': State)
    requires step.DoCall? && step.host in s.hosts
  {
    var e, e' := s.hosts, s'.hosts;
    && ServersSame(e, e')
    && if step.port.None? then
         && s'.log == s.log && s'.net == s.net && CallsSame(e, e')
         && s'.calls == s.calls[step.token := Call(step.host, None, [Failure(-1)])]
       else
         var k := Key(Addr(step.host, step.port.value), (s.hosts[step.host].rid + 1) % 0x1_0000);
         && s'.log == s.log[k := Record(step.token, step.bytes, step.dst, step.pkts, Req0Out, [])]
         && s'.calls == s.calls[step.token := Call(step.host, Some(k), [])]
         && step.pkts != [] && s'.net == s.net + multiset{Datagram(k.addr, step.dst, step.pkts[0])}
         && CallsElsewhere(e, e', k) && Awaited(e', k) == Some(0)
  }

  /** An answer: all its packets go out to the caller, and the application is done with the request. */
  ghost predicate AnswerLaw(s: State, h: int, handle: int, bytes: seq<byte>, pkts: seq<Packet>, s': State) {
    var e, e' := s.hosts, s'.hosts;
    && s'.calls == s.calls && CallsSame(e, e') && PartsSame(e, e') && HeldElsewhere(e, e', h, handle)
    && Held(e, h, handle).Some? && Held(e', h, handle) == None
    && var k := Held(e, h, handle).value;
       && k in s.log && s'.log == s.log[k := s.log[k].(phase := Answered(h, pkts, bytes))]
       && s'.net == s.net + multiset(Datagrams(Addr(h, 8000), k.addr, pkts))
  }

  /** The timer of a socket: the call that is pending on it, if any, times out. */
  ghost predicate TimerLaw(s: State, a: Addr, s': State) {
    var e, e' := s.hosts, s'.hosts;
    && s'.log == s.log && s'.net == s.net && ServersSame(e, e')
    && (forall x: Key {:trigger Awaited(e', x)} :: x.addr != a ==> Awaited(e', x) == Awaited(e, x))
    && (forall x: Key {:trigger Awaited(e, x)} :: x.addr == a && Awaited(e, x).Some? ==> Completes(s, s', x, TimedOut))
    && ((forall x: Key {:trigger Awaited(e, x)} :: x.addr == a ==> Awaited(e, x).None?) ==> s'.calls == s.calls)
  }

  ghost predicate DeliverLaw(s: State, step: Step, s': State)
    requires step.Deliver?
  {
    match step.d.pkt.header.typ
    case Response => ReplyLaw(s, step.d, s')
    case Ack => AckLaw(s, step.d, s')
    case Drop => DropLaw(s, step.d, s')
    case Request =>
      if step.d.pkt.header.first then FirstLaw(s, step.d, step.at, step.keep, step.handle, s')
      else RestLaw(s, step.d, step.at, step.handle, s')
    case _ => false
  }

  ghost predicate Law(s: State, step: Step, s': State) {
    match step
    case DoCall(h, _, _, _, _, _, _) => h in s.hosts && CallLaw(s, step, s')
    case Lose(d) => s' == s.(net := s.net - multiset{d})
    case Deliver(_, _, _, _) => DeliverLaw(s, step, s')
    case Answer(h, handle, bytes, pkts) => AnswerLaw(s, h, handle, bytes, pkts, s')
    case Timer(h, port) => TimerLaw(s, Addr(h, port), s')
  }

  // ----- the steps obey the laws -----

  lemma WaitlistApart(log: map<Key, Record>, calls: map<int, Call>, h: int, cs: seq<ClientPair>)
    requires ClientsOk(log, calls, h, cs)
    ensures Apart(Waitlist(h, cs))
  {
  }

  lemma PartialsApart(log: map<Key, Record>, h: int, ss: seq<ServerPair>)
    requires ServersOk(log, h, ss)
    ensures Apart(Partials(ss))
  {
  }

  /** The pair that the search finds is the one in the table. */
  lemma FoundClient(s: State, k: Key)
    requires Inv(s) && k.addr.host in s.hosts
    ensures var cs := s.hosts[k.addr.host].clients;
            var i := FindClient(cs, k.addr.port, k.rid);
            Awaited(s.hosts, k) == if i == |cs| then None else Some(cs[i].received)
  {
    var h := k.addr.host;
    var cs := s.hosts[h].clients;
    WaitlistApart(s.log, s.calls, h, cs);
    var i := FindClient(cs, k.addr.port, k.rid);
    if i < |cs| {
      LookupAt(Waitlist(h, cs), i);
    } else {
      assert forall j :: 0 <= j < |cs| ==> Waitlist(h, cs)[j].key != k;
    }
  }

  lemma FoundServer(s: State, h: int, k: Key)
    requires Inv(s) && h in s.hosts
    ensures var ss := s.hosts[h].servers;
            var i := FindServer(ss, k.addr, k.rid);
            Gathered(s.hosts, h, k) == if i == |ss| then None else Some(ss[i].received)
  {
    var ss := s.hosts[h].servers;
    PartialsApart(s.log, h, ss);
    var i := FindServer(ss, k.addr, k.rid);
    if i < |ss| {
      LookupAt(Partials(ss), i);
    } else {
      assert forall j :: 0 <= j < |ss| ==> Partials(ss)[j].key != k;
    }
  }

  /** A pending call leaves. */
  lemma ClientLeaves(s: State, s': State, h: int, i: nat)
    requires Inv(s) && h in s.hosts && i < |s.hosts[h].clients|
    requires s'.hosts == s.hosts[h := s.hosts[h].(clients := Without(s.hosts[h].clients, i))]
    ensures var c := s.hosts[h].clients[i];
            var k := Key(Addr(h, c.port), c.rid);
            CallsElsewhere(s.hosts, s'.hosts, k) && Awaited(s'.hosts, k) == None
    ensures ServersSame(s.hosts, s'.hosts)
  {
    var cs := s.hosts[h].clients;
    var t := Waitlist(h, cs);
    WaitlistApart(s.log, s.calls, h, cs);
    assert Waitlist(h, Without(cs, i)) == Without(t, i);
    forall x
      ensures Awaited(s'.hosts, x) == if x == t[i].key then None else Awaited(s.hosts, x)
    {
      LookupWithout(t, i, x);
    }
  }

  /** A pending call counts a packet in, or moves to its next state. */
  lemma ClientCounts(s: State, s': State, h: int, i: nat, c: ClientPair)
    requires Inv(s) && h in s.hosts && i < |s.hosts[h].clients|
    requires c.port == s.hosts[h].clients[i].port && c.rid == s.hosts[h].clients[i].rid
    requires s'.hosts == s.hosts[h := s.hosts[h].(clients := s.hosts[h].clients[i := c])]
    ensures var k := Key(Addr(h, c.port), c.rid);
            CallsElsewhere(s.hosts, s'.hosts, k) && Awaited(s'.hosts, k) == Some(c.received)
    ensures ServersSame(s.hosts, s'.hosts)
  {
    var cs := s.hosts[h].clients;
    var t := Waitlist(h, cs);
    WaitlistApart(s.log, s.calls, h, cs);
    assert Waitlist(h, cs[i := c]) == t[i := Line(t[i].key, c.received)];
    forall x
      ensures Awaited(s'.hosts, x) == if x == t[i].key then Some(c.received) else Awaited(s.hosts, x)
    {
      LookupUpdate(t, i, c.received, x);
    }
  }

  lemma CallbackIsFirst(s: State, h: int, i: nat)
    requires Inv(s) && h in s.hosts && i < |s.hosts[h].clients|
    ensures var c := s.hosts[h].clients[i];
            var k := Key(Addr(h, c.port), c.rid);
            && k in s.log && c.token == s.log[k].token && c.token in s.calls && s.calls[c.token].outcomes == []
  {
    var c := s.hosts[h].clients[i];
    assert c in s.hosts[h].clients && ClientOk(s.log, s.calls, h, c);
  }

  /** A callback for the call at place i of the list. */
  lemma CompletionObeys(s: State, h: int, i: nat, outcome: Completion)
    requires Inv(s) && h in s.hosts && i < |s.hosts[h].clients|
    ensures var e := s.hosts[h];
            var c := e.clients[i];
            var k := Key(Addr(h, c.port), c.rid);
            var s' := Observe(s, h, e.(clients := Without(e.clients, i)), Complete(c.token, outcome), []);
            && Completes(s, s', k, outcome) && CallsElsewhere(s.hosts, s'.hosts, k) && ServersSame(s.hosts, s'.hosts)
            && s'.log == s.log && s'.net == s.net
  {
    var e := s.hosts[h];
    var c := e.clients[i];
    CallbackIsFirst(s, h, i);
    var s' := Observe(s, h, e.(clients := Without(e.clients, i)), Complete(c.token, outcome), []);
    ClientLeaves(s, s', h, i);
    assert [] + [outcome] == [outcome];
  }

  /** The same for the callback of a delivery. */
  lemma ReplyObeys(s: State, step: Step, s': State)
    requires Inv(s) && step.Deliver? && Next(s, step, s') && step.d.pkt.header.typ == Response
    ensures ReplyLaw(s, step.d, s')
  {
    var d, h, k := step.d, step.at, KeyOf(step.d);
    var s1 := s.(net := s.net - multiset{d});
    LoseKeeps(s, d);
    assert DatagramOk(s.log, d) && NotYetCounted(s.hosts, d);
    assert RecordOk(k, s.log[k]);
    FoundClient(s1, k);
    var e := s.hosts[h];
    var i := FindClient(e.clients, d.dst.port, d.pkt.header.rid);
    if i == |e.clients| {
      SameHosts(s.hosts, h);
    } else {
      CountedReply(s1, d, i);
      var c := e.clients[i];
      if c.received != IndexOf(d.pkt.header) {
        CompletionObeys(s1, h, i, Failure(-1));
      } else if d.pkt.header.last {
        CompletionObeys(s1, h, i, Success(s.log[k].phase.reply));
      } else {
        ClientCounts(s1, s', h, i, CountIn(c, d.pkt).value);
      }
    }
  }

  lemma SameHosts(hosts: Hosts, h: int)
    requires h in hosts
    ensures hosts[h := hosts[h]] == hosts
  {
  }

  /** What counting a reply packet in comes to. */
  lemma CountedReply(s: State, d: Datagram, i: nat)
    requires Inv(s) && DatagramOk(s.log, d) && d.pkt.header.typ == Response && d.dst.host in s.hosts
    requires NotYetCounted(s.hosts, d) && i < |s.hosts[d.dst.host].clients|
    requires var c := s.hosts[d.dst.host].clients[i]; c.port == d.dst.port && c.rid == d.pkt.header.rid
    ensures var c, j := s.hosts[d.dst.host].clients[i], IndexOf(d.pkt.header);
            var reply, counted := s.log[KeyOf(d)].phase.reply, CountIn(c, d.pkt);
            && c.state == WResponse && (d.pkt.header.last <==> j + 1 == |reply|)
            && (counted.None? <==> c.received != j)
            && (counted.Some? ==> counted.value.received == j + 1 && counted.value.reply == reply[..j + 1]
                                  && counted.value.expected == |reply|
                                  && counted.value.port == c.port && counted.value.rid == c.rid)
            && (counted.Some? && d.pkt.header.last ==> counted.value.reply == reply)
  {
    var k, c, j := KeyOf(d), s.hosts[d.dst.host].clients[i], IndexOf(d.pkt.header);
    ReplyFindsWResponse(s, d, i);
    assert RecordOk(k, s.log[k]);
    var reply := s.log[k].phase.reply;
    assert PacketOk(reply[j], j, |reply|, Response, k.rid);
    assert c in s.hosts[d.dst.host].clients;
    assert reply[..|reply|] == reply;
  }

  lemma AckObeys(s: State, step: Step, s': State)
    requires Inv(s) && step.Deliver? && Next(s, step, s') && step.d.pkt.header.typ == Ack
    ensures AckLaw(s, step.d, s')
  {
    var d, h, k := step.d, step.at, KeyOf(step.d);
    var s1 := s.(net := s.net - multiset{d});
    LoseKeeps(s, d);
    assert DatagramOk(s.log, d);
    assert RecordOk(k, s.log[k]);
    FoundClient(s1, k);
    var e := s.hosts[h];
    var i := FindClient(e.clients, d.dst.port, d.pkt.header.rid);
    if i == |e.clients| {
      SameHosts(s.hosts, h);
    } else {
      var c := e.clients[i];
      AckFindsWAck(s1, d, i);
      assert c in e.clients && ClientOk(s.log, s.calls, h, c);
      ClientCounts(s1, s', h, i, c.(state := WResponse));
      assert PacketOk(c.request[1], 1, |c.request|, Request, k.rid);
    }
  }

  lemma DropObeys(s: State, step: Step, s': State)
    requires Inv(s) && step.Deliver? && Next(s, step, s') && step.d.pkt.header.typ == Drop
    ensures DropLaw(s, step.d, s')
  {
    var d, h, k := step.d, step.at, KeyOf(step.d);
    var s1 := s.(net := s.net - multiset{d});
    LoseKeeps(s, d);
    assert DatagramOk(s.log, d);
    FoundClient(s1, k);
    var e := s.hosts[h];
    var i := FindClient(e.clients, d.dst.port, d.pkt.header.rid);
    if i == |e.clients| {
      SameHosts(s.hosts, h);
    } else {
      CompletionObeys(s1, h, i, Failure(-ERR_DROP_MSG));
    }
  }

  /** The requests being gathered change at one host; nothing else of it does. */
  lemma PartsMove(hosts: Hosts, h: int, e: Endpoint, k: Key)
    requires h in hosts && e.clients == hosts[h].clients && e.app == hosts[h].app
    requires forall x {:trigger PartOf(e.servers, x)} :: x != k ==>
               PartOf(e.servers, x) == PartOf(hosts[h].servers, x)
    ensures CallsSame(hosts, hosts[h := e]) && HeldSame(hosts, hosts[h := e])
    ensures PartsElsewhere(hosts, hosts[h := e], h, k)
    ensures Gathered(hosts[h := e], h, k) == PartOf(e.servers, k)
  {
  }

  /** A request is handed over under a new handle. */
  lemma AppMoves(hosts: Hosts, h: int, handle: int, sp: ServerPair)
    requires h in hosts && handle !in hosts[h].app
    ensures var hosts' := hosts[h := hosts[h].(app := hosts[h].app[handle := sp])];
            && CallsSame(hosts, hosts') && PartsSame(hosts, hosts') && HeldElsewhere(hosts, hosts', h, handle)
            && Held(hosts', h, handle) == Some(Key(sp.sender, sp.rid))
  {
  }

  /** What is known of the first packet of a request in flight. */
  lemma FirstFacts(s: State, d: Datagram)
    requires Inv(s) && d in s.net && d.pkt.header.typ == Request && d.pkt.header.first
    ensures var k := KeyOf(d);
            && k in s.log && s.log[k].phase == Req0Out && s.log[k].handed == [] && d.src == k.addr
            && s.log[k].request != [] && s.log[k].request[0] == d.pkt && Payload(s.log[k].request) == s.log[k].bytes
            && d.pkt.header.rid == k.rid && (d.pkt.header.last <==> |s.log[k].request| == 1)
            && d.pkt.header.order == |s.log[k].request| && !IsReplicated(d.pkt.header)
  {
    var k := KeyOf(d);
    assert DatagramOk(s.log, d);
    assert RecordOk(k, s.log[k]) && PacketOk(s.log[k].request[0], 0, |s.log[k].request|, Request, k.rid);
  }

  lemma RefusedObeys(s: State, d: Datagram, h: int, handle: int)
    requires Inv(s) && d in s.net && d.pkt.header.typ == Request && d.pkt.header.first && h in s.hosts
    ensures var s1 := s.(net := s.net - multiset{d});
            var effect := Send(SERVER_PORT, d.src, [DropPacket(d.pkt.header.rid)]);
            FirstLaw(s, d, h, false, handle, Observe(s1, h, s.hosts[h], effect, []))
  {
    FirstFacts(s, d);
    SameHosts(s.hosts, h);
    SingleDatagram(Addr(h, SERVER_PORT), d.src, DropPacket(d.pkt.header.rid));
  }

  lemma OnlyPacketObeys(s: State, d: Datagram, h: int, handle: int)
    requires Inv(s) && d in s.net && d.pkt.header.typ == Request && d.pkt.header.first && d.pkt.header.last
    requires h in s.hosts && handle !in s.hosts[h].app
    ensures var s1, e := s.(net := s.net - multiset{d}), s.hosts[h];
            var sp := ServerPair(d.src, d.pkt.header.rid, [d.pkt], d.pkt.header.order, 1);
            FirstLaw(s, d, h, true, handle, Observe(s1, h, e.(app := e.app[handle := sp]), Hand(handle, sp), []))
  {
    FirstFacts(s, d);
    var sp, r := ServerPair(d.src, d.pkt.header.rid, [d.pkt], d.pkt.header.order, 1), s.log[KeyOf(d)];
    AppMoves(s.hosts, h, handle, sp);
    assert r.request == [d.pkt] && r.handed + [Payload([d.pkt])] == [r.bytes];
  }

  lemma OpenedObeys(s: State, d: Datagram, h: int, handle: int)
    requires Inv(s) && d in s.net && d.pkt.header.typ == Request && d.pkt.header.first && !d.pkt.header.last
    requires h in s.hosts
    ensures var s1, e := s.(net := s.net - multiset{d}), s.hosts[h];
            var sp := ServerPair(d.src, d.pkt.header.rid, [d.pkt], d.pkt.header.order, 1);
            var effect := Send(SERVER_PORT, d.src, [AckPacket(d.pkt.header.rid)]);
            FirstLaw(s, d, h, true, handle, Observe(s1, h, e.(servers := e.servers + [sp]), effect, []))
  {
    FirstFacts(s, d);
    var sp, e := ServerPair(d.src, d.pkt.header.rid, [d.pkt], d.pkt.header.order, 1), s.hosts[h];
    SingleDatagram(Addr(h, SERVER_PORT), d.src, AckPacket(d.pkt.header.rid));
    NewPart(s, h, KeyOf(d), sp);
    PartsMove(s.hosts, h, e.(servers := e.servers + [sp]), KeyOf(d));
  }

  lemma FirstObeys(s: State, step: Step, s': State)
    requires Inv(s) && step.Deliver? && Next(s, step, s')
    requires step.d.pkt.header.typ == Request && step.d.pkt.header.first
    ensures FirstLaw(s, step.d, step.at, step.keep, step.handle, s')
  {
    FirstFacts(s, step.d);
    if !step.keep {
      RefusedObeys(s, step.d, step.at, step.handle);
    } else if step.d.pkt.header.last {
      OnlyPacketObeys(s, step.d, step.at, step.handle);
    } else {
      OpenedObeys(s, step.d, step.at, step.handle);
    }
  }

  lemma NewPart(s: State, h: int, k: Key, sp: ServerPair)
    requires Inv(s) && h in s.hosts && k in s.log && s.log[k].phase == Req0Out && Key(sp.sender, sp.rid) == k
    ensures var ss := s.hosts[h].servers;
            forall x {:trigger PartOf(ss + [sp], x)} ::
              PartOf(ss + [sp], x) == if x == k then Some(sp.received) else PartOf(ss, x)
  {
    var ss := s.hosts[h].servers;
    var t := Partials(ss);
    PartialsApart(s.log, h, ss);
    assert Partials(ss + [sp]) == t + [Line(k, sp.received)];
    forall i | 0 <= i < |t|
      ensures t[i].key != k
    {
      assert ss[i] in ss && ServerOk(s.log, h, ss[i]);
    }
    forall x
      ensures PartOf(ss + [sp], x) == if x == k then Some(sp.received) else PartOf(ss, x)
    {
      LookupSnoc(t, Line(k, sp.received), x);
    }
  }

  lemma PartLeaves(s: State, h: int, i: nat)
    requires Inv(s) && h in s.hosts && i < |s.hosts[h].servers|
    ensures var ss := s.hosts[h].servers;
            forall x {:trigger PartOf(Without(ss, i), x)} ::
              PartOf(Without(ss, i), x)
              == if x == Key(ss[i].sender, ss[i].rid) then None else PartOf(ss, x)
  {
    var ss := s.hosts[h].servers;
    var t := Partials(ss);
    PartialsApart(s.log, h, ss);
    assert Partials(Without(ss, i)) == Without(t, i);
    forall x
      ensures PartOf(Without(ss, i), x) == if x == t[i].key then None else Lookup(t, x)
    {
      LookupWithout(t, i, x);
    }
  }

  lemma PartGrows(s: State, h: int, i: nat, sp: ServerPair)
    requires Inv(s) && h in s.hosts && i < |s.hosts[h].servers|
    requires sp.sender == s.hosts[h].servers[i].sender && sp.rid == s.hosts[h].servers[i].rid
    ensures var ss, k := s.hosts[h].servers, Key(sp.sender, sp.rid);
            && PartOf(ss[i := sp], k) == Some(sp.received)
            && forall x {:trigger PartOf(ss[i := sp], x)} :: x != k ==> PartOf(ss[i := sp], x) == PartOf(ss, x)
  {
    var ss, k := s.hosts[h].servers, Key(sp.sender, sp.rid);
    var t := Partials(ss);
    PartialsApart(s.log, h, ss);
    assert Partials(ss[i := sp]) == t[i := Line(t[i].key, sp.received)];
    LookupUpdate(t, i, sp.received, k);
    forall x | x != k
      ensures PartOf(ss[i := sp], x) == PartOf(ss, x)
    {
      LookupUpdate(t, i, sp.received, x);
    }
  }

  /** The gathered part of a request is dropped. */
  lemma OutOfOrderObeys(s: State, d: Datagram, h: int, i: nat, handle: int)
    requires Inv(s) && d in s.net && h in s.hosts && d.pkt.header.typ == Request && !d.pkt.header.first
    requires i == FindServer(s.hosts[h].servers, d.src, d.pkt.header.rid) < |s.hosts[h].servers|
    requires d.pkt.header.order != s.hosts[h].servers[i].received
    ensures var s1, e := s.(net := s.net - multiset{d}), s.hosts[h];
            RestLaw(s, d, h, handle, Observe(s1, h, e.(servers := Without(e.servers, i)), Nothing, []))
  {
    var e, k := s.hosts[h], KeyOf(d);
    assert DatagramOk(s.log, d);
    FoundServer(s, h, k);
    PartLeaves(s, h, i);
    PartsMove(s.hosts, h, e.(servers := Without(e.servers, i)), k);
  }

  lemma NextPacketObeys(s: State, d: Datagram, h: int, i: nat, handle: int)
    requires Inv(s) && d in s.net && h in s.hosts && d.pkt.header.typ == Request && !d.pkt.header.first
    requires i == FindServer(s.hosts[h].servers, d.src, d.pkt.header.rid) < |s.hosts[h].servers|
    requires d.pkt.header.order == s.hosts[h].servers[i].received && !d.pkt.header.last
    ensures var s1, e := s.(net := s.net - multiset{d}), s.hosts[h];
            var sp := e.servers[i].(request := e.servers[i].request + [d.pkt],
                                    received := Inc16(e.servers[i].received));
            RestLaw(s, d, h, handle, Observe(s1, h, e.(servers := e.servers[i := sp]), Nothing, []))
  {
    var e, k := s.hosts[h], KeyOf(d);
    assert DatagramOk(s.log, d);
    FoundServer(s, h, k);
    PrefixGrows(s, h, d, i);
    var sp := e.servers[i].(request := e.servers[i].request + [d.pkt], received := Inc16(e.servers[i].received));
    PartGrows(s, h, i, sp);
    PartsMove(s.hosts, h, e.(servers := e.servers[i := sp]), k);
  }

  /** A pair leaves the list of its host for the application. */
  lemma PartIsHeld(s: State, h: int, i: nat, handle: int, sp: ServerPair)
    requires Inv(s) && h in s.hosts && i < |s.hosts[h].servers| && handle !in s.hosts[h].app
    requires sp.sender == s.hosts[h].servers[i].sender && sp.rid == s.hosts[h].servers[i].rid
    ensures var e, k := s.hosts[h], Key(sp.sender, sp.rid);
            var hosts' := s.hosts[h := e.(servers := Without(e.servers, i), app := e.app[handle := sp])];
            && CallsSame(s.hosts, hosts') && PartsElsewhere(s.hosts, hosts', h, k) && Gathered(hosts', h, k) == None
            && HeldElsewhere(s.hosts, hosts', h, handle) && Held(hosts', h, handle) == Some(k)
  {
    var e, k := s.hosts[h], Key(sp.sender, sp.rid);
    var e1 := e.(servers := Without(e.servers, i));
    PartLeaves(s, h, i);
    PartsMove(s.hosts, h, e1, k);
    AppMoves(s.hosts[h := e1], h, handle, sp);
    assert s.hosts[h := e1][h := e1.(app := e1.app[handle := sp])] == s.hosts[h := e1.(app := e1.app[handle := sp])];
  }

  lemma LastPacketObeys(s: State, d: Datagram, h: int, i: nat, handle: int)
    requires Inv(s) && d in s.net && h in s.hosts && d.pkt.header.typ == Request && !d.pkt.header.first
    requires i == FindServer(s.hosts[h].servers, d.src, d.pkt.header.rid) < |s.hosts[h].servers|
    requires d.pkt.header.order == s.hosts[h].servers[i].received && d.pkt.header.last && handle !in s.hosts[h].app
    requires |s.hosts[h].servers[i].request| + 1 < TOO_MANY
    ensures var s1, e := s.(net := s.net - multiset{d}), s.hosts[h];
            var sp := e.servers[i].(request := e.servers[i].request + [d.pkt],
                                    received := Inc16(e.servers[i].received));
            RestLaw(s, d, h, handle, Observe(s1, h, e.(servers := Without(e.servers, i), app := e.app[handle := sp]),
                                             Hand(handle, sp), []))
  {
    var e, k := s.hosts[h], KeyOf(d);
    assert DatagramOk(s.log, d);
    FoundServer(s, h, k);
    PrefixGrows(s, h, d, i);
    var r := s.log[k];
    assert RecordOk(k, r);
    var sp := e.servers[i].(request := e.servers[i].request + [d.pkt], received := Inc16(e.servers[i].received));
    assert sp.request == r.request && r.handed + [Payload(sp.request)] == [r.bytes];
    PartIsHeld(s, h, i, handle, sp);
  }

  lemma RestObeys(s: State, step: Step, s': State)
    requires Inv(s) && step.Deliver? && Next(s, step, s')
    requires step.d.pkt.header.typ == Request && !step.d.pkt.header.first
    ensures RestLaw(s, step.d, step.at, step.handle, s')
  {
    var d, h := step.d, step.at;
    assert DatagramOk(s.log, d);
    var ss := s.hosts[h].servers;
    var i := FindServer(ss, d.src, d.pkt.header.rid);
    if i == |ss| {
      FoundServer(s, h, KeyOf(d));
      SameHosts(s.hosts, h);
    } else if d.pkt.header.order != ss[i].received {
      OutOfOrderObeys(s, d, h, i, step.handle);
    } else if !d.pkt.header.last {
      NextPacketObeys(s, d, h, i, step.handle);
    } else {
      PrefixGrows(s, h, d, i);
      LastPacketObeys(s, d, h, i, step.handle);
    }
  }

  lemma CallObeys(s: State, step: Step, s': State)
    requires Inv(s) && step.DoCall? && Next(s, step, s')
    ensures CallLaw(s, step, s')
  {
    var h := step.host;
    if step.port.None? {
      RefusedCall(s, h, step.token, Failure(-ERR_NO_SOCKET));
    } else {
      var e, rid := s.hosts[h], Inc16(s.hosts[h].rid);
      var k := Key(Addr(h, step.port.value), rid);
      var c := FreshPair(step.token, step.port.value, rid, step.pkts);
      FramedPackets(step.pkts, step.bytes, Request, step.policy, rid);
      assert PacketOk(step.pkts[0], 0, |step.pkts|, Request, rid);
      SingleDatagram(k.addr, step.dst, step.pkts[0]);
      assert s'.hosts == s.hosts[h := e.(clients := e.clients + [c], rid := rid)];
      NewCallAwaited(s, h, e.(clients := e.clients + [c], rid := rid), c);
    }
  }

  lemma NewCallAwaited(s: State, h: int, e: Endpoint, c: ClientPair)
    requires Inv(s) && h in s.hosts && PortFree(s.hosts[h], c.port)
    requires e.clients == s.hosts[h].clients + [c] && e.servers == s.hosts[h].servers && e.app == s.hosts[h].app
    ensures var hosts', k := s.hosts[h := e], Key(Addr(h, c.port), c.rid);
            && CallsElsewhere(s.hosts, hosts', k) && Awaited(hosts', k) == Some(c.received)
            && ServersSame(s.hosts, hosts')
  {
    var cs, k := s.hosts[h].clients, Key(Addr(h, c.port), c.rid);
    var t := Waitlist(h, cs);
    WaitlistApart(s.log, s.calls, h, cs);
    assert Waitlist(h, cs + [c]) == t + [Line(k, c.received)];
    forall i | 0 <= i < |t|
      ensures t[i].key != k
    {
      assert cs[i] in cs;
    }
    forall x
      ensures Awaited(s.hosts[h := e], x) == if x == k then Some(c.received) else Awaited(s.hosts, x)
    {
      LookupSnoc(t, Line(k, c.received), x);
    }
    LookupSnoc(t, Line(k, c.received), k);
    assert Awaited(s.hosts[h := e], k) == Lookup(t + [Line(k, c.received)], k);
    assert Awaited(s.hosts[h := e], k) == Some(c.received);
  }

  lemma AnswerObeys(s: State, step: Step, s': State)
    requires Inv(s) && step.Answer? && Next(s, step, s')
    ensures AnswerLaw(s, step.host, step.handle, step.bytes, step.pkts, s')
  {
    var e := s.hosts[step.host];
    var sp := e.app[step.handle];
    assert AppOk(s.log, step.host, sp);
    FramedPackets(step.pkts, step.bytes, Response, FixedRoute, sp.rid);
    assert PacketOk(step.pkts[0], 0, |step.pkts|, Response, sp.rid);
  }

  lemma TimerObeys(s: State, step: Step, s': State)
    requires Inv(s) && step.Timer? && Next(s, step, s')
    ensures TimerLaw(s, Addr(step.host, step.socket), s')
  {
    var h, port := step.host, step.socket;
    var cs := s.hosts[h].clients;
    var i := FindPort(cs, port);
    if i == |cs| {
      SameHosts(s.hosts, h);
      forall x: Key | x.addr == Addr(h, port)
        ensures Awaited(s.hosts, x) == None
      {
        FoundClient(s, x);
      }
    } else {
      CompletionObeys(s, h, i, TimedOut);
      var k := Key(Addr(h, port), cs[i].rid);
      FoundClient(s, k);
      forall x: Key | x.addr == Addr(h, port) && x != k
        ensures Awaited(s.hosts, x) == None
      {
        FoundClient(s, x);
        assert cs[i] in cs;
      }
    }
  }

  lemma StepObeys(s: State, step: Step, s': State)
    requires Inv(s) && Next(s, step, s')
    ensures Law(s, step, s')
  {
    match step
    case DoCall(_, _, _, _, _, _, _) => CallObeys(s, step, s');
    case Lose(_) =>
    case Answer(_, _, _, _) => AnswerObeys(s, step, s');
    case Timer(_, _) => TimerObeys(s, step, s');
    case Deliver(d, _, _, _) =>
      assert DatagramOk(s.log, d);
      match d.pkt.header.typ {
        case Response => ReplyObeys(s, step, s');
        case Ack => AckObeys(s, step, s');
        case Drop => DropObeys(s, step, s');
        case Request =>
          if d.pkt.header.first {
            FirstObeys(s, step, s');
          } else {
            RestObeys(s, step, s');
          }
        case _ =>
      }
  }

  /** Every step of every run does what its law says. */
  lemma EveryStep(run: seq<State>, steps: seq<Step>, n: nat)
    requires IsRun(run, steps) && n < |steps|
    ensures Law(run[n], steps[n], run[n + 1])
  {
    RunsKeepInv(run, steps, n);
    StepObeys(run[n], steps[n], run[n + 1]);
  }
}
