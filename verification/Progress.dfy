/**
 What comes of a call: which deliveries are possible, and that a call whose datagrams all arrive in order and whose
 request is let in and answered succeeds, whatever else goes on.
 */
module Progress {
  import opened Collections
  import opened Wire
  import opened Transport
  import opened System
  import opened StepLaws

  // ----- which deliveries there are -----

  /** The packet completes a message with more packets than the application's table takes. */
  ghost predicate TooLong(s: State, d: Datagram, at: int) {
    var k, j := KeyOf(d), IndexOf(d.pkt.header);
    && k in s.log
    && match d.pkt.header.typ
       case Response =>
         s.log[k].phase.Answered? && Awaited(s.hosts, k) == Some(j) && j + 1 == |s.log[k].phase.reply| >= 255
       case Request => j > 0 && Gathered(s.hosts, at, k) == Some(j) && j + 1 == |s.log[k].request| >= 255
       case _ => false
  }

  lemma ReplyFits(s: State, step: Step)
    requires Inv(s) && step.Deliver? && Enabled(s, step) && step.d.pkt.header.typ == Response
    requires React(s, step).AssertFails?
    ensures TooLong(s, step.d, step.at)
  {
    var d, k := step.d, KeyOf(step.d);
    assert DatagramOk(s.log, d) && NotYetCounted(s.hosts, d);
    FoundClient(s, k);
    var i := FindClient(s.hosts[step.at].clients, d.dst.port, d.pkt.header.rid);
    CountedReply(s, d, i);
  }

  lemma RequestFits(s: State, step: Step)
    requires Inv(s) && step.Deliver? && Enabled(s, step) && step.d.pkt.header.typ == Request
    requires React(s, step).AssertFails?
    ensures TooLong(s, step.d, step.at)
  {
    var d, k := step.d, KeyOf(step.d);
    assert DatagramOk(s.log, d);
    assert RecordOk(k, s.log[k]);
    if d.pkt.header.first {
      FirstFacts(s, d);
    } else {
      FoundServer(s, step.at, k);
      var i := FindServer(s.hosts[step.at].servers, d.src, d.pkt.header.rid);
      PrefixGrows(s, step.at, d, i);
    }
  }

  /** A datagram in flight can be delivered, with the process going on, exactly if it completes no message too long. */
  lemma DeliveryPossible(run: seq<State>, steps: seq<Step>, n: nat, step: Step)
    requires IsRun(run, steps) && n < |run| && step.Deliver? && Enabled(run[n], step)
    ensures (exists s' :: Next(run[n], step, s')) <==> !TooLong(run[n], step.d, step.at)
  {
    var s, o := run[n], React(run[n], step);
    RunsKeepInv(run, steps, n);
    assert DatagramOk(s.log, step.d);
    DeliverKeeps(s, step);
    if o.Ok? {
      var s' := Observe(s.(net := s.net - multiset{step.d}), step.at, o.e, o.effect, []);
      assert Next(s, step, s');
      StepObeys(s, step, s');
    } else if step.d.pkt.header.typ == Response {
      ReplyFits(s, step);
    } else if step.d.pkt.header.typ == Request {
      RequestFits(s, step);
    } else {
      AckOrDropFits(s, step);
    }
  }

  lemma AckOrDropFits(s: State, step: Step)
    requires Inv(s) && step.Deliver? && Enabled(s, step) && step.d.pkt.header.typ in {Ack, Drop}
    ensures React(s, step).Ok?
  {
    var d := step.d;
    assert DatagramOk(s.log, d);
    var i := FindClient(s.hosts[step.at].clients, d.dst.port, d.pkt.header.rid);
    if i < |s.hosts[step.at].clients| && d.pkt.header.typ == Ack {
      AckFindsWAck(s, d, i);
      assert ClientOk(s.log, s.calls, step.at, s.hosts[step.at].clients[i]);
    }
  }

  // ----- calls that go well -----

  /** The call is pending and everything it still needs is in flight, or with the application. */
  ghost predicate OnTrack(s: State, k: Key) {
    && k in s.log && Awaited(s.hosts, k).Some?
    && var r := s.log[k];
       match r.phase
       case Req0Out => r.request != [] && Datagram(k.addr, r.dst, r.request[0]) in s.net
       case Refused => false
       case AckOut(h) => Gathered(s.hosts, h, k) == Some(1) && FromServer(h, k, AckPacket(k.rid)) in s.net
       case RestOut(h) =>
         && Gathered(s.hosts, h, k).Some? && 1 <= Gathered(s.hosts, h, k).value < |r.request|
         && forall i :: Gathered(s.hosts, h, k).value <= i < |r.request| ==>
              Datagram(k.addr, Addr(h, 8000), r.request[i]) in s.net
       case InApp(h) => exists handle :: Held(s.hosts, h, handle) == Some(k)
       case Answered(h, reply, _) =>
         && 0 <= Awaited(s.hosts, k).value < |reply|
         && forall i :: Awaited(s.hosts, k).value <= i < |reply| ==> FromServer(h, k, reply[i]) in s.net
  }

  /** The application got the request once, and the caller the answer. */
  ghost predicate Succeeded(s: State, k: Key) {
    && k in s.log && s.log[k].handed == [s.log[k].bytes] && s.log[k].phase.Answered?
    && s.log[k].token in s.calls && s.calls[s.log[k].token].outcomes == [Success(s.log[k].phase.reply)]
    && Payload(s.log[k].phase.reply) == s.log[k].phase.bytes
  }

  /** The step moves or loses a datagram of request k, answers it, or is the timeout of its call. */
  ghost predicate Touches(s: State, step: Step, k: Key) {
    match step
    case DoCall(_, _, _, _, _, _, _) => false
    case Lose(d) => KeyOf(d) == k
    case Deliver(d, _, _, _) => KeyOf(d) == k
    case Answer(h, handle, _, _) => Held(s.hosts, h, handle) == Some(k)
    case Timer(h, port) => Addr(h, port) == k.addr
  }

  /** What the request is waiting for: admission, the acknowledgement, the next packet, or the answer. */
  ghost predicate Good(s: State, step: Step, k: Key) {
    && k in s.log
    && match s.log[k].phase
       case Req0Out => step.Deliver? && step.keep && step.d.pkt.header.typ == Request
       case Refused => false
       case AckOut(_) => step.Deliver? && step.d.pkt.header.typ == Ack
       case RestOut(h) =>
         && step.Deliver? && step.d.pkt.header.typ == Request
         && Gathered(s.hosts, h, k) == Some(IndexOf(step.d.pkt.header))
       case InApp(_) => step.Answer?
       case Answered(_, _, _) =>
         && step.Deliver? && step.d.pkt.header.typ == Response
         && Awaited(s.hosts, k) == Some(IndexOf(step.d.pkt.header))
  }

  /** Its record, its pairs and its datagrams stay. */
  ghost predicate LeftAlone(s: State, s': State, k: Key) {
    && k in s.log && k in s'.log && s'.log[k] == s.log[k] && Awaited(s'.hosts, k) == Awaited(s.hosts, k)
    && (forall h {:trigger Gathered(s'.hosts, h, k)} :: Gathered(s'.hosts, h, k) == Gathered(s.hosts, h, k))
    && (forall h, id {:trigger Held(s'.hosts, h, id)} ::
          Held(s.hosts, h, id) == Some(k) ==> Held(s'.hosts, h, id) == Some(k))
    && (forall x {:trigger KeyOf(x)} :: x in s.net && KeyOf(x) == k ==> x in s'.net)
  }

  lemma OtherFirstPacket(s: State, d: Datagram, at: int, keep: bool, handle: int, s': State, k: Key)
    requires FirstLaw(s, d, at, keep, handle, s') && k in s.log && KeyOf(d) != k && Held(s.hosts, at, handle) == None
    ensures LeftAlone(s, s', k)
  {
    assert forall x :: x in s.net && KeyOf(x) == k ==> x in s.net - multiset{d};
  }

  lemma OtherLaterPacket(s: State, d: Datagram, at: int, handle: int, s': State, k: Key)
    requires RestLaw(s, d, at, handle, s') && k in s.log && KeyOf(d) != k && Held(s.hosts, at, handle) == None
    ensures LeftAlone(s, s', k)
  {
    assert forall x :: x in s.net && KeyOf(x) == k ==> x in s.net - multiset{d};
  }

  lemma OtherReplyPacket(s: State, step: Step, s': State, k: Key)
    requires step.Deliver? && step.d.pkt.header.typ != Request && DeliverLaw(s, step, s')
    requires k in s.log && KeyOf(step.d) != k
    ensures LeftAlone(s, s', k)
  {
    assert forall x :: x in s.net && KeyOf(x) == k ==> x in s.net - multiset{step.d};
    assert step.d.pkt.header.typ in {Response, Ack, Drop};
  }

  lemma OtherCallMade(s: State, step: Step, s': State, k: Key)
    requires step.DoCall? && step.host in s.hosts && CallLaw(s, step, s') && k in s.log
    requires step.port.Some? ==>
               Key(Addr(step.host, step.port.value), (s.hosts[step.host].rid + 1) % 0x1_0000) != k
    ensures LeftAlone(s, s', k)
  {
  }

  lemma OtherAnswer(s: State, h: int, handle: int, bytes: seq<byte>, pkts: seq<Packet>, s': State, k: Key)
    requires AnswerLaw(s, h, handle, bytes, pkts, s') && k in s.log && Held(s.hosts, h, handle) != Some(k)
    ensures LeftAlone(s, s', k)
  {
  }

  /** A step that does not touch a request leaves it alone. */
  lemma Undisturbed(s: State, step: Step, s': State, k: Key)
    requires Enabled(s, step) && Law(s, step, s') && k in s.log && !Touches(s, step, k)
    ensures LeftAlone(s, s', k)
  {
    match step
    case DoCall(_, _, _, _, _, _, _) => OtherCallMade(s, step, s', k);
    case Lose(d) => assert forall x :: x in s.net && KeyOf(x) == k ==> x in s.net - multiset{d};
    case Deliver(d, at, keep, handle) =>
      if d.pkt.header.typ == Request && d.pkt.header.first {
        OtherFirstPacket(s, d, at, keep, handle, s', k);
      } else if d.pkt.header.typ == Request {
        OtherLaterPacket(s, d, at, handle, s', k);
      } else {
        OtherReplyPacket(s, step, s', k);
      }
    case Answer(h, handle, bytes, pkts) => OtherAnswer(s, h, handle, bytes, pkts, s', k);
    case Timer(_, _) =>
  }

  lemma FlightKeys(s: State, k: Key)
    requires Inv(s) && k in s.log
    ensures forall i, a {:trigger Datagram(k.addr, a, s.log[k].request[i])} :: 0 <= i < |s.log[k].request| ==>
              KeyOf(Datagram(k.addr, a, s.log[k].request[i])) == k
    ensures s.log[k].phase.Answered? ==>
              forall i, h {:trigger FromServer(h, k, s.log[k].phase.reply[i])} :: 0 <= i < |s.log[k].phase.reply| ==>
                KeyOf(FromServer(h, k, s.log[k].phase.reply[i])) == k
  {
    var r := s.log[k];
    assert RecordOk(k, r);
    assert forall i :: 0 <= i < |r.request| ==> PacketOk(r.request[i], i, |r.request|, Request, k.rid);
    if r.phase.Answered? {
      var reply := r.phase.reply;
      assert forall i :: 0 <= i < |reply| ==> PacketOk(reply[i], i, |reply|, Response, k.rid);
    }
  }

  lemma QuietKeeps(s: State, s': State, k: Key)
    requires Inv(s) && OnTrack(s, k) && LeftAlone(s, s', k)
    ensures OnTrack(s', k)
  {
    FlightKeys(s, k);
    var r := s.log[k];
    if r.phase.InApp? {
      var handle :| Held(s.hosts, r.phase.server, handle) == Some(k);
      assert Held(s'.hosts, r.phase.server, handle) == Some(k);
    } else if r.phase.AckOut? {
      assert KeyOf(FromServer(r.phase.server, k, AckPacket(k.rid))) == k;
    }
  }

  // ----- the good steps, one by one -----

  lemma AdmittedOnTrack(s: State, d: Datagram, at: int, handle: int, s': State, k: Key)
    requires Inv(s) && d in s.net && KeyOf(d) == k && OnTrack(s, k) && FirstLaw(s, d, at, true, handle, s')
    ensures OnTrack(s', k)
  {
    assert |s.log[k].request| == 1 ==> Held(s'.hosts, at, handle) == Some(k);
  }

  lemma AcknowledgedOnTrack(s: State, d: Datagram, s': State, k: Key)
    requires Inv(s) && d in s.net && KeyOf(d) == k && d.pkt.header.typ == Ack && OnTrack(s, k) && AckLaw(s, d, s')
    ensures OnTrack(s', k)
  {
    assert DatagramOk(s.log, d);
    var request := s.log[k].request;
    var rest := Datagrams(k.addr, d.src, request[1..]);
    forall i | 1 <= i < |request|
      ensures Datagram(k.addr, Addr(d.src.host, 8000), request[i]) in s'.net
    {
      assert rest[i - 1] == Datagram(k.addr, d.src, request[i]) && rest[i - 1] in rest;
    }
  }

  lemma GatheringOnTrack(s: State, d: Datagram, handle: int, s': State, k: Key)
    requires Inv(s) && d in s.net && KeyOf(d) == k && d.pkt.header.typ == Request && !d.pkt.header.first
    requires OnTrack(s, k) && s.log[k].phase == RestOut(d.dst.host) && RestLaw(s, d, d.dst.host, handle, s')
    requires Gathered(s.hosts, d.dst.host, k) == Some(IndexOf(d.pkt.header))
    ensures OnTrack(s', k)
  {
    var h, r, j := d.dst.host, s.log[k], IndexOf(d.pkt.header);
    assert RecordOk(k, r);
    assert forall i :: j < i < |r.request| ==> PacketOk(r.request[i], i, |r.request|, Request, k.rid);
    assert forall i :: j < i < |r.request| ==> Datagram(k.addr, Addr(h, 8000), r.request[i]) != d;
    assert j + 1 == |r.request| ==> Held(s'.hosts, h, handle) == Some(k);
  }

  /** Before the answer nothing of it has been counted in. */
  lemma NothingAwaitedYet(s: State, k: Key)
    requires Inv(s) && k in s.log && Awaited(s.hosts, k).Some? && !s.log[k].phase.Answered?
    ensures Awaited(s.hosts, k) == Some(0)
  {
    FoundClient(s, k);
    var cs := s.hosts[k.addr.host].clients;
    var c := cs[FindClient(cs, k.addr.port, k.rid)];
    assert c in cs && ClientOk(s.log, s.calls, k.addr.host, c);
  }

  lemma HeldIsInApp(s: State, h: int, handle: int, k: Key)
    requires Inv(s) && Held(s.hosts, h, handle) == Some(k)
    ensures k in s.log && s.log[k].phase == InApp(h)
  {
    assert AppOk(s.log, h, s.hosts[h].app[handle]);
  }

  /** An answer to a pending call, whatever happened before, puts it on track. */
  lemma AnsweredOnTrack(s: State, h: int, handle: int, bytes: seq<byte>, pkts: seq<Packet>, s': State, k: Key)
    requires Inv(s) && AnswerLaw(s, h, handle, bytes, pkts, s') && pkts != []
    requires Held(s.hosts, h, handle) == Some(k) && Awaited(s.hosts, k).Some?
    ensures OnTrack(s', k) && s'.log[k].phase == Answered(h, pkts, bytes)
  {
    HeldIsInApp(s, h, handle, k);
    NothingAwaitedYet(s, k);
    var ds := Datagrams(Addr(h, 8000), k.addr, pkts);
    forall i | 0 <= i < |pkts|
      ensures FromServer(h, k, pkts[i]) in s'.net
    {
      assert ds[i] in ds;
    }
  }

  lemma CountingOnTrack(s: State, d: Datagram, s': State, k: Key)
    requires Inv(s) && d in s.net && KeyOf(d) == k && OnTrack(s, k) && ReplyLaw(s, d, s')
    requires Awaited(s.hosts, k) == Some(IndexOf(d.pkt.header))
    ensures OnTrack(s', k) || Succeeded(s', k)
  {
    var h, reply, j := s.log[k].phase.server, s.log[k].phase.reply, IndexOf(d.pkt.header);
    assert RecordOk(k, s.log[k]);
    assert forall i :: j < i < |reply| ==> PacketOk(reply[i], i, |reply|, Response, k.rid);
    assert forall i :: j < i < |reply| ==> FromServer(h, k, reply[i]) != d;
  }

  /** Of a request being gathered only later packets are in flight, of a new one only its first. */
  lemma WhichPacket(s: State, d: Datagram)
    requires Inv(s) && d in s.net && d.pkt.header.typ == Request
    ensures var k := KeyOf(d);
            && k in s.log && (d.pkt.header.first <==> s.log[k].phase == Req0Out)
            && (!d.pkt.header.first ==> RestSent(s.log[k].phase) && d.dst.host == s.log[k].phase.server)
  {
    var k, j := KeyOf(d), IndexOf(d.pkt.header);
    assert DatagramOk(s.log, d) && RecordOk(k, s.log[k]);
    assert PacketOk(s.log[k].request[j], j, |s.log[k].request|, Request, k.rid);
  }

  lemma GoodKeeps(s: State, step: Step, s': State, k: Key)
    requires Inv(s) && Next(s, step, s') && OnTrack(s, k) && Touches(s, step, k) && Good(s, step, k)
    ensures OnTrack(s', k) || Succeeded(s', k)
  {
    StepObeys(s, step, s');
    match s.log[k].phase
    case Req0Out =>
      WhichPacket(s, step.d);
      AdmittedOnTrack(s, step.d, step.at, step.handle, s', k);
    case AckOut(_) => AcknowledgedOnTrack(s, step.d, s', k);
    case RestOut(_) =>
      WhichPacket(s, step.d);
      GatheringOnTrack(s, step.d, step.handle, s', k);
    case InApp(_) => AnsweredOnTrack(s, step.host, step.handle, step.bytes, step.pkts, s', k);
    case Answered(_, _, _) => CountingOnTrack(s, step.d, s', k);
  }

  /** A pending call has had no callback, so it is not one that has. */
  lemma PendingIsAnother(s: State, k: Key, x: Key)
    requires Inv(s) && Succeeded(s, k) && Awaited(s.hosts, x).Some?
    ensures x in s.log && s.log[x].token != s.log[k].token
  {
    FoundClient(s, x);
    CallbackIsFirst(s, x.addr.host, FindClient(s.hosts[x.addr.host].clients, x.addr.port, x.rid));
  }

  lemma CallbackStays(s: State, step: Step, s': State, k: Key)
    requires Inv(s) && Enabled(s, step) && Law(s, step, s') && Succeeded(s, k)
    ensures s.log[k].token in s'.calls && s'.calls[s.log[k].token] == s.calls[s.log[k].token]
  {
    forall x | Awaited(s.hosts, x).Some?
      ensures x in s.log && s.log[x].token != s.log[k].token
    {
      PendingIsAnother(s, k, x);
    }
    if step.Deliver? {
      assert DatagramOk(s.log, step.d);
      assert step.d.pkt.header.typ in {Response, Ack, Drop, Request};
    }
  }

  /** A success is for good. */
  lemma SuccessStays(s: State, step: Step, s': State, k: Key)
    requires Inv(s) && Enabled(s, step) && Law(s, step, s') && Succeeded(s, k)
    ensures Succeeded(s', k)
  {
    AnsweredStays(s, step, s', k);
    CallbackStays(s, step, s', k);
  }

  /** Nobody gathers an answered request, and of what moves it on only replies are in flight. */
  lemma AnsweredInFlight(s: State, d: Datagram, at: int)
    requires Inv(s) && d in s.net && at in s.hosts
    requires KeyOf(d) in s.log && s.log[KeyOf(d)].phase.Answered?
    ensures d.pkt.header.typ == Response ||
            (d.pkt.header.typ == Request && !d.pkt.header.first && Gathered(s.hosts, at, KeyOf(d)) == None)
  {
    var k, ss := KeyOf(d), s.hosts[at].servers;
    assert DatagramOk(s.log, d);
    if d.pkt.header.typ == Request {
      WhichPacket(s, d);
      FoundServer(s, at, k);
      var i := FindServer(ss, k.addr, k.rid);
      assert i < |ss| ==> ss[i] in ss && ServerOk(s.log, at, ss[i]);
    }
  }

  lemma AnsweredStays(s: State, step: Step, s': State, k: Key)
    requires Inv(s) && Enabled(s, step) && Law(s, step, s') && k in s.log && s.log[k].phase.Answered?
    ensures k in s'.log && s'.log[k] == s.log[k]
  {
    if !Touches(s, step, k) {
      Undisturbed(s, step, s', k);
    } else if step.Deliver? {
      AnsweredInFlight(s, step.d, step.at);
    } else if step.Answer? {
      HeldIsInApp(s, step.host, step.handle, k);
    }
  }

  /** A call with a socket is on track once it is made. */
  lemma CallOnTrack(run: seq<State>, steps: seq<Step>, n: nat)
    requires IsRun(run, steps) && n < |steps| && steps[n].DoCall? && steps[n].port.Some?
    ensures steps[n].token in run[n + 1].calls && run[n + 1].calls[steps[n].token].key.Some?
    ensures OnTrack(run[n + 1], run[n + 1].calls[steps[n].token].key.value)
  {
    EveryStep(run, steps, n);
  }

  /** Between moments c and n every step that touches a request is one that it waits for, until it has succeeded. */
  ghost predicate Lossless(run: seq<State>, steps: seq<Step>, c: nat, n: nat, k: Key) {
    && n < |run| == |steps| + 1
    && forall i {:trigger steps[i]} :: c <= i < n ==>
         !Touches(run[i], steps[i], k) || Good(run[i], steps[i], k) || Succeeded(run[i], k)
  }

  lemma {:induction false} StaysOnTrack(run: seq<State>, steps: seq<Step>, c: nat, n: nat, k: Key)
    requires IsRun(run, steps) && c <= n && Lossless(run, steps, c, n, k) && OnTrack(run[c], k)
    ensures OnTrack(run[n], k) || Succeeded(run[n], k)
    decreases n
  {
    if c < n {
      assert Lossless(run, steps, c, n - 1, k);
      StaysOnTrack(run, steps, c, n - 1, k);
      RunsKeepInv(run, steps, n - 1);
      var last := steps[n - 1];
      TrackGoesOn(run[n - 1], last, run[n], k);
    }
  }

  /**
   From a moment at which a call is on track, let every step that touches it be one that it waits for, with no datagram
   of it lost. Then it stays on track until it succeeds; once nothing of it is in flight, the application has been
   handed exactly the bytes of the caller and holds the request, or the caller has the bytes of the answer.
   */
  lemma LosslessSucceeds(run: seq<State>, steps: seq<Step>, c: nat, n: nat, k: Key)
    requires IsRun(run, steps) && c <= n && Lossless(run, steps, c, n, k) && OnTrack(run[c], k)
    ensures OnTrack(run[n], k) || Succeeded(run[n], k)
    ensures (forall d :: d in run[n].net ==> KeyOf(d) != k) ==>
              Succeeded(run[n], k) || (run[n].log[k].phase.InApp? && run[n].log[k].handed == [run[n].log[k].bytes])
  {
    StaysOnTrack(run, steps, c, n, k);
    RunsKeepInv(run, steps, n);
    if !Succeeded(run[n], k) {
      FlightOrApp(run[n], k);
    }
  }

  /** If the request is answered at this moment, its record is the same at the next. */
  ghost predicate Kept(run: seq<State>, k: Key, n: nat)
    requires n + 1 < |run|
  {
    k in run[n].log && run[n].log[k].phase.Answered? ==> k in run[n + 1].log && run[n + 1].log[k] == run[n].log[k]
  }

  lemma AnswerStays(run: seq<State>, steps: seq<Step>, n: nat, k: Key)
    requires IsRun(run, steps) && n < |steps|
    ensures Kept(run, k, n)
  {
    if k in run[n].log && run[n].log[k].phase.Answered? {
      RunsKeepInv(run, steps, n);
      StepObeys(run[n], steps[n], run[n + 1]);
      AnsweredStays(run[n], steps[n], run[n + 1], k);
    }
  }

  lemma {:induction false} AnswerIsFinal(run: seq<State>, c: nat, n: nat, k: Key)
    requires c <= n < |run| && k in run[c].log && run[c].log[k].phase.Answered?
    requires forall i {:trigger Kept(run, k, i)} :: c <= i < n ==> Kept(run, k, i)
    ensures k in run[n].log && run[n].log[k] == run[c].log[k]
    decreases n
  {
    if c < n {
      AnswerIsFinal(run, c, n - 1, k);
      assert Kept(run, k, n - 1);
    }
  }

  /**
   A reply that arrives in order and without loss succeeds: whatever went before the answer to a pending call, once
   nothing of the request is in flight any more the caller has exactly the bytes answered.
   */
  lemma ReplySucceeds(run: seq<State>, steps: seq<Step>, c: nat, n: nat, k: Key)
    requires IsRun(run, steps) && c < n && Lossless(run, steps, c + 1, n, k) && steps[c].Answer?
    requires Held(run[c].hosts, steps[c].host, steps[c].handle) == Some(k) && Awaited(run[c].hosts, k).Some?
    requires forall d :: d in run[n].net ==> KeyOf(d) != k
    ensures Succeeded(run[n], k) && run[n].log[k].phase == Answered(steps[c].host, steps[c].pkts, steps[c].bytes)
  {
    RunsKeepInv(run, steps, c);
    EveryStep(run, steps, c);
    var step := steps[c];
    assert Next(run[c], step, run[c + 1]);
    AnsweredOnTrack(run[c], step.host, step.handle, step.bytes, step.pkts, run[c + 1], k);
    LosslessSucceeds(run, steps, c + 1, n, k);
    forall i | c + 1 <= i < n
      ensures Kept(run, k, i)
    {
      AnswerStays(run, steps, i, k);
    }
    AnswerIsFinal(run, c + 1, n, k);
  }

  lemma TrackGoesOn(s: State, step: Step, s': State, k: Key)
    requires Inv(s) && Next(s, step, s') && (OnTrack(s, k) || Succeeded(s, k))
    requires !Touches(s, step, k) || Good(s, step, k) || Succeeded(s, k)
    ensures OnTrack(s', k) || Succeeded(s', k)
  {
    StepObeys(s, step, s');
    if Succeeded(s, k) {
      SuccessStays(s, step, s', k);
    } else if Touches(s, step, k) {
      GoodKeeps(s, step, s', k);
    } else {
      Undisturbed(s, step, s', k);
      QuietKeeps(s, s', k);
    }
  }

  lemma FlightOrApp(s: State, k: Key)
    requires Inv(s) && OnTrack(s, k)
    ensures (s.log[k].phase.InApp? && s.log[k].handed == [s.log[k].bytes]) || exists d :: d in s.net && KeyOf(d) == k
  {
    FlightKeys(s, k);
    var r := s.log[k];
    assert RecordOk(k, r);
    match r.phase
    case Req0Out => assert KeyOf(Datagram(k.addr, r.dst, r.request[0])) == k;
    case AckOut(h) => assert KeyOf(FromServer(h, k, AckPacket(k.rid))) == k;
    case RestOut(h) =>
      var i := Gathered(s.hosts, h, k).value;
      assert KeyOf(Datagram(k.addr, Addr(h, 8000), r.request[i])) == k;
    case InApp(_) =>
    case Answered(h, reply, _) =>
      var i := Awaited(s.hosts, k).value;
      assert KeyOf(FromServer(h, k, reply[i])) == k;
  }
}
