/** Packet layout, size constants and message kinds (r2p2/inc/r2p2/api-internal.h). */
module Wire {

  type byte = x: int | 0 <= x < 256
  type uint16 = x: int | 0 <= x < 0x1_0000

  const HEADER_SIZE := 8
  const PAYLOAD_SIZE := 1472 - HEADER_SIZE
  const MIN_PAYLOAD_SIZE := 22 - HEADER_SIZE
  const MAGIC: byte := 0xCC
  /** Buffers and sockets of a Linux endpoint. */
  const BUFPOOL_SIZE := 1024
  const SOCKPOOL_SIZE := 128
  const F_FLAG := 0x80
  const L_FLAG := 0x40

  datatype MsgType = Request | Response | Feedback | Ack | Drop | RaftReq | RaftRep | RaftMsg
  datatype Policy = LbRoute | FixedRoute | ReplicatedRoute | ReplicatedRouteNoSe

  datatype Header = Header(typ: MsgType, policy: Policy, first: bool, last: bool, rid: uint16, order: uint16)

  /** A packet as it travels: the decoded header and the bytes that follow it. */
  datatype Packet = Packet(header: Header, body: seq<byte>)

  /** Response-side kinds, dispatched to the client half of an endpoint. */
  predicate IsResponse(h: Header) {
    h.typ in {Response, Ack, Drop, RaftRep}
  }

  predicate IsRaftMsg(h: Header) {
    h.typ in {RaftReq, RaftRep, RaftMsg}
  }

  predicate IsReplicated(h: Header) {
    h.policy in {ReplicatedRoute, ReplicatedRouteNoSe}
  }

  // ----- the eight header bytes -----

  function TypeCode(t: MsgType): byte {
    match t
    case Request => 0 case Response => 1 case Feedback => 2 case Ack => 3
    case Drop => 4 case RaftReq => 5 case RaftRep => 6 case RaftMsg => 7
  }

  function PolicyCode(p: Policy): byte {
    match p
    case LbRoute => 0 case FixedRoute => 1 case ReplicatedRoute => 2 case ReplicatedRouteNoSe => 3
  }

  /** The header as written by the sender: kind and policy share a byte, rid and order are big-endian. */
  function EncodeHeader(h: Header): seq<byte> {
    [MAGIC, HEADER_SIZE,
     TypeCode(h.typ) * 16 + PolicyCode(h.policy),
     (if h.first then F_FLAG else 0) + (if h.last then L_FLAG else 0),
     h.rid / 256, h.rid % 256, h.order / 256, h.order % 256]
  }

  datatype Option<+T> = None | Some(value: T)

  function TypeOf(code: nat): Option<MsgType> {
    match code
    case 0 => Some(Request) case 1 => Some(Response) case 2 => Some(Feedback) case 3 => Some(Ack)
    case 4 => Some(Drop) case 5 => Some(RaftReq) case 6 => Some(RaftRep) case 7 => Some(RaftMsg)
    case _ => None
  }

  function PolicyOf(code: nat): Option<Policy> {
    match code
    case 0 => Some(LbRoute) case 1 => Some(FixedRoute) case 2 => Some(ReplicatedRoute)
    case 3 => Some(ReplicatedRouteNoSe) case _ => None
  }

  function Swap(hi: byte, lo: byte): uint16 {
    var h: int := hi;
    h * 256 + lo
  }

  /** The receiver's accessors: nibbles for kind and policy, the two top flag bits, byte-swapped numbers. */
  function DecodeHeader(b: seq<byte>): Option<Header>
    requires |b| >= HEADER_SIZE
  {
    var t, p := TypeOf(b[2] / 16), PolicyOf(b[2] % 16);
    if t.None? || p.None? then None
    else Some(Header(t.value, p.value, b[3] / F_FLAG % 2 == 1, b[3] / L_FLAG % 2 == 1,
                     Swap(b[4], b[5]), Swap(b[6], b[7])))
  }

  /** Every header survives the wire, also in front of an arbitrary body. */
  lemma HeaderRoundTrip(h: Header, body: seq<byte>)
    ensures |EncodeHeader(h)| == HEADER_SIZE
    ensures DecodeHeader(EncodeHeader(h) + body) == Some(h)
  {
    var b := EncodeHeader(h) + body;
    assert b[2] / 16 == TypeCode(h.typ) && b[2] % 16 == PolicyCode(h.policy);
    assert Swap(b[4], b[5]) == h.rid && Swap(b[6], b[7]) == h.order;
  }

  // ----- byte sequences -----

  function Concat(parts: seq<seq<byte>>): seq<byte> {
    if parts == [] then [] else parts[0] + Concat(parts[1..])
  }

  lemma Associate<T>(a: seq<T>, b: seq<T>, c: seq<T>)
    ensures a + (b + c) == (a + b) + c
  {
  }

  lemma {:induction false} ConcatAppend(a: seq<seq<byte>>, b: seq<seq<byte>>)
    ensures Concat(a + b) == Concat(a) + Concat(b)
  {
    if a == [] {
      assert a + b == b;
    } else {
      ConcatAppend(a[1..], b);
      ConcatCons(a[0], a[1..]);
      ConcatCons(a[0], a[1..] + b);
      Associate(a[0], Concat(a[1..]), Concat(b));
      assert [a[0]] + a[1..] == a && [a[0]] + (a[1..] + b) == a + b;
    }
  }

  lemma ConcatCons(x: seq<byte>, rest: seq<seq<byte>>)
    ensures Concat([x] + rest) == x + Concat(rest)
  {
    assert ([x] + rest)[1..] == rest;
  }

  lemma ConcatSnoc(a: seq<seq<byte>>, x: seq<byte>)
    ensures Concat(a + [x]) == Concat(a) + x
  {
    ConcatAppend(a, [x]);
    assert Concat([x]) == x + Concat([]);
  }

  function Bodies(pkts: seq<Packet>): seq<seq<byte>> {
    seq(|pkts|, i requires 0 <= i < |pkts| => pkts[i].body)
  }

  /** The bytes a message carries. */
  function Payload(pkts: seq<Packet>): seq<byte> {
    Concat(Bodies(pkts))
  }
}
