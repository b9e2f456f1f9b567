/**
 Replicating a batch of ordered requests: serialising it (entries_to_iov), sending it as one fragmented message,
 and rebuilding it from the reassembled packets (msg_to_entries).
 */
module AppendEntries {
  import opened Collections
  import opened Wire
  import opened Framing
  import opened Reader

  // Sizes of the images copied: an entry is metadata, a pointer between padding, a length, padding.
  const META_SIZE := 17      // term, id, type, replier
  const HIDDEN_SIZE := 15
  const PAD_SIZE := 4
  const ENTRY_SIZE := META_SIZE + HIDDEN_SIZE + 4 + PAD_SIZE
  const SENDER_SIZE := 6
  const POINTERS_SIZE := 16
  const MSG_SIZE := SENDER_SIZE + 2 + POINTERS_SIZE
  const AE_HEADER_SIZE := 16

  type uint32 = x: int | 0 <= x < 0x1_0000_0000

  function Little(x: uint32): seq<byte> {
    [x % 256, x / 256 % 256, x / 65536 % 256, x / 16777216]
  }

  function FromLittle(b: seq<byte>): uint32
    requires |b| == 4
  {
    var b0: int, b1: int, b2: int, b3: int := b[0], b[1], b[2], b[3];
    b0 + b1 * 256 + b2 * 65536 + b3 * 16777216
  }

  function Big(x: uint32): seq<byte> {
    var l := Little(x);
    [l[3], l[2], l[1], l[0]]
  }

  function FromBig(b: seq<byte>): uint32
    requires |b| == 4
  {
    FromLittle([b[3], b[2], b[1], b[0]])
  }

  lemma NumberRoundTrip(x: uint32)
    ensures FromLittle(Little(x)) == x && FromBig(Big(x)) == x
  {
    var x1, x2 := x / 256, x / 65536;
    assert x2 == x1 / 256 && x / 16777216 == x2 / 256;
    assert x == x % 256 + 256 * (x1 % 256) + 65536 * (x2 % 256) + 16777216 * (x2 / 256);
    assert [Big(x)[3], Big(x)[2], Big(x)[1], Big(x)[0]] == Little(x);
  }

  // ----- what is sent -----

  /**
   A log entry of the leader with the server pair it points to; payload is the request's one packet, header included.
   */
  datatype Entry = Entry(meta: seq<byte>, hidden: seq<byte>, len: uint32, pad: seq<byte>,
                         sender: seq<byte>, rid: seq<byte>, pointers: seq<byte>, payload: seq<byte>)

  predicate HasLastFlag(header: seq<byte>)
    requires |header| >= HEADER_SIZE
  {
    header[3] / L_FLAG % 2 == 1
  }

  /** An entry for a request that arrived in one packet. */
  ghost predicate SinglePacket(e: Entry) {
    && |e.meta| == META_SIZE && |e.hidden| == HIDDEN_SIZE && |e.pad| == PAD_SIZE
    && |e.sender| == SENDER_SIZE && |e.rid| == 2 && |e.pointers| == POINTERS_SIZE
    && e.len == |e.payload| >= HEADER_SIZE && e.payload[0] == MAGIC && HasLastFlag(e.payload)
  }

  function EntryImage(e: Entry): seq<byte> {
    e.meta + e.hidden + Little(e.len) + e.pad
  }

  function MsgImage(e: Entry): seq<byte> {
    e.sender + e.rid + e.pointers
  }

  function Record(e: Entry): seq<byte> {
    EntryImage(e) + MsgImage(e) + e.payload
  }

  function AllRecords(es: seq<Entry>): seq<seq<byte>> {
    seq(|es|, i requires 0 <= i < |es| => Record(es[i]))
  }

  function Records(es: seq<Entry>): seq<byte> {
    Concat(AllRecords(es))
  }

  datatype AeHeader = AeHeader(msgType: byte, from: byte, term: byte, prevIdx: uint32, prevTerm: byte,
                               commit: uint32, count: uint32)

  function HeaderImage(h: AeHeader): seq<byte> {
    [h.msgType, h.from, h.term] + Big(h.prevIdx) + [h.prevTerm] + Big(h.commit) + Big(h.count)
  }

  lemma RecordsSnoc(es: seq<Entry>, e: Entry)
    ensures Records(es + [e]) == Records(es) + Record(e)
  {
    assert AllRecords(es + [e]) == AllRecords(es) + [Record(e)];
    ConcatSnoc(AllRecords(es), Record(e));
  }

  /** entries_to_iov: three vectors for every entry. */
  method EntriesToIov(es: seq<Entry>) returns (iov: seq<seq<byte>>)
    ensures Concat(iov) == Records(es) && |iov| == 3 * |es|
  {
    iov := [];
    for i := 0 to |es|
      invariant Concat(iov) == Records(es[..i]) && |iov| == 3 * i
    {
      var e := es[i];
      ConcatSnoc(iov, EntryImage(e));
      ConcatSnoc(iov + [EntryImage(e)], MsgImage(e));
      ConcatSnoc(iov + [EntryImage(e)] + [MsgImage(e)], e.payload);
      RecordsSnoc(es[..i], e);
      assert es[..i] + [e] == es[..i + 1];
      assert Concat(iov) + EntryImage(e) + MsgImage(e) + e.payload == Concat(iov) + Record(e);
      iov := iov + [EntryImage(e)] + [MsgImage(e)] + [e.payload];
    }
    assert es[..|es|] == es;
  }

  /** The append-entries branch of send_raft_msg, down to packets. */
  method SendAppendEntries(h: AeHeader, es: seq<Entry>, rid: uint16) returns (pkts: seq<Packet>)
    ensures Framed(pkts, HeaderImage(h) + Records(es), RaftReq, FixedRoute, rid)
  {
    var iov := EntriesToIov(es);
    var whole := [HeaderImage(h)] + iov;
    assert whole[1..] == iov;
    pkts := PrepareMsg(whole, RaftReq, FixedRoute, rid);
  }

  // ----- what is read back -----

  /** A rebuilt entry; its pointers are those of the receiver. */
  datatype Received = Received(meta: seq<byte>, len: uint32, sender: seq<byte>, rid: seq<byte>, payload: seq<byte>)

  function Restored(e: Entry): Received {
    Received(e.meta, e.len, e.sender, e.rid, e.payload)
  }

  function AllRestored(es: seq<Entry>): seq<Received> {
    if es == [] then [] else [Restored(es[0])] + AllRestored(es[1..])
  }

  /** The record at a position of the stream; None where the source's assertions stop it or the stream is too short. */
  function ParseOne(s: seq<byte>, pos: nat): (r: Option<Received>)
  {
    if pos + ENTRY_SIZE + MSG_SIZE + HEADER_SIZE > |s| then None
    else
      var image, msg := s[pos..pos + ENTRY_SIZE], s[pos + ENTRY_SIZE..pos + ENTRY_SIZE + MSG_SIZE];
      var at := pos + ENTRY_SIZE + MSG_SIZE;
      var len := FromLittle(image[META_SIZE + HIDDEN_SIZE..META_SIZE + HIDDEN_SIZE + 4]);
      if s[at] != MAGIC || !HasLastFlag(s[at..at + HEADER_SIZE]) || len < HEADER_SIZE || at + len > |s| then None
      else Some(Received(image[..META_SIZE], len, msg[..SENDER_SIZE],
                         msg[SENDER_SIZE..SENDER_SIZE + 2], s[at..at + len]))
  }

  function Parse(s: seq<byte>, pos: nat, count: nat): Option<seq<Received>>
    decreases count
  {
    if count == 0 then Some([])
    else
      var first := ParseOne(s, pos);
      if first.None? then None
      else
        var rest := Parse(s, pos + ENTRY_SIZE + MSG_SIZE + first.value.len, count - 1);
        if rest.None? then None else Some([first.value] + rest.value)
  }

  function ParseMessage(s: seq<byte>): Option<(AeHeader, seq<Received>)> {
    if |s| < AE_HEADER_SIZE then None
    else
      var h := AeHeader(s[0], s[1], s[2], FromBig(s[3..7]), s[7], FromBig(s[8..12]), FromBig(s[12..16]));
      var es := Parse(s, AE_HEADER_SIZE, h.count);
      if es.None? then None else Some((h, es.value))
  }

  lemma ImageFields(e: Entry)
    requires SinglePacket(e)
    ensures var i, m := EntryImage(e), MsgImage(e);
            && |i| == ENTRY_SIZE && |m| == MSG_SIZE && i[..META_SIZE] == e.meta
            && i[META_SIZE + HIDDEN_SIZE..META_SIZE + HIDDEN_SIZE + 4] == Little(e.len)
            && m[..SENDER_SIZE] == e.sender && m[SENDER_SIZE..SENDER_SIZE + 2] == e.rid
  {
  }

  lemma RecordFields(e: Entry)
    requires SinglePacket(e)
    ensures var r, at := Record(e), ENTRY_SIZE + MSG_SIZE;
            |r| == at + e.len && r[..ENTRY_SIZE] == EntryImage(e)
            && r[ENTRY_SIZE..at] == MsgImage(e) && r[at..] == e.payload
  {
    ImageFields(e);
  }

  lemma Within<T>(s: seq<T>, pos: nat, r: seq<T>, i: nat, j: nat)
    requires pos + |r| <= |s| && s[pos..pos + |r|] == r && i <= j <= |r|
    ensures s[pos + i..pos + j] == r[i..j]
  {
    forall k | 0 <= k < j - i
      ensures s[pos + i..pos + j][k] == r[i..j][k]
    {
      assert r[i + k] == s[pos..pos + |r|][i + k];
    }
  }

  /** A record is read back wherever it stands. */
  lemma ParseRecord(s: seq<byte>, pos: nat, e: Entry)
    requires SinglePacket(e) && pos + |Record(e)| <= |s| && s[pos..pos + |Record(e)|] == Record(e)
    ensures |Record(e)| == ENTRY_SIZE + MSG_SIZE + e.len && ParseOne(s, pos) == Some(Restored(e))
  {
    RecordFields(e);
    ImageFields(e);
    NumberRoundTrip(e.len);
    var r, at := Record(e), ENTRY_SIZE + MSG_SIZE;
    Within(s, pos, r, 0, ENTRY_SIZE);
    Within(s, pos, r, ENTRY_SIZE, at);
    Within(s, pos, r, at, |r|);
    assert s[pos + at..pos + at + e.len] == e.payload;
    assert s[pos + at..pos + at + HEADER_SIZE] == e.payload[..HEADER_SIZE];
    assert s[pos + at] == s[pos + at..pos + at + e.len][0] == e.payload[0];
  }

  /** At pos the stream holds a record of e, and the next one would start at next. */
  ghost predicate ReadsAs(s: seq<byte>, pos: nat, e: Received, next: nat) {
    forall x {:trigger About(x)} :: x == s ==>
      ParseOne(x, pos) == Some(e) && next == pos + ENTRY_SIZE + MSG_SIZE + e.len
  }

  /** The first record of a batch is read back, and the others follow it. */
  lemma FirstRecord(s: seq<byte>, pos: nat, es: seq<Entry>)
    requires es != [] && SinglePacket(es[0])
    requires pos + |Records(es)| <= |s| && s[pos..pos + |Records(es)|] == Records(es)
    ensures ReadsAs(s, pos, Restored(es[0]), pos + |Record(es[0])|)
    ensures var next := pos + |Record(es[0])|;
            next + |Records(es[1..])| <= |s| && s[next..next + |Records(es[1..])|] == Records(es[1..])
  {
    RecordFields(es[0]);
    assert AllRecords(es)[1..] == AllRecords(es[1..]);
    assert Records(es) == Record(es[0]) + Records(es[1..]);
    var next := |Record(es[0])|;
    Within(s, pos, Records(es), 0, next);
    Within(s, pos, Records(es), next, |Records(es)|);
    ParseRecord(s, pos, es[0]);
  }

  lemma ParseStep(s: seq<byte>, pos: nat, count: nat, e: Received, next: nat, rest: seq<Received>)
    requires count > 0 && ReadsAs(s, pos, e, next) && Parse(s, next, count - 1) == Some(rest)
    ensures Parse(s, pos, count) == Some([e] + rest)
  {
    assert About(s);
  }

  lemma {:induction false} ParseRecords(s: seq<byte>, pos: nat, es: seq<Entry>)
    requires forall i :: 0 <= i < |es| ==> SinglePacket(es[i])
    requires pos + |Records(es)| <= |s| && s[pos..pos + |Records(es)|] == Records(es)
    ensures Parse(s, pos, |es|) == Some(AllRestored(es))
    decreases |es|
  {
    if es != [] {
      var rest, next := es[1..], pos + |Record(es[0])|;
      FirstRecord(s, pos, es);
      ParseRecords(s, next, rest);
      ParseStep(s, pos, |es|, Restored(es[0]), next, AllRestored(rest));
    }
  }

  lemma HeaderFields(h: AeHeader, rest: seq<byte>)
    ensures var s := HeaderImage(h) + rest;
            && |HeaderImage(h)| == AE_HEADER_SIZE
            && h == AeHeader(s[0], s[1], s[2], FromBig(s[3..7]), s[7], FromBig(s[8..12]), FromBig(s[12..16]))
  {
    var s := HeaderImage(h) + rest;
    NumberRoundTrip(h.prevIdx);
    NumberRoundTrip(h.commit);
    NumberRoundTrip(h.count);
    assert s[3..7] == Big(h.prevIdx) && s[8..12] == Big(h.commit) && s[12..16] == Big(h.count);
  }

  lemma BodyFollows(pre: seq<byte>, es: seq<Entry>)
    requires forall i :: 0 <= i < |es| ==> SinglePacket(es[i])
    ensures Parse(pre + Records(es), |pre|, |es|) == Some(AllRestored(es))
  {
    AfterPrefix(pre, Records(es));
    ParseRecords(pre + Records(es), |pre|, es);
  }

  lemma AfterPrefix<T>(a: seq<T>, b: seq<T>)
    ensures (a + b)[|a|..|a| + |b|] == b
  {
  }

  /**
   Whatever fragments a batch of single-packet requests travels in, the receiver rebuilds every entry:
   metadata, length, sender, request id and payload.
   */
  lemma RoundTrip(h: AeHeader, es: seq<Entry>, pkts: seq<Packet>, rid: uint16)
    requires h.count == |es| && forall i :: 0 <= i < |es| ==> SinglePacket(es[i])
    requires Framed(pkts, HeaderImage(h) + Records(es), RaftReq, FixedRoute, rid)
    ensures ParseMessage(Payload(pkts)) == Some((h, AllRestored(es)))
  {
    HeaderFields(h, Records(es));
    BodyFollows(HeaderImage(h), es);
  }

  // ----- the reader at work -----

  /** Reading exactly size bytes, or failing the assertion after the read. */
  method ReadExactly(r: GBufferReader, size: nat) returns (got: Option<seq<byte>>)
    requires r.Valid() && r.cur < |r.chain|
    modifies r
    ensures r.Valid() && old(r.Pos()) <= |Concat(r.chain)|
    ensures got.None? <==> old(r.Pos()) + size > |Concat(r.chain)|
    ensures got.Some? ==> r.cur < |r.chain| && r.Pos() == old(r.Pos()) + size
                          && got.value == Concat(r.chain)[old(r.Pos())..r.Pos()]
  {
    PositionInStream(r.chain, r.At());
    var b := r.Read(size);
    got := if |b| == size then Some(b) else None;
  }

  /** One turn of msg_to_entries. */
  method MsgToEntry(r: GBufferReader) returns (e: Option<Received>)
    requires r.Valid() && r.cur < |r.chain|
    modifies r
    ensures r.Valid() && e == ParseOne(Concat(r.chain), old(r.Pos()))
    ensures e.Some? ==> r.cur < |r.chain| && r.Pos() == old(r.Pos()) + ENTRY_SIZE + MSG_SIZE + e.value.len
  {
    ghost var s, pos := Concat(r.chain), r.Pos();
    var image := ReadExactly(r, ENTRY_SIZE);
    if image.None? { return None; }
    var msg := ReadExactly(r, MSG_SIZE);
    if msg.None? { return None; }
    e := ReadPayload(r, image.value, msg.value, s, pos);
  }

  /** The packet of a record whose two images have been read. */
  method ReadPayload(r: GBufferReader, image: seq<byte>, msg: seq<byte>, ghost s: seq<byte>, ghost pos: nat)
    returns (e: Option<Received>)
    requires r.Valid() && r.cur < |r.chain| && Concat(r.chain) == s
    requires r.Pos() == pos + ENTRY_SIZE + MSG_SIZE <= |s|
    requires image == s[pos..pos + ENTRY_SIZE] && msg == s[pos + ENTRY_SIZE..pos + ENTRY_SIZE + MSG_SIZE]
    modifies r
    ensures r.Valid() && e == ParseOne(s, pos)
    ensures e.Some? ==> r.cur < |r.chain| && r.Pos() == pos + ENTRY_SIZE + MSG_SIZE + e.value.len
  {
    var header := ReadExactly(r, HEADER_SIZE);
    if header.None? { return None; }
    var len := FromLittle(image[META_SIZE + HIDDEN_SIZE..META_SIZE + HIDDEN_SIZE + 4]);
    if header.value[0] != MAGIC || !HasLastFlag(header.value) || len < HEADER_SIZE { return None; }
    var body := ReadExactly(r, len - HEADER_SIZE);
    if body.None? { return None; }
    Joined(s, pos + ENTRY_SIZE + MSG_SIZE, HEADER_SIZE, len);
    e := Some(Received(image[..META_SIZE], len, msg[..SENDER_SIZE], msg[SENDER_SIZE..SENDER_SIZE + 2],
                       header.value + body.value));
  }

  lemma Joined<T>(s: seq<T>, at: nat, i: nat, j: nat)
    requires at + i <= at + j <= |s|
    ensures s[at..at + i] + s[at + i..at + j] == s[at..at + j]
  {
  }

  ghost function After(done: seq<Received>, rest: Option<seq<Received>>): Option<seq<Received>> {
    if rest.None? then None else Some(done + rest.value)
  }

  lemma AfterNothing(rest: Option<seq<Received>>)
    ensures After([], rest) == rest
  {
    if rest.Some? {
      assert [] + rest.value == rest.value;
    }
  }

  lemma AfterStep(done: seq<Received>, s: seq<byte>, pos: nat, count: nat)
    requires count > 0
    ensures var e := ParseOne(s, pos);
            After(done, Parse(s, pos, count)) ==
            if e.None? then None
            else After(done + [e.value], Parse(s, pos + ENTRY_SIZE + MSG_SIZE + e.value.len, count - 1))
  {
    var e := ParseOne(s, pos);
    if e.Some? {
      var rest := Parse(s, pos + ENTRY_SIZE + MSG_SIZE + e.value.len, count - 1);
      if rest.Some? {
        Associate(done, [e.value], rest.value);
      }
    }
  }

  /** The whole result is what was done and then left more entries from pos on. */
  ghost predicate SoFar(s: seq<byte>, whole: Option<seq<Received>>, done: seq<Received>, pos: nat, left: nat) {
    forall m {:trigger About(m)} :: m == left ==> whole == After(done, Parse(s, pos, m))
  }

  lemma SoFarStart(s: seq<byte>, from: nat, count: nat)
    ensures SoFar(s, Parse(s, from, count), [], from, count)
  {
    AfterNothing(Parse(s, from, count));
  }

  lemma SoFarStep(s: seq<byte>, whole: Option<seq<Received>>, done: seq<Received>, pos: nat, left: nat)
    requires SoFar(s, whole, done, pos, left) && left > 0
    ensures var e := ParseOne(s, pos);
            if e.None? then whole == None
            else SoFar(s, whole, done + [e.value], pos + ENTRY_SIZE + MSG_SIZE + e.value.len, left - 1)
  {
    assert About(left);
    AfterStep(done, s, pos, left);
  }

  lemma SoFarEnd(s: seq<byte>, whole: Option<seq<Received>>, done: seq<Received>, pos: nat)
    requires SoFar(s, whole, done, pos, 0)
    ensures whole == Some(done)
  {
    var left: nat := 0;
    assert About(left);
    assert done + [] == done;
  }

  method MsgToEntries(r: GBufferReader, count: nat) returns (es: Option<seq<Received>>)
    requires r.Valid() && r.cur < |r.chain|
    modifies r
    ensures r.Valid() && es == Parse(Concat(r.chain), old(r.Pos()), count)
  {
    var all: seq<Received> := [];
    ghost var s := Concat(r.chain);
    ghost var whole := Parse(s, r.Pos(), count);
    SoFarStart(s, r.Pos(), count);
    for i := 0 to count
      invariant r.Valid() && r.cur < |r.chain| && SoFar(s, whole, all, r.Pos(), count - i)
    {
      ghost var at := r.Pos();
      var e := MsgToEntry(r);
      SoFarStep(s, whole, all, at, count - i);
      if e.None? { return None; }
      all := all + [e.value];
    }
    SoFarEnd(s, whole, all, r.Pos());
    es := Some(all);
  }

  /** The append-entries branch of raft_process, from packets to entries. */
  method ReceiveAppendEntries(pkts: seq<Packet>) returns (m: Option<(AeHeader, seq<Received>)>)
    requires pkts != []
    ensures m == ParseMessage(Payload(pkts))
  {
    var r := new GBufferReader(Bodies(pkts));
    var b := ReadExactly(r, AE_HEADER_SIZE);
    if b.None? { return None; }
    var s := b.value;
    var h := AeHeader(s[0], s[1], s[2], FromBig(s[3..7]), s[7], FromBig(s[8..12]), FromBig(s[12..16]));
    var es := MsgToEntries(r, h.count);
    m := if es.None? then None else Some((h, es.value));
  }
}
