/** Cutting a list of iovecs into packets (r2p2_prepare_msg). */
module Framing {
  import opened Wire

  /** A buffer under construction: the bytes written after the header and the recorded payload size. */
  datatype Buffer = Buffer(header: Header, data: seq<byte>, size: nat)

  /** What leaves the machine: the recorded size decides how many written bytes are sent. */
  function Sent(b: Buffer): Packet
    requires HEADER_SIZE <= b.size <= HEADER_SIZE + |b.data|
  {
    Packet(b.header, b.data[..b.size - HEADER_SIZE])
  }

  function Data(chain: seq<Buffer>): seq<seq<byte>> {
    seq(|chain|, i requires 0 <= i < |chain| => chain[i].data)
  }

  /** Room in packet k: only the first packet of a multi-packet request is small. */
  function Capacity(k: nat, small: bool): nat {
    if k == 0 && small then MIN_PAYLOAD_SIZE else PAYLOAD_SIZE
  }

  /** Bytes held by the first n packets when all of them are full. */
  function FullBytes(n: nat, small: bool): nat {
    if n == 0 then 0 else Capacity(0, small) + (n - 1) * PAYLOAD_SIZE
  }

  /** A total that ends exactly on a packet boundary. */
  predicate Exact(total: nat, small: bool) {
    if small then total >= MIN_PAYLOAD_SIZE && (total - MIN_PAYLOAD_SIZE) % PAYLOAD_SIZE == 0
    else total > 0 && total % PAYLOAD_SIZE == 0
  }

  predicate SmallFirst(total: nat, typ: MsgType) {
    typ == Request && total > PAYLOAD_SIZE
  }

  /** Packets needed for a message: the small first packet costs a multi-packet request one of its own. */
  function PacketCount(total: nat, typ: MsgType): nat {
    if total <= PAYLOAD_SIZE then 1
    else if typ == Request then 1 + (total - MIN_PAYLOAD_SIZE + PAYLOAD_SIZE - 1) / PAYLOAD_SIZE
    else (total + PAYLOAD_SIZE - 1) / PAYLOAD_SIZE
  }

  /** An iovec list whose last element is empty and whose bytes fill their packets exactly. */
  predicate TrailingEmpty(iov: seq<seq<byte>>, typ: MsgType)
    requires iov != []
  {
    var total := |Concat(iov)|;
    iov[|iov| - 1] == [] && Exact(total, SmallFirst(total, typ))
  }

  predicate HeaderOk(h: Header, k: nat, n: nat, typ: MsgType, policy: Policy, rid: uint16)
    requires k < n
  {
    h == Header(typ, policy, k == 0, k == n - 1, rid, (if k == 0 then n else k) % 0x1_0000)
  }

  /** The promise of the wire format for one message. */
  ghost predicate Framed(pkts: seq<Packet>, payload: seq<byte>, typ: MsgType, policy: Policy, rid: uint16) {
    var n, small := |pkts|, SmallFirst(|payload|, typ);
    && n > 0
    && Payload(pkts) == payload
    && (forall k :: 0 <= k < n ==> HeaderOk(pkts[k].header, k, n, typ, policy, rid))
    && (forall k :: 0 <= k < n - 1 ==> |pkts[k].body| == Capacity(k, small))
    && |pkts[n - 1].body| <= Capacity(n - 1, small)
  }

  // ----- the loop of r2p2_prepare_msg -----

  ghost predicate Shape(chain: seq<Buffer>, small: bool, left: nat, typ: MsgType, policy: Policy, rid: uint16) {
    var n := |chain|;
    && (n == 0 ==> left == 0)
    && (n > 0 ==> left <= Capacity(n - 1, small) && |chain[n - 1].data| == Capacity(n - 1, small) - left)
    && (forall k :: 0 <= k < n ==> chain[k].header == Header(typ, policy, false, false, rid, k % 0x1_0000))
    && (forall k :: 0 <= k < n - 1 ==> |chain[k].data| == Capacity(k, small))
    && (forall k :: 0 <= k < n - 1 ==> chain[k].size == HEADER_SIZE + |chain[k].data|)
  }

  /** Full packets up to the last one account for all bytes. */
  lemma {:induction false} ChainBytes(parts: seq<seq<byte>>, small: bool)
    requires forall k :: 0 <= k < |parts| - 1 ==> |parts[k]| == Capacity(k, small)
    ensures parts != [] ==>
              |Concat(parts)| == FullBytes(|parts| - 1, small) + |parts[|parts| - 1]|
  {
    var n := |parts|;
    if n == 1 {
      assert Concat(parts) == parts[0] + Concat([]);
    } else if n > 1 {
      var init := parts[..n - 1];
      ChainBytes(init, small);
      assert parts == init + [parts[n - 1]];
      ConcatSnoc(init, parts[n - 1]);
    }
  }

  lemma ExactIsFull(total: nat, n: nat, small: bool)
    requires total == FullBytes(n, small)
    ensures Exact(total, small) <==> n > 0
  {
    if n > 0 && !small {
      assert total == n * PAYLOAD_SIZE;
    }
  }

  lemma Remainder(q: nat, r: nat)
    requires r < PAYLOAD_SIZE
    ensures (q * PAYLOAD_SIZE + r) % PAYLOAD_SIZE == r
  {
  }

  /** Strictly inside packet n the total is not on a boundary. */
  lemma InsideIsNotExact(total: nat, n: nat, rest: nat, small: bool)
    requires total == FullBytes(n, small) + rest && 0 < rest < Capacity(n, small)
    ensures !Exact(total, small)
  {
    if small && n > 0 {
      Remainder(n - 1, rest);
    } else if !small {
      assert FullBytes(n, small) == n * PAYLOAD_SIZE;
      Remainder(n, rest);
    }
  }

  /** The single-packet test: sum the lengths until the sum exceeds one payload. */
  method FitsOnePacket(iov: seq<seq<byte>>) returns (single: bool)
    ensures single <==> |Concat(iov)| <= PAYLOAD_SIZE
  {
    var total := 0;
    single := true;
    var i := 0;
    assert iov[..|iov|] == iov;
    while i < |iov|
      invariant 0 <= i <= |iov| && single
      invariant total == |Concat(iov[..i])| <= PAYLOAD_SIZE
    {
      total := total + |iov[i]|;
      assert iov[..i + 1] == iov[..i] + [iov[i]];
      ConcatSnoc(iov[..i], iov[i]);
      if total > PAYLOAD_SIZE {
        assert iov == iov[..i + 1] + iov[i + 1..];
        ConcatAppend(iov[..i + 1], iov[i + 1..]);
        return false;
      }
      i := i + 1;
    }
  }

  /** Bytes copied so far: whole iovecs before `idx` and `copied` bytes of the current one. */
  ghost function Consumed(iov: seq<seq<byte>>, idx: nat, copied: nat): seq<byte>
    requires idx <= |iov|
    requires idx < |iov| ==> copied <= |iov[idx]|
  {
    Concat(iov[..idx]) + if idx < |iov| then iov[idx][..copied] else []
  }

  lemma ConsumedNext(iov: seq<seq<byte>>, idx: nat)
    requires idx < |iov|
    ensures Consumed(iov, idx, |iov[idx]|) == Concat(iov[..idx + 1])
  {
    assert iov[..idx + 1] == iov[..idx] + [iov[idx]];
    ConcatSnoc(iov[..idx], iov[idx]);
  }

  lemma ConsumedMore(iov: seq<seq<byte>>, idx: nat, copied: nat, n: nat)
    requires idx < |iov| && copied + n <= |iov[idx]|
    ensures Consumed(iov, idx, copied) + iov[idx][copied..copied + n] == Consumed(iov, idx, copied + n)
  {
    assert iov[idx][..copied] + iov[idx][copied..copied + n] == iov[idx][..copied + n];
  }

  /** Writing into the newest buffer extends the chain's bytes at their end. */
  lemma WriteLast(chain: seq<Buffer>, chain': seq<Buffer>, x: seq<byte>)
    requires |chain| == |chain'| > 0
    requires chain[..|chain| - 1] == chain'[..|chain| - 1]
    requires chain'[|chain| - 1].data == chain[|chain| - 1].data + x
    ensures Concat(Data(chain')) == Concat(Data(chain)) + x
  {
    var m := |chain| - 1;
    var init := Data(chain[..m]);
    assert Data(chain) == init + [chain[m].data];
    assert Data(chain') == init + [chain'[m].data];
    ConcatSnoc(init, chain[m].data);
    ConcatSnoc(init, chain'[m].data);
  }

  /** Opening an empty buffer, or resizing one, leaves the bytes alone. */
  lemma OpenBuffer(chain: seq<Buffer>, chain': seq<Buffer>)
    requires |chain'| == |chain| + 1 && chain'[|chain|].data == []
    requires Data(chain'[..|chain|]) == Data(chain)
    ensures Concat(Data(chain')) == Concat(Data(chain))
  {
    assert Data(chain') == Data(chain) + [[]];
    ConcatSnoc(Data(chain), []);
  }

  /** Closing the previous buffer at its full size and chaining a fresh one. */
  method NextBuffer(chain: seq<Buffer>, isFirst: bool, small: bool, typ: MsgType, policy: Policy, rid: uint16)
    returns (chain': seq<Buffer>, isFirst': bool, left: nat)
    requires Shape(chain, small, 0, typ, policy, rid)
    requires isFirst == !(small && |chain| >= 2)
    ensures |chain'| == |chain| + 1 && left == Capacity(|chain|, small) > 0
    ensures isFirst' == !(small && |chain'| >= 2)
    ensures Shape(chain', small, left, typ, policy, rid)
    ensures Concat(Data(chain')) == Concat(Data(chain))
  {
    chain', isFirst' := chain, isFirst;
    if chain != [] {
      var m := |chain| - 1;
      if isFirst && small {
        chain' := chain[m := chain[m].(size := MIN_PAYLOAD_SIZE + HEADER_SIZE)];
        isFirst' := false;
      } else {
        chain' := chain[m := chain[m].(size := PAYLOAD_SIZE + HEADER_SIZE)];
      }
    }
    assert Data(chain') == Data(chain);
    chain' := chain' + [Buffer(Header(typ, policy, false, false, rid, |chain| % 0x1_0000), [], 0)];
    left := if isFirst' && small then MIN_PAYLOAD_SIZE else PAYLOAD_SIZE;
    assert Data(chain'[..|chain|]) == Data(chain);
    OpenBuffer(chain, chain');
  }

  /** Appending bytes to the newest buffer. */
  method Copy(chain: seq<Buffer>, left: nat, x: seq<byte>, small: bool, typ: MsgType, policy: Policy, rid: uint16)
    returns (chain': seq<Buffer>)
    requires chain != [] && Shape(chain, small, left, typ, policy, rid) && |x| <= left
    ensures |chain'| == |chain| && Shape(chain', small, left - |x|, typ, policy, rid)
    ensures chain'[|chain| - 1].data == chain[|chain| - 1].data + x
    ensures Concat(Data(chain')) == Concat(Data(chain)) + x
  {
    var m := |chain| - 1;
    chain' := chain[m := chain[m].(data := chain[m].data + x)];
    WriteLast(chain, chain', x);
  }

  /** The newest buffer is empty exactly when the bytes so far end on a boundary behind an empty iovec. */
  ghost predicate NewestEmptyOk(iov: seq<seq<byte>>, idx: nat, copied: nat, chain: seq<Buffer>, left: nat)
    requires idx <= |iov|
  {
    && (chain == [] ==> idx == 0)
    && (chain != [] && chain[|chain| - 1].data == [] ==> idx > 0 && copied == 0 && iov[idx - 1] == [])
    && (idx > 0 && copied == 0 && iov[idx - 1] == [] ==> left > 0)
  }

  /** One round of the copy loop: as many bytes of the current iovec as fit. */
  method CopyRound(iov: seq<seq<byte>>, idx: nat, copied: nat, chain: seq<Buffer>, left: nat, small: bool,
                   typ: MsgType, policy: Policy, rid: uint16)
    returns (idx': nat, copied': nat, chain': seq<Buffer>, left': nat)
    requires idx < |iov| && (copied > 0 ==> copied < |iov[idx]|)
    requires left > 0 && chain != [] && Shape(chain, small, left, typ, policy, rid)
    requires Concat(Data(chain)) == Consumed(iov, idx, copied)
    ensures idx <= idx' <= |iov| && (copied' > 0 ==> idx' < |iov| && copied' < |iov[idx']|)
    ensures |chain'| == |chain| && Shape(chain', small, left', typ, policy, rid)
    ensures Concat(Data(chain')) == Consumed(iov, idx', copied')
    ensures NewestEmptyOk(iov, idx', copied', chain', left')
    ensures idx' > idx || copied' > copied
  {
    var toCopy := if left < |iov[idx]| - copied then left else |iov[idx]| - copied;
    ConsumedMore(iov, idx, copied, toCopy);
    chain' := Copy(chain, left, iov[idx][copied..copied + toCopy], small, typ, policy, rid);
    idx', copied', left' := idx, copied + toCopy, left - toCopy;
    if copied' == |iov[idx]| {
      ConsumedNext(iov, idx);
      idx', copied' := idx + 1, 0;
    }
  }

  method Fill(iov: seq<seq<byte>>, small: bool, typ: MsgType, policy: Policy, rid: uint16)
    returns (chain: seq<Buffer>, left: nat)
    requires iov != []
    ensures chain != [] && Shape(chain, small, left, typ, policy, rid)
    ensures Concat(Data(chain)) == Concat(iov) && NewestEmptyOk(iov, |iov|, 0, chain, left)
  {
    var idx: nat, copied: nat, isFirst := 0, 0, true;
    chain, left := [], 0;
    while idx < |iov|
      invariant idx <= |iov| && (copied > 0 ==> idx < |iov| && copied < |iov[idx]|)
      invariant isFirst == !(small && |chain| >= 2)
      invariant Shape(chain, small, left, typ, policy, rid)
      invariant Concat(Data(chain)) == Consumed(iov, idx, copied)
      invariant NewestEmptyOk(iov, idx, copied, chain, left)
      decreases |iov| - idx, if idx < |iov| then |iov[idx]| - copied else 0
    {
      if left == 0 {
        chain, isFirst, left := NextBuffer(chain, isFirst, small, typ, policy, rid);
      }
      idx, copied, chain, left := CopyRound(iov, idx, copied, chain, left, small, typ, policy, rid);
    }
    assert iov[..|iov|] == iov;
  }

  /** The advertised number of packets is met unless an empty iovec trails an exactly filled message. */
  method PrepareMsg(iov: seq<seq<byte>>, typ: MsgType, policy: Policy, rid: uint16) returns (pkts: seq<Packet>)
    requires iov != []
    ensures Framed(pkts, Concat(iov), typ, policy, rid)
    ensures |pkts| == PacketCount(|Concat(iov)|, typ) + if TrailingEmpty(iov, typ) then 1 else 0
    ensures pkts[|pkts| - 1].body == [] <==> Concat(iov) == [] || TrailingEmpty(iov, typ)
  {
    var single := FitsOnePacket(iov);
    var small := !single && typ == Request;
    var chain, left := Fill(iov, small, typ, policy, rid);
    pkts := Seal(chain, small, left, typ, policy, rid);
    FinalEmptiness(iov, chain, pkts, small, left, typ, policy, rid);
    FramedCount(pkts, Concat(iov), typ, policy, rid);
  }

  /** Sizing the last buffer, which is never a small first one. */
  method SizeLast(chain: seq<Buffer>, small: bool, left: nat, typ: MsgType, policy: Policy, rid: uint16)
    returns (out: seq<Buffer>)
    requires chain != [] && Shape(chain, small, left, typ, policy, rid) && (small ==> |chain| >= 2)
    ensures |out| == |chain|
    ensures forall k :: 0 <= k < |chain| ==>
              out[k] == Buffer(chain[k].header, chain[k].data, HEADER_SIZE + |chain[k].data|)
  {
    var m := |chain| - 1;
    out := chain[m := chain[m].(size := PAYLOAD_SIZE + HEADER_SIZE - left)];
  }

  /** Marking the first and last headers; the first carries the packet count. */
  method MarkEnds(chain: seq<Buffer>, typ: MsgType, policy: Policy, rid: uint16) returns (out: seq<Buffer>)
    requires chain != []
    requires forall k :: 0 <= k < |chain| ==> chain[k].header == Header(typ, policy, false, false, rid, k % 0x1_0000)
    ensures |out| == |chain|
    ensures forall k :: 0 <= k < |chain| ==> out[k].data == chain[k].data && out[k].size == chain[k].size
    ensures forall k :: 0 <= k < |chain| ==> HeaderOk(out[k].header, k, |chain|, typ, policy, rid)
  {
    var n := |chain|;
    out := chain[0 := chain[0].(header := chain[0].header.(first := true, order := n % 0x1_0000))];
    out := out[n - 1 := out[n - 1].(header := out[n - 1].header.(last := true))];
  }

  method Seal(chain: seq<Buffer>, small: bool, left: nat, typ: MsgType, policy: Policy, rid: uint16)
    returns (pkts: seq<Packet>)
    requires chain != [] && Shape(chain, small, left, typ, policy, rid)
    requires small <==> SmallFirst(|Concat(Data(chain))|, typ)
    ensures Framed(pkts, Concat(Data(chain)), typ, policy, rid)
    ensures |pkts| == |chain| && Bodies(pkts) == Data(chain)
  {
    var n := |chain|;
    assert small ==> n >= 2 by {
      ChainBytes(Data(chain), small);
    }
    var out := SizeLast(chain, small, left, typ, policy, rid);
    out := MarkEnds(out, typ, policy, rid);
    pkts := AllSent(out);
    SealedIsFramed(chain, pkts, small, left, typ, policy, rid);
  }

  /** The packets of buffers that are all sized to what was written. */
  function AllSent(out: seq<Buffer>): (pkts: seq<Packet>)
    requires forall k :: 0 <= k < |out| ==> out[k].size == HEADER_SIZE + |out[k].data|
    ensures |pkts| == |out| && forall k :: 0 <= k < |out| ==> pkts[k] == Packet(out[k].header, out[k].data)
  {
    seq(|out|, k requires 0 <= k < |out| && out[k].size == HEADER_SIZE + |out[k].data| => Sent(out[k]))
  }

  lemma SealedIsFramed(chain: seq<Buffer>, pkts: seq<Packet>, small: bool, left: nat,
                       typ: MsgType, policy: Policy, rid: uint16)
    requires chain != [] && Shape(chain, small, left, typ, policy, rid) && |pkts| == |chain|
    requires small <==> SmallFirst(|Concat(Data(chain))|, typ)
    requires forall k :: 0 <= k < |pkts| ==> HeaderOk(pkts[k].header, k, |pkts|, typ, policy, rid)
    requires forall k :: 0 <= k < |pkts| ==> pkts[k].body == chain[k].data
    ensures Framed(pkts, Concat(Data(chain)), typ, policy, rid) && Bodies(pkts) == Data(chain)
  {
    assert Bodies(pkts) == Data(chain);
  }

  lemma FinalEmptiness(iov: seq<seq<byte>>, chain: seq<Buffer>, pkts: seq<Packet>, small: bool, left: nat,
                       typ: MsgType, policy: Policy, rid: uint16)
    requires iov != [] && chain != [] && Shape(chain, small, left, typ, policy, rid)
    requires Concat(Data(chain)) == Concat(iov) && NewestEmptyOk(iov, |iov|, 0, chain, left)
    requires small <==> SmallFirst(|Concat(iov)|, typ)
    requires |pkts| == |chain| && Bodies(pkts) == Data(chain)
    ensures pkts[|pkts| - 1].body == [] <==> Concat(iov) == [] || TrailingEmpty(iov, typ)
  {
    var n, total := |chain|, |Concat(iov)|;
    var newest := chain[n - 1].data;
    ChainBytes(Data(chain), small);
    assert Data(chain)[n - 1] == newest == Bodies(pkts)[n - 1];
    if newest == [] {
      ExactIsFull(total, n - 1, small);
    } else if left > 0 {
      InsideIsNotExact(total, n - 1, |newest|, small);
    }
  }

  lemma CeilingDivision(q: nat, r: nat)
    requires r <= PAYLOAD_SIZE
    ensures (q * PAYLOAD_SIZE + r + PAYLOAD_SIZE - 1) / PAYLOAD_SIZE == if r == 0 then q else q + 1
  {
    var x := q * PAYLOAD_SIZE + r + PAYLOAD_SIZE - 1;
    if r == 0 {
      assert x == q * PAYLOAD_SIZE + (PAYLOAD_SIZE - 1);
    } else {
      assert x == (q + 1) * PAYLOAD_SIZE + (r - 1);
    }
  }

  lemma CountArithmetic(n: nat, rest: nat, total: nat, typ: MsgType)
    requires n > 0 && rest <= Capacity(n - 1, SmallFirst(total, typ))
    requires total == FullBytes(n - 1, SmallFirst(total, typ)) + rest
    ensures n == PacketCount(total, typ) + if rest == 0 && total > 0 then 1 else 0
  {
    if SmallFirst(total, typ) {
      assert total - MIN_PAYLOAD_SIZE + PAYLOAD_SIZE - 1 == (n - 2) * PAYLOAD_SIZE + rest + PAYLOAD_SIZE - 1;
      CeilingDivision(n - 2, rest);
    } else if total > PAYLOAD_SIZE {
      assert total + PAYLOAD_SIZE - 1 == (n - 1) * PAYLOAD_SIZE + rest + PAYLOAD_SIZE - 1;
      CeilingDivision(n - 1, rest);
    }
  }

  /** Any framed message has the advertised number of packets, plus one when it ends in an empty packet. */
  lemma FramedCount(pkts: seq<Packet>, payload: seq<byte>, typ: MsgType, policy: Policy, rid: uint16)
    requires Framed(pkts, payload, typ, policy, rid)
    ensures |pkts| == PacketCount(|payload|, typ)
                      + if pkts[|pkts| - 1].body == [] && payload != [] then 1 else 0
  {
    var n, b := |pkts|, Bodies(pkts);
    ChainBytes(b, SmallFirst(|payload|, typ));
    assert b[n - 1] == pkts[n - 1].body;
    CountArithmetic(n, |b[n - 1]|, |payload|, typ);
  }

  /** A full packet's worth of bytes followed by an empty iovec: two packets where one would do. */
  method ExtraPacket(full: seq<byte>, typ: MsgType, policy: Policy, rid: uint16) returns (pkts: seq<Packet>)
    requires |full| == PAYLOAD_SIZE
    ensures PacketCount(|full|, typ) == 1 && |pkts| == 2 && Payload(pkts) == full
  {
    var iov: seq<seq<byte>> := [full, []];
    ConcatSnoc([full], []);
    ConcatSnoc([], full);
    assert [full] + [[]] == iov && [] + [full] == [full] && full + [] == full;
    pkts := PrepareMsg(iov, typ, policy, rid);
  }
}
