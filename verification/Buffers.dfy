/**
 The buffer pool of an endpoint and the chains its buffers are linked into
 (get_buffer, free_buffer, r2p2_msg_add_payload and the freeing loops).
 Taken buffers and chain positions correspond one to one, so nothing leaks, is shared or is freed twice.
 */
module Buffers {
  import opened Collections
  import opened Mempool
  import opened Probing
  import opened Wire

  /** Which message a chain belongs to: the four messages of pairs, a control message, or a buffer just received. */
  datatype ChainId =
    | ClientRequest(pair: int) | ClientReply(pair: int)
    | ServerRequest(pair: int) | ServerReply(pair: int)
    | Scratch | InHand

  /** Every taken buffer is linked once, into the chain that owns it, and chains hold taken buffers only. */
  ghost predicate Linked(taken: set<int>, chains: map<ChainId, seq<int>>, owner: map<int, ChainId>) {
    && owner.Keys == taken
    && (forall b :: b in owner ==> owner[b] in chains && b in chains[owner[b]])
    && (forall c :: c in chains ==> NoDup(chains[c]) && Owns(owner, c, chains[c]))
  }

  ghost predicate Owns(owner: map<int, ChainId>, c: ChainId, chain: seq<int>) {
    forall i :: 0 <= i < |chain| ==> chain[i] in owner && owner[chain[i]] == c
  }

  /** What a chain of buffers holds; a free buffer holds nothing. */
  function Held(bufs: map<int, Packet>, chain: seq<int>): seq<Packet> {
    if chain == [] then []
    else (if chain[0] in bufs then [bufs[chain[0]]] else []) + Held(bufs, chain[1..])
  }

  ghost predicate Agree(bufs: map<int, Packet>, bufs': map<int, Packet>, chain: seq<int>) {
    forall i :: 0 <= i < |chain| ==> chain[i] in bufs && chain[i] in bufs' && bufs[chain[i]] == bufs'[chain[i]]
  }

  lemma {:induction false} HeldSame(bufs: map<int, Packet>, bufs': map<int, Packet>, chain: seq<int>)
    requires Agree(bufs, bufs', chain)
    ensures Held(bufs, chain) == Held(bufs', chain) && |Held(bufs, chain)| == |chain|
  {
    if chain != [] {
      HeldSame(bufs, bufs', chain[1..]);
    }
  }

  lemma {:induction false} HeldSnoc(bufs: map<int, Packet>, chain: seq<int>, b: int)
    requires b in bufs
    ensures Held(bufs, chain + [b]) == Held(bufs, chain) + [bufs[b]]
  {
    if chain == [] {
      assert chain + [b] == [b];
      assert Held(bufs, [b]) == [bufs[b]] + Held(bufs, []);
    } else {
      HeldSnoc(bufs, chain[1..], b);
      assert (chain + [b])[1..] == chain[1..] + [b];
    }
  }

  /** The packets of every message. */
  ghost function Messages(bufs: map<int, Packet>, chains: map<ChainId, seq<int>>): map<ChainId, seq<Packet>> {
    map c | c in chains :: Held(bufs, chains[c])
  }

  lemma LinkedOpen(taken: set<int>, chains: map<ChainId, seq<int>>, owner: map<int, ChainId>, c: ChainId)
    requires Linked(taken, chains, owner) && c !in chains
    ensures Linked(taken, chains[c := []], owner)
  {
  }

  lemma LinkedAppend(taken: set<int>, chains: map<ChainId, seq<int>>, owner: map<int, ChainId>, c: ChainId, b: int)
    requires Linked(taken, chains, owner) && c in chains && b !in taken
    ensures Linked(taken + {b}, chains[c := chains[c] + [b]], owner[b := c])
  {
    assert Owns(owner, c, chains[c]);
  }

  lemma LinkedFree(taken: set<int>, chains: map<ChainId, seq<int>>, owner: map<int, ChainId>, c: ChainId,
                   rest: set<int>)
    requires Linked(taken, chains, owner) && c in chains
    requires forall b :: b in rest <==> b in taken && b !in chains[c]
    ensures Linked(rest, chains - {c}, map b | b in owner && b in rest :: owner[b])
  {
    var owner' := map b | b in owner && b in rest :: owner[b];
    assert forall b :: b in rest ==> b in owner && b in owner'.Keys;
    assert owner'.Keys == rest;
    assert Owns(owner, c, chains[c]);
    forall d | d in chains - {c}
      ensures Owns(owner', d, chains[d])
    {
      assert Owns(owner, d, chains[d]);
    }
  }

  lemma LinkedMove(taken: set<int>, chains: map<ChainId, seq<int>>, owner: map<int, ChainId>, c: ChainId, b: int)
    requires Linked(taken, chains, owner) && c in chains && c != InHand
    requires InHand in chains && chains[InHand] == [b]
    ensures Linked(taken, (chains - {InHand})[c := chains[c] + [b]], owner[b := c])
  {
    assert Owns(owner, InHand, chains[InHand]) && Owns(owner, c, chains[c]);
    assert chains[InHand][0] == b && owner[b] == InHand;
    assert forall x :: x in owner && owner[x] == InHand ==> x in [b];
    forall d | d in chains && d != c && d != InHand
      ensures Owns(owner[b := c], d, chains[d])
    {
      assert Owns(owner, d, chains[d]);
    }
  }

  /** Buffers outside the surviving chains do not matter to their messages. */
  lemma MessagesSame(bufs: map<int, Packet>, bufs': map<int, Packet>, chains: map<ChainId, seq<int>>)
    requires forall c :: c in chains ==> Agree(bufs, bufs', chains[c])
    ensures Messages(bufs, chains) == Messages(bufs', chains)
  {
    forall c | c in chains
      ensures Held(bufs, chains[c]) == Held(bufs', chains[c])
    {
      HeldSame(bufs, bufs', chains[c]);
    }
  }

  lemma AgreeOnChains(taken: set<int>, chains: map<ChainId, seq<int>>, owner: map<int, ChainId>,
                      bufs: map<int, Packet>, bufs': map<int, Packet>)
    requires Linked(taken, chains, owner)
    requires forall b :: b in taken ==> b in bufs && b in bufs' && bufs[b] == bufs'[b]
    ensures forall c :: c in chains ==> Agree(bufs, bufs', chains[c])
  {
    forall c | c in chains
      ensures Agree(bufs, bufs', chains[c])
    {
      assert Owns(owner, c, chains[c]);
    }
  }

  lemma MessagesAppend(bufs: map<int, Packet>, chains: map<ChainId, seq<int>>, c: ChainId, b: int)
    requires c in chains && b in bufs
    ensures Messages(bufs, chains[c := chains[c] + [b]])
         == Messages(bufs, chains)[c := Messages(bufs, chains)[c] + [bufs[b]]]
  {
    HeldSnoc(bufs, chains[c], b);
  }

  lemma MessagesFree(bufs: map<int, Packet>, chains: map<ChainId, seq<int>>, c: ChainId)
    ensures Messages(bufs, chains - {c}) == Messages(bufs, chains) - {c}
  {
  }

  /** A buffer pool, its chains, and the messages they amount to. */
  datatype Store = Store(
    bufs: map<int, Packet>, chains: map<ChainId, seq<int>>, owner: map<int, ChainId>, msgs: map<ChainId, seq<Packet>>)

  ghost predicate Sound(s: Store) {
    && Linked(s.bufs.Keys, s.chains, s.owner)
    && |s.bufs| <= BUFPOOL_SIZE
    && s.msgs == Messages(s.bufs, s.chains)
  }

  ghost predicate SoundQuietly(s: Store) {
    forall x {:trigger About(x)} :: x == s ==> Sound(x)
  }

  lemma QuietIsSound(s: Store)
    ensures SoundQuietly(s) <==> Sound(s)
  {
    assert About(s);
  }

  lemma SoundOpen(s: Store, c: ChainId)
    requires SoundQuietly(s) && c !in s.msgs
    ensures SoundQuietly(s.(chains := s.chains[c := []], msgs := s.msgs[c := []]))
  {
    QuietIsSound(s);
    QuietIsSound(s.(chains := s.chains[c := []], msgs := s.msgs[c := []]));
    LinkedOpen(s.bufs.Keys, s.chains, s.owner, c);
    assert Messages(s.bufs, s.chains[c := []]) == Messages(s.bufs, s.chains)[c := []];
  }

  /** The store after buffer b, holding p, joined the message of c. */
  function Appended(s: Store, c: ChainId, b: int, p: Packet): Store
    requires c in s.chains && c in s.msgs
  {
    Store(s.bufs[b := p], s.chains[c := s.chains[c] + [b]], s.owner[b := c], s.msgs[c := s.msgs[c] + [p]])
  }

  lemma SoundAppend(s: Store, c: ChainId, b: int, p: Packet)
    requires SoundQuietly(s) && c in s.msgs && b !in s.bufs && |s.bufs| < BUFPOOL_SIZE
    ensures c in s.chains
    ensures SoundQuietly(Appended(s, c, b, p))
  {
    QuietIsSound(s);
    var bufs' := s.bufs[b := p];
    LinkedAppend(s.bufs.Keys, s.chains, s.owner, c, b);
    AgreeOnChains(s.bufs.Keys, s.chains, s.owner, s.bufs, bufs');
    MessagesSame(s.bufs, bufs', s.chains);
    MessagesAppend(bufs', s.chains, c, b);
    assert bufs'.Keys == s.bufs.Keys + {b};
    QuietIsSound(Store(bufs', s.chains[c := s.chains[c] + [b]], s.owner[b := c], s.msgs[c := s.msgs[c] + [p]]));
  }

  lemma ChainFacts(s: Store, c: ChainId)
    requires SoundQuietly(s) && c in s.msgs
    ensures c in s.chains && NoDup(s.chains[c]) && |s.msgs[c]| == |s.chains[c]|
    ensures forall i :: 0 <= i < |s.chains[c]| ==> s.chains[c][i] in s.bufs
    ensures s.msgs[c] == Held(s.bufs, s.chains[c])
  {
    QuietIsSound(s);
    assert NoDup(s.chains[c]) && Owns(s.owner, c, s.chains[c]);
    HeldSame(s.bufs, s.bufs, s.chains[c]);
  }

  lemma SoundFree(s: Store, c: ChainId, bufs': map<int, Packet>)
    requires SoundQuietly(s) && c in s.msgs && c in s.chains
    requires forall b :: b in bufs' <==> b in s.bufs && b !in s.chains[c]
    requires forall b :: b in bufs' ==> bufs'[b] == s.bufs[b]
    requires |bufs'| <= |s.bufs|
    ensures SoundQuietly(Store(bufs', s.chains - {c}, map b | b in s.owner && b in bufs' :: s.owner[b], s.msgs - {c}))
  {
    var s' := Store(bufs', s.chains - {c}, map b | b in s.owner && b in bufs' :: s.owner[b], s.msgs - {c});
    assert Linked(bufs'.Keys, s'.chains, s'.owner) by {
      QuietIsSound(s);
      LinkedFree(s.bufs.Keys, s.chains, s.owner, c, bufs'.Keys);
    }
    assert s'.msgs == Messages(bufs', s'.chains) by {
      QuietIsSound(s);
      MessagesFree(s.bufs, s.chains, c);
      AgreeOnChains(bufs'.Keys, s'.chains, s'.owner, s.bufs, bufs');
      MessagesSame(s.bufs, bufs', s'.chains);
    }
    assert |bufs'| <= BUFPOOL_SIZE by {
      QuietIsSound(s);
    }
    QuietIsSound(s');
  }

  /** The store after the buffer in hand joined the message of c. */
  function HandLinked(s: Store, c: ChainId): Store
    requires c in s.chains && c in s.msgs && InHand in s.chains && InHand in s.msgs && |s.chains[InHand]| == 1
  {
    var gb := s.chains[InHand][0];
    Store(s.bufs, (s.chains - {InHand})[c := s.chains[c] + [gb]], s.owner[gb := c],
          (s.msgs - {InHand})[c := s.msgs[c] + s.msgs[InHand]])
  }

  lemma SoundLink(s: Store, c: ChainId)
    requires SoundQuietly(s) && c in s.msgs && InHand in s.msgs && |s.msgs[InHand]| == 1 && c != InHand
    ensures c in s.chains && InHand in s.chains && |s.chains[InHand]| == 1
    ensures SoundQuietly(HandLinked(s, c))
  {
    ChainFacts(s, c);
    ChainFacts(s, InHand);
    QuietIsSound(s);
    var gb := s.chains[InHand][0];
    assert s.chains[InHand] == [gb];
    LinkedMove(s.bufs.Keys, s.chains, s.owner, c, gb);
    assert s.msgs[InHand] == Held(s.bufs, [gb]) == [s.bufs[gb]] + Held(s.bufs, []) == [s.bufs[gb]];
    MessagesFree(s.bufs, s.chains, InHand);
    MessagesAppend(s.bufs, s.chains - {InHand}, c, gb);
    QuietIsSound(Store(s.bufs, (s.chains - {InHand})[c := s.chains[c] + [gb]], s.owner[gb := c],
                       (s.msgs - {InHand})[c := s.msgs[c] + s.msgs[InHand]]));
  }

  // ----- how chains lie in memory -----

  const NIL := -1

  /** A buffer: its packet and its next pointer. */
  datatype Buf = Buf(pkt: Packet, next: int)

  /** The head_buffer and tail_buffer of a message. */
  datatype Ends = Ends(head: int, tail: int)

  ghost predicate Strand(mem: map<int, Buf>, s: seq<int>, i: int)
    requires 0 <= i < |s|
  {
    s[i] >= 0 && s[i] in mem && mem[s[i]].next == if i + 1 < |s| then s[i + 1] else NIL
  }

  /** Following the next pointers from s[0] on yields s and ends. */
  ghost predicate Strung(mem: map<int, Buf>, s: seq<int>) {
    forall i {:trigger Strand(mem, s, i)} :: 0 <= i < |s| ==> Strand(mem, s, i)
  }

  function EndsOf(s: seq<int>): Ends {
    if s == [] then Ends(NIL, NIL) else Ends(s[0], s[|s| - 1])
  }

  ghost predicate WiredAt(mem: map<int, Buf>, ends: map<ChainId, Ends>, s: Store, c: ChainId)
    requires c in s.chains
  {
    c in ends && ends[c] == EndsOf(s.chains[c]) && Strung(mem, s.chains[c])
  }

  /** Every message points at the ends of its chain, and taken buffers hold their packets. */
  ghost predicate Wired(mem: map<int, Buf>, ends: map<ChainId, Ends>, s: Store) {
    && ends.Keys == s.chains.Keys
    && (forall c {:trigger WiredAt(mem, ends, s, c)} :: c in s.chains ==> WiredAt(mem, ends, s, c))
    && (forall b :: b in s.bufs ==> b >= 0 && b in mem && mem[b].pkt == s.bufs[b])
  }

  ghost predicate WiredQuietly(mem: map<int, Buf>, ends: map<ChainId, Ends>, s: Store) {
    forall x {:trigger About(x)} :: x == s ==> Wired(mem, ends, x)
  }

  lemma QuietIsWired(mem: map<int, Buf>, ends: map<ChainId, Ends>, s: Store)
    ensures WiredQuietly(mem, ends, s) <==> Wired(mem, ends, s)
  {
    assert About(s);
  }

  /** The memory after r2p2_msg_add_payload puts b behind the tail of a message. */
  function Joined(mem: map<int, Buf>, e: Ends, b: int): map<int, Buf> {
    if e.tail == NIL || e.tail !in mem then mem else mem[e.tail := mem[e.tail].(next := b)]
  }

  lemma StrungOn(mem: map<int, Buf>, s: seq<int>, b: int)
    requires Strung(mem, s) && NoDup(s) && b !in s && b >= 0 && b in mem && mem[b].next == NIL
    ensures Strung(Joined(mem, EndsOf(s), b), s + [b])
  {
    var mem', s' := Joined(mem, EndsOf(s), b), s + [b];
    forall i | 0 <= i < |s'|
      ensures Strand(mem', s', i)
    {
      if i < |s| {
        assert Strand(mem, s, i);
      }
    }
  }

  lemma StrungElsewhere(mem: map<int, Buf>, mem': map<int, Buf>, s: seq<int>)
    requires Strung(mem, s) && forall i :: 0 <= i < |s| && s[i] in mem ==> s[i] in mem' && mem'[s[i]] == mem[s[i]]
    ensures Strung(mem', s)
  {
    forall i | 0 <= i < |s|
      ensures Strand(mem', s, i)
    {
      assert Strand(mem, s, i);
    }
  }

  lemma WiredOpen(mem: map<int, Buf>, ends: map<ChainId, Ends>, s: Store, s': Store, c: ChainId)
    requires WiredQuietly(mem, ends, s) && c !in s.chains && s'.bufs == s.bufs && s'.chains == s.chains[c := []]
    ensures WiredQuietly(mem, ends[c := Ends(NIL, NIL)], s')
  {
    QuietIsWired(mem, ends, s);
    var ends' := ends[c := Ends(NIL, NIL)];
    forall d | d in s'.chains
      ensures WiredAt(mem, ends', s', d)
    {
      assert d != c ==> WiredAt(mem, ends, s, d);
    }
    QuietIsWired(mem, ends', s');
  }

  /** A buffer belongs to one chain only. */
  lemma ApartFrom(s: Store, c: ChainId, d: ChainId, i: int, j: int)
    requires SoundQuietly(s) && c in s.chains && d in s.chains && c != d
    requires 0 <= i < |s.chains[c]| && 0 <= j < |s.chains[d]|
    ensures s.chains[c][i] != s.chains[d][j]
  {
    QuietIsSound(s);
    assert Owns(s.owner, c, s.chains[c]) && Owns(s.owner, d, s.chains[d]);
  }

  /** The ends after a buffer joined at the tail. */
  function Extended(e: Ends, b: int): Ends {
    Ends(if e.tail == NIL then b else e.head, b)
  }

  /** A buffer in no chain joins chain c; the chains s' has are those of s but for that, and maybe without some. */
  lemma WiredJoin(mem: map<int, Buf>, ends: map<ChainId, Ends>, s: Store, s': Store, c: ChainId, b: int)
    requires SoundQuietly(s) && Wired(mem, ends, s)
    requires c in s.chains && c in s'.chains && s'.chains[c] == s.chains[c] + [b]
    requires forall d :: d in s'.chains && d != c ==> d in s.chains && s'.chains[d] == s.chains[d] && b !in s.chains[d]
    requires b !in s.chains[c] && b >= 0 && b in mem && mem[b].next == NIL
    requires forall x :: x in s'.bufs ==> x >= 0 && x in mem && mem[x].pkt == s'.bufs[x]
    ensures var ends' := map d | d in s'.chains :: if d == c then Extended(ends[c], b) else ends[d];
            Wired(Joined(mem, ends[c], b), ends', s')
  {
    assert WiredAt(mem, ends, s, c);
    var mem' := Joined(mem, ends[c], b);
    var ends' := map d | d in s'.chains :: if d == c then Extended(ends[c], b) else ends[d];
    forall d | d in s'.chains
      ensures WiredAt(mem', ends', s', d)
    {
      if d == c {
        InUse(s, c);
        StrungOn(mem, s.chains[c], b);
        assert s.chains[c] != [] ==> Strand(mem, s.chains[c], |s.chains[c]| - 1);
      } else {
        assert WiredAt(mem, ends, s, d);
        forall i | 0 <= i < |s.chains[d]| && s.chains[d][i] in mem
          ensures s.chains[d][i] in mem' && mem'[s.chains[d][i]] == mem[s.chains[d][i]]
        {
          if s.chains[c] != [] {
            ApartFrom(s, c, d, |s.chains[c]| - 1, i);
          }
        }
        StrungElsewhere(mem, mem', s.chains[d]);
      }
    }
  }

  lemma InUse(s: Store, c: ChainId)
    requires SoundQuietly(s) && c in s.chains
    ensures AllIn(s.chains[c], s.bufs.Keys) && NoDup(s.chains[c])
  {
    QuietIsSound(s);
    assert Owns(s.owner, c, s.chains[c]);
  }

  lemma CountBound(s: Store)
    requires SoundQuietly(s)
    ensures |s.bufs| <= BUFPOOL_SIZE
  {
    QuietIsSound(s);
  }

  /** Writing a free buffer disturbs no chain. */
  lemma WiredElsewhere(mem: map<int, Buf>, ends: map<ChainId, Ends>, s: Store, b: int, v: Buf)
    requires SoundQuietly(s) && Wired(mem, ends, s) && b !in s.bufs
    ensures Wired(mem[b := v], ends, s)
  {
    var mem' := mem[b := v];
    forall c | c in s.chains
      ensures WiredAt(mem', ends, s, c)
    {
      assert WiredAt(mem, ends, s, c);
      InUse(s, c);
      StrungElsewhere(mem, mem', s.chains[c]);
    }
  }

  lemma WiredAppend(mem: map<int, Buf>, ends: map<ChainId, Ends>, s: Store, c: ChainId, b: int, p: Packet)
    requires SoundQuietly(s) && WiredQuietly(mem, ends, s) && c in s.msgs && b !in s.bufs && b >= 0
    ensures c in ends && c in s.chains
    ensures WiredQuietly(Joined(mem[b := Buf(p, NIL)], ends[c], b),
                         ends[c := Extended(ends[c], b)], Appended(s, c, b, p))
  {
    ChainFacts(s, c);
    QuietIsWired(mem, ends, s);
    var mem', s' := mem[b := Buf(p, NIL)], Appended(s, c, b, p);
    WiredElsewhere(mem, ends, s, b, Buf(p, NIL));
    forall d | d in s.chains
      ensures b !in s.chains[d]
    {
      InUse(s, d);
    }
    WiredJoin(mem', ends, s, s', c, b);
    assert (map d | d in s'.chains :: if d == c then Extended(ends[c], b) else ends[d])
           == ends[c := Extended(ends[c], b)];
    QuietIsWired(Joined(mem', ends[c], b), ends[c := Extended(ends[c], b)], s');
  }

  lemma WiredLink(mem: map<int, Buf>, ends: map<ChainId, Ends>, s: Store, c: ChainId)
    requires SoundQuietly(s) && WiredQuietly(mem, ends, s)
    requires c in s.msgs && InHand in s.msgs && |s.msgs[InHand]| == 1 && c != InHand
    ensures c in s.chains && InHand in s.chains && |s.chains[InHand]| == 1 && c in ends && InHand in ends
    ensures var gb := s.chains[InHand][0];
            && ends[InHand].head == gb
            && WiredQuietly(Joined(mem, ends[c], gb), (ends - {InHand})[c := Extended(ends[c], gb)], HandLinked(s, c))
  {
    ChainFacts(s, c);
    ChainFacts(s, InHand);
    QuietIsWired(mem, ends, s);
    var gb, s' := s.chains[InHand][0], HandLinked(s, c);
    assert WiredAt(mem, ends, s, InHand) && Strand(mem, s.chains[InHand], 0);
    forall d | d in s.chains && d != InHand
      ensures gb !in s.chains[d]
    {
      forall i | 0 <= i < |s.chains[d]|
        ensures s.chains[d][i] != gb
      {
        ApartFrom(s, InHand, d, 0, i);
      }
    }
    WiredJoin(mem, ends, s, s', c, gb);
    var ends' := (ends - {InHand})[c := Extended(ends[c], gb)];
    assert (map d | d in s'.chains :: if d == c then Extended(ends[c], gb) else ends[d]) == ends';
    QuietIsWired(Joined(mem, ends[c], gb), ends', s');
  }

  lemma WiredFree(mem: map<int, Buf>, ends: map<ChainId, Ends>, s: Store, s': Store, c: ChainId)
    requires WiredQuietly(mem, ends, s) && s'.chains == s.chains - {c}
    requires forall b :: b in s'.bufs ==> b in s.bufs && s'.bufs[b] == s.bufs[b]
    ensures WiredQuietly(mem, ends - {c}, s')
  {
    QuietIsWired(mem, ends, s);
    forall d | d in s'.chains
      ensures WiredAt(mem, ends - {c}, s', d)
    {
      assert WiredAt(mem, ends, s, d);
    }
    QuietIsWired(mem, ends - {c}, s');
  }

  lemma BufferPoolSizeIsPower()
    ensures PowerOfTwo(BUFPOOL_SIZE)
  {
    assert PowerOfTwo(16);
    PowerProduct(16, 16);
    PowerProduct(256, 4);
  }

  lemma TailInMemory(mem: map<int, Buf>, ends: map<ChainId, Ends>, s: Store, c: ChainId)
    requires SoundQuietly(s) && WiredQuietly(mem, ends, s) && c in s.msgs
    ensures c in s.chains && c in ends && (ends[c].tail != NIL ==> ends[c].tail in mem)
    ensures s.msgs[c] != [] ==> ends[c].head in mem && ends[c].head >= 0
    ensures s.msgs[c] == [] ==> ends[c].head == NIL
  {
    ChainFacts(s, c);
    QuietIsWired(mem, ends, s);
    assert WiredAt(mem, ends, s, c);
    if s.chains[c] != [] {
      assert Strand(mem, s.chains[c], |s.chains[c]| - 1) && Strand(mem, s.chains[c], 0);
    }
  }

  lemma NotChained(s: Store, c: ChainId)
    requires SoundQuietly(s) && c !in s.msgs
    ensures c !in s.chains
  {
    QuietIsSound(s);
  }

  /** What the buffers of a strung chain hold. */
  function PacketsOf(mem: map<int, Buf>, s: seq<int>): seq<Packet> {
    if s == [] then [] else PacketsOf(mem, s[..|s| - 1]) + if s[|s| - 1] in mem then [mem[s[|s| - 1]].pkt] else []
  }

  lemma {:induction false} HeldInMemory(mem: map<int, Buf>, bufs: map<int, Packet>, s: seq<int>)
    requires AllIn(s, bufs.Keys) && forall b :: b in bufs ==> b in mem && mem[b].pkt == bufs[b]
    ensures PacketsOf(mem, s) == Held(bufs, s)
    decreases |s|
  {
    if s != [] {
      var n := |s| - 1;
      assert s[n] in s;
      HeldInMemory(mem, bufs, s[..n]);
      HeldSnoc(bufs, s[..n], s[n]);
      assert s[..n] + [s[n]] == s;
    }
  }

  /** A message as its chain lies in memory. */
  lemma MessageInMemory(mem: map<int, Buf>, ends: map<ChainId, Ends>, s: Store, c: ChainId)
    requires SoundQuietly(s) && WiredQuietly(mem, ends, s) && c in s.msgs
    ensures c in s.chains && c in ends && ends[c] == EndsOf(s.chains[c]) && Strung(mem, s.chains[c])
    ensures PacketsOf(mem, s.chains[c]) == s.msgs[c] && |s.chains[c]| == |s.msgs[c]|
  {
    ChainFacts(s, c);
    QuietIsWired(mem, ends, s);
    assert WiredAt(mem, ends, s, c);
    HeldInMemory(mem, s.bufs, s.chains[c]);
  }

  lemma {:induction false} PacketsCons(mem: map<int, Buf>, s: seq<int>)
    requires s != [] && s[0] in mem
    ensures PacketsOf(mem, s) == [mem[s[0]].pkt] + PacketsOf(mem, s[1..])
    decreases |s|
  {
    var n := |s| - 1;
    if n == 0 {
      assert PacketsOf(mem, s[..0]) == [] && s[1..] == [];
    } else {
      PacketsCons(mem, s[..n]);
      var rest := s[1..];
      assert s[..n][1..] == rest[..n - 1] && s[..n][0] == s[0] && rest[n - 1] == s[n];
      var last := if s[n] in mem then [mem[s[n]].pkt] else [];
      assert PacketsOf(mem, rest) == PacketsOf(mem, rest[..n - 1]) + last;
      Associate([mem[s[0]].pkt], PacketsOf(mem, rest[..n - 1]), last);
    }
  }

  lemma StrungTail(mem: map<int, Buf>, s: seq<int>)
    requires Strung(mem, s) && s != []
    ensures Strung(mem, s[1..]) && s[0] in mem && mem[s[0]].next == EndsOf(s[1..]).head
    ensures PacketsOf(mem, s) == [mem[s[0]].pkt] + PacketsOf(mem, s[1..])
  {
    assert Strand(mem, s, 0);
    var t := s[1..];
    forall i | 0 <= i < |t|
      ensures Strand(mem, t, i)
    {
      assert Strand(mem, s, i + 1);
    }
    PacketsCons(mem, s);
  }

  ghost function Elems(s: seq<int>): set<int> {
    set x | x in s
  }

  lemma ElemsSnoc(s: seq<int>, i: int)
    requires 0 <= i < |s|
    ensures Elems(s[..i + 1]) == Elems(s[..i]) + {s[i]}
  {
  }

  lemma ElemsLess(used: set<int>, s: seq<int>, i: int)
    requires NoDup(s) && AllIn(s, used) && 0 <= i < |s|
    ensures s[i] in used - Elems(s[..i]) && used - Elems(s[..i]) - {s[i]} == used - Elems(s[..i + 1])
  {
    ElemsSnoc(s, i);
    assert s[i] in s && s[i] !in s[..i];
  }

  lemma {:induction false} ElemsSize(s: seq<int>)
    requires NoDup(s)
    ensures |Elems(s)| == |s|
    decreases |s|
  {
    if s != [] {
      var n := |s| - 1;
      ElemsSize(s[..n]);
      ElemsSnoc(s, n);
      assert s[..n + 1] == s;
    }
  }

  /** The taken buffers without those of a chain. */
  ghost function BufsWithout(bufs: map<int, Packet>, s: seq<int>): map<int, Packet> {
    map b | b in bufs && b !in s :: bufs[b]
  }

  lemma BufsWithoutSize(bufs: map<int, Packet>, s: seq<int>)
    requires NoDup(s) && AllIn(s, bufs.Keys)
    ensures BufsWithout(bufs, s).Keys == bufs.Keys - Elems(s) && |BufsWithout(bufs, s)| == |bufs| - |s|
  {
    var rest := BufsWithout(bufs, s);
    assert rest.Keys == bufs.Keys - Elems(s);
    assert bufs.Keys == rest.Keys + Elems(s);
    ElemsSize(s);
  }

  /** The store without a message. */
  ghost function Freed(s: Store, c: ChainId): Store
    requires c in s.chains
  {
    var bufs := BufsWithout(s.bufs, s.chains[c]);
    Store(bufs, s.chains - {c}, map b | b in s.owner && b in bufs :: s.owner[b], s.msgs - {c})
  }

  lemma FreedStands(mem: map<int, Buf>, ends: map<ChainId, Ends>, s: Store, c: ChainId)
    requires SoundQuietly(s) && WiredQuietly(mem, ends, s) && c in s.msgs
    ensures c in s.chains && SoundQuietly(Freed(s, c)) && WiredQuietly(mem, ends - {c}, Freed(s, c))
    ensures Freed(s, c).bufs.Keys == s.bufs.Keys - Elems(s.chains[c])
    ensures |Freed(s, c).bufs| == |s.bufs| - |s.msgs[c]| && Freed(s, c).msgs == s.msgs - {c}
  {
    ChainFacts(s, c);
    InUse(s, c);
    BufsWithoutSize(s.bufs, s.chains[c]);
    SoundFree(s, c, Freed(s, c).bufs);
    WiredFree(mem, ends, s, Freed(s, c), c);
  }

  class ChainStore {
    const pool: FixedMempool      // buf_pool
    ghost const repr: set<object>
    var mem: map<int, Buf>        // what is written in the buffers, taken or not
    var ends: map<ChainId, Ends>  // the messages
    ghost var st: Store           // taken buffers, the chains they form, and the messages these amount to

    ghost predicate Valid()
      reads this, repr
    {
      && repr == {this, pool} + pool.objs
      && pool.size == |pool.elems| == BUFPOOL_SIZE && pool.Valid() && pool.used == st.bufs.Keys
      && SoundQuietly(st) && WiredQuietly(mem, ends, st)
    }

    constructor ()
      ensures Valid() && st.msgs == map[] && st.bufs == map[] && fresh(repr)
    {
      BufferPoolSizeIsPower();
      var p := new FixedMempool(BUFPOOL_SIZE);
      pool, repr := p, {this, p} + p.objs;
      mem, ends, st := map[], map[], Store(map[], map[], map[], map[]);
      new;
      QuietIsSound(st);
      QuietIsWired(mem, ends, st);
    }

    /** An empty message. */
    method Open(c: ChainId)
      requires Valid() && c !in st.msgs
      modifies this
      ensures Valid() && st.msgs == old(st.msgs)[c := []] && st.bufs == old(st.bufs)
    {
      ghost var s' := st.(chains := st.chains[c := []], msgs := st.msgs[c := []]);
      NotChained(st, c);
      SoundOpen(st, c);
      WiredOpen(mem, ends, st, s', c);
      ends, st := ends[c := Ends(NIL, NIL)], s';
    }

    /** r2p2_msg_add_payload. */
    method AddPayload(c: ChainId, gb: int)
      requires c in ends && gb in mem && (ends[c].tail != NIL ==> ends[c].tail in mem)
      modifies this`mem, this`ends
      ensures mem == Joined(old(mem), old(ends)[c], gb) && ends == old(ends)[c := Extended(old(ends)[c], gb)]
    {
      var e := ends[c];
      if e.tail != NIL {
        mem := mem[e.tail := mem[e.tail].(next := gb)];
        ends := ends[c := Ends(e.head, gb)];
      } else {
        ends := ends[c := Ends(gb, gb)];
      }
    }

    /** get_buffer, writing the packet into it and linking it; fails, as the source's assertion, without a buffer. */
    method Append(c: ChainId, p: Packet) returns (ok: bool)
      requires Valid() && c in st.msgs
      modifies repr
      ensures Valid() && (ok <==> |old(st.bufs)| < BUFPOOL_SIZE)
      ensures ok ==> st.msgs == old(st.msgs)[c := old(st.msgs)[c] + [p]] && |st.bufs| == old(|st.bufs|) + 1
      ensures !ok ==> st == old(st)
    {
      CountBound(st);
      var obj := pool.Alloc();
      if obj == null { return false; }
      var gb := obj.slot;
      SoundAppend(st, c, gb, p);
      WiredAppend(mem, ends, st, c, gb, p);
      TailInMemory(mem, ends, st, c);
      ghost var s' := Appended(st, c, gb, p);
      mem := mem[gb := Buf(p, NIL)];
      AddPayload(c, gb);
      st := s';
      ok := true;
    }

    /** Linking the buffer in hand behind the tail of a message. */
    method Link(c: ChainId)
      requires Valid() && c in st.msgs && InHand in st.msgs && |st.msgs[InHand]| == 1 && c != InHand
      modifies this
      ensures Valid() && st.msgs == (old(st.msgs) - {InHand})[c := old(st.msgs)[c] + old(st.msgs)[InHand]]
      ensures st.bufs == old(st.bufs)
    {
      SoundLink(st, c);
      WiredLink(mem, ends, st, c);
      TailInMemory(mem, ends, st, c);
      TailInMemory(mem, ends, st, InHand);
      ghost var s' := HandLinked(st, c);
      var gb := ends[InHand].head;
      ends := ends - {InHand};
      AddPayload(c, gb);
      st := s';
    }

    /** free_buffer. */
    method FreeBuffer(gb: int)
      requires pool.Valid() && gb in pool.used
      modifies pool, pool.objs
      ensures pool.Valid() && pool.used == old(pool.used) - {gb}
    {
      pool.TakenObject(gb);
      pool.Free(pool.elems[gb]);
    }

    /** The freeing loop: each buffer is taken until it is freed, and its next pointer is read after that. */
    method FreeChain(head: int, ghost s: seq<int>)
      requires pool.Valid() && NoDup(s) && AllIn(s, pool.used) && Strung(mem, s) && head == EndsOf(s).head
      modifies pool, pool.objs
      ensures pool.Valid() && pool.used == old(pool.used) - Elems(s)
    {
      var gb := head;
      ghost var i := 0;
      while gb != NIL
        invariant 0 <= i <= |s| && gb == if i < |s| then s[i] else NIL
        invariant pool.Valid() && pool.used == old(pool.used) - Elems(s[..i])
        decreases |s| - i
      {
        assert Strand(mem, s, i);
        ElemsLess(old(pool.used), s, i);
        FreeBuffer(gb);
        gb := mem[gb].next;
        i := i + 1;
      }
      assert i < |s| ==> Strand(mem, s, i);
      assert s[..|s|] == s;
    }

    /** The buffers of a message go back to the pool. */
    method Free(c: ChainId)
      requires Valid() && c in st.msgs
      modifies repr
      ensures Valid() && st.msgs == old(st.msgs) - {c} && |st.bufs| == old(|st.bufs|) - |old(st.msgs)[c]|
    {
      MessageInMemory(mem, ends, st, c);
      InUse(st, c);
      FreedStands(mem, ends, st, c);
      ghost var s' := Freed(st, c);
      FreeChain(ends[c].head, st.chains[c]);
      assert pool.used == s'.bufs.Keys;
      ends, st := ends - {c}, s';
    }

    /** Following the next pointers, as buf_list_send and prepare_to_app_iovec do. */
    method Walk(first: int, ghost s: seq<int>) returns (pkts: seq<Packet>)
      requires Strung(mem, s) && first == EndsOf(s).head
      ensures pkts == PacketsOf(mem, s)
    {
      pkts := [];
      var gb := first;
      ghost var i := 0;
      while gb != NIL
        invariant 0 <= i <= |s| && gb == (if i < |s| then s[i] else NIL) && pkts == PacketsOf(mem, s[..i])
        decreases |s| - i
      {
        assert Strand(mem, s, i) && s[..i + 1][..i] == s[..i];
        pkts := pkts + [mem[gb].pkt];
        gb := mem[gb].next;
        i := i + 1;
      }
      assert i < |s| ==> Strand(mem, s, i);
      assert s[..|s|] == s;
    }

    /** The packets of a message, as they are sent or handed to the application. */
    method Packets(c: ChainId) returns (pkts: seq<Packet>)
      requires Valid() && c in st.msgs
      ensures pkts == st.msgs[c]
    {
      MessageInMemory(mem, ends, st, c);
      pkts := Walk(ends[c].head, st.chains[c]);
    }

    method IsSingle(c: ChainId) returns (single: bool)
      requires Valid() && c in st.msgs && st.msgs[c] != []
      ensures single <==> |st.msgs[c]| == 1
    {
      MessageInMemory(mem, ends, st, c);
      InUse(st, c);
      single := ends[c].head == ends[c].tail;
    }

    /** The packets of a message after its first. */
    method PacketsAfterFirst(c: ChainId) returns (pkts: seq<Packet>)
      requires Valid() && c in st.msgs && st.msgs[c] != []
      ensures pkts == st.msgs[c][1..]
    {
      MessageInMemory(mem, ends, st, c);
      ghost var s := st.chains[c];
      assert Strand(mem, s, 0);
      StrungTail(mem, s);
      pkts := Walk(mem[ends[c].head].next, s[1..]);
    }

    /** The first packet alone: the chain is cut behind it while it is sent and joined again afterwards. */
    method FirstPacket(c: ChainId) returns (pkts: seq<Packet>)
      requires Valid() && c in st.msgs && st.msgs[c] != []
      modifies this`mem
      ensures Valid() && mem == old(mem) && pkts == [st.msgs[c][0]]
    {
      MessageInMemory(mem, ends, st, c);
      ghost var s := st.chains[c];
      assert Strand(mem, s, 0);
      StrungTail(mem, s);
      var head := ends[c].head;
      var second := mem[head].next;
      mem := mem[head := mem[head].(next := NIL)];
      assert Strand(mem, [head], 0);
      assert PacketsOf(mem, [head]) == PacketsOf(mem, []) + [mem[head].pkt];
      pkts := Walk(head, [head]);
      mem := mem[head := mem[head].(next := second)];
      assert mem == old(mem);
    }

    /** A buffer for every packet of a framed message; false when the pool runs dry. */
    method AppendAll(c: ChainId, pkts: seq<Packet>) returns (ok: bool)
      requires Valid() && c in st.msgs && st.msgs[c] == []
      modifies repr
      ensures Valid() && (ok <==> |old(st.bufs)| + |pkts| <= BUFPOOL_SIZE)
      ensures ok ==> st.msgs == old(st.msgs)[c := pkts] && |st.bufs| == |old(st.bufs)| + |pkts|
    {
      var i := 0;
      while i < |pkts|
        invariant 0 <= i <= |pkts| && Valid() && |st.bufs| == |old(st.bufs)| + i
        invariant st.msgs == old(st.msgs)[c := pkts[..i]]
      {
        var more := Append(c, pkts[i]);
        if !more { return false; }
        assert pkts[..i] + [pkts[i]] == pkts[..i + 1];
        assert st.msgs == old(st.msgs)[c := pkts[..i + 1]];
        i := i + 1;
      }
      assert pkts[..|pkts|] == pkts;
      CountBound(st);
      ok := true;
    }
  }
}
