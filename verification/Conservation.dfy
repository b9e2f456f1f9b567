/** Counting what an endpoint holds: every taken buffer belongs to a message of a live pair. */
module Conservation {
  import opened Wire
  import opened Buffers
  import opened Collections
  import opened Holdings

  /** The packets of these messages together. */
  ghost function Total(msgs: Msgs, keys: set<ChainId>): nat {
    if keys == {} then 0
    else
      var c :| c in keys;
      |Msg(msgs, c)| + Total(msgs, keys - {c})
  }

  lemma {:induction false} TotalMinus(msgs: Msgs, keys: set<ChainId>, c: ChainId)
    requires c in keys
    ensures Total(msgs, keys) == |Msg(msgs, c)| + Total(msgs, keys - {c})
    decreases keys
  {
    var d :| d in keys && Total(msgs, keys) == |Msg(msgs, d)| + Total(msgs, keys - {d});
    if d != c {
      TotalMinus(msgs, keys - {d}, c);
      TotalMinus(msgs, keys - {c}, d);
      assert keys - {d} - {c} == keys - {c} - {d};
    }
  }

  lemma {:induction false} TotalSame(msgs: Msgs, msgs': Msgs, keys: set<ChainId>)
    requires forall c :: c in keys ==> Msg(msgs', c) == Msg(msgs, c)
    ensures Total(msgs', keys) == Total(msgs, keys)
    decreases keys
  {
    if keys != {} {
      var c :| c in keys;
      TotalMinus(msgs, keys, c);
      TotalMinus(msgs', keys, c);
      TotalSame(msgs, msgs', keys - {c});
    }
  }

  /** As many buffers are taken as the messages have packets. */
  lemma {:induction false} TakenIsTotal(s: Store)
    requires SoundQuietly(s)
    ensures |s.bufs| == Total(s.msgs, s.msgs.Keys)
    decreases |s.msgs|
  {
    if s.msgs == map[] {
      NothingTaken(s);
    } else {
      var c :| c in s.msgs;
      ChainFacts(s, c);
      InUse(s, c);
      BufsWithoutSize(s.bufs, s.chains[c]);
      SoundFree(s, c, Freed(s, c).bufs);
      assert (s.msgs - {c}).Keys == s.msgs.Keys - {c};
      TakenIsTotal(Freed(s, c));
      TotalSame(s.msgs, s.msgs - {c}, s.msgs.Keys - {c});
      TotalMinus(s.msgs, s.msgs.Keys, c);
    }
  }

  lemma NothingTaken(s: Store)
    requires SoundQuietly(s) && s.msgs == map[]
    ensures |s.bufs| == 0
  {
    QuietIsSound(s);
    assert s.chains.Keys == s.msgs.Keys;
    assert forall b :: b in s.bufs ==> b in s.owner && s.owner[b] in s.chains;
    assert s.bufs.Keys == {};
  }

  /** The requests and replies of these client and server pairs. */
  ghost function ChainsOf(cs: set<int>, ss: set<int>): set<ChainId> {
    (set i | i in cs :: ClientRequest(i)) + (set i | i in cs :: ClientReply(i))
    + (set i | i in ss :: ServerRequest(i)) + (set i | i in ss :: ServerReply(i))
  }

  lemma InChainsOf(clients: map<int, ClientRec>, servers: map<int, ServerRec>, c: ChainId)
    ensures c in ChainsOf(clients.Keys, servers.Keys) <==> Live(c, clients, servers)
  {
  }

  /** Between events the messages are the requests and replies of live pairs. */
  lemma MessagesOfPairs(o: Holdings)
    requires OnlyLive(o.msgs, false, o.clients, o.servers)
    ensures o.msgs.Keys == ChainsOf(o.clients.Keys, o.servers.Keys)
  {
    forall c: ChainId
      ensures c in o.msgs <==> c in ChainsOf(o.clients.Keys, o.servers.Keys)
    {
      InChainsOf(o.clients, o.servers, c);
    }
  }

  /** Between events the taken buffers are those of the requests and replies of live pairs. */
  lemma TakenByPairs(s: Store, o: Holdings)
    requires SoundQuietly(s) && o.msgs == s.msgs && OnlyLive(o.msgs, false, o.clients, o.servers)
    ensures |s.bufs| == Total(o.msgs, ChainsOf(o.clients.Keys, o.servers.Keys))
  {
    TakenIsTotal(s);
    MessagesOfPairs(o);
  }

  /** As many sockets are taken as there are calls. */
  lemma SocketsAreClients(o: Holdings, hand: bool)
    requires Conserved(o, hand)
    ensures |o.sockets| == |o.clients| <= SOCKPOOL_SIZE
  {
    var ports := map i | i in o.clients :: o.clients[i].port;
    assert ports.Keys == o.clients.Keys;
    forall i | i in ports
      ensures ports[i] in o.sockets && o.sockets[ports[i]] == i
    {
      assert o.clients[i].port in o.sockets;
    }
    forall p | p in o.sockets
      ensures o.sockets[p] in ports && ports[o.sockets[p]] == p
    {
      assert o.sockets[p] in o.clients;
    }
    InverseSize(ports, o.sockets);
  }

  /** Every server pair holds a buffer of its own. */
  lemma ServersWithinBuffers(s: Store, o: Holdings, hand: bool)
    requires SoundQuietly(s) && o.msgs == s.msgs && Conserved(o, hand)
    ensures |o.servers| <= |s.bufs| <= BUFPOOL_SIZE
  {
    CountBound(s);
    forall i | i in o.servers
      ensures ServerRequest(i) in s.chains
      ensures s.chains[ServerRequest(i)] != [] && s.chains[ServerRequest(i)][0] in s.bufs
    {
      assert Msg(o.msgs, ServerRequest(i)) != [];
      ChainFacts(s, ServerRequest(i));
    }
    var first := map i | i in o.servers :: s.chains[ServerRequest(i)][0];
    forall i, j | i in first && j in first && first[i] == first[j]
      ensures i == j
    {
      if i != j {
        ApartFrom(s, ServerRequest(i), ServerRequest(j), 0, 0);
      }
    }
    InjectiveSize(first);
    assert first.Keys == o.servers.Keys;
    SubsetSize(first.Values, s.bufs.Keys);
  }
}
