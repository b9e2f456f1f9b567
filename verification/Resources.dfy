/**
 Everything an endpoint of the Linux build owns: the buffer pool with its chains, the two pair pools with their pending
 lists, the sockets and their timers. Each operation changes one of them and leaves the others as they are.
 */
module Resources {
  import opened Wire
  import opened Transport
  import opened Buffers
  import opened Collections
  import opened Holdings
  import opened PairTable
  import opened SocketPool

  class Resources {
    const store: ChainStore
    const clients: PairTable<ClientRec>
    const servers: PairTable<ServerRec>
    const sockets: SocketPool
    ghost const repr: set<object>
    var armed: set<int>  // sockets whose timer is running
    var rid: uint16

    ghost function Own(): Holdings
      reads this, store, clients, servers, sockets
    {
      Holdings(store.st.msgs, clients.recs, servers.recs, clients.pending, servers.pending, sockets.serves, armed, rid)
    }

    ghost predicate Separate()
      reads this
    {
      && repr == {this} + store.repr + clients.repr + servers.repr + sockets.repr
      && this !in store.repr + clients.repr + servers.repr + sockets.repr
      && store in store.repr && clients in clients.repr && servers in servers.repr && sockets in sockets.repr
      && store.repr !! clients.repr && store.repr !! servers.repr && store.repr !! sockets.repr
      && clients.repr !! servers.repr && clients.repr !! sockets.repr && servers.repr !! sockets.repr
    }

    ghost predicate Parts()
      reads this, repr
    {
      Separate() && store.Valid() && clients.Valid() && servers.Valid() && sockets.Valid()
    }

    ghost predicate Valid()
      reads this, repr
    {
      && this in repr && store in repr && clients in repr && servers in repr && sockets in repr
      && forall x {:trigger About(x)} :: x == repr ==> Parts()
    }

    lemma Opened()
      requires Valid()
      ensures Parts()
    {
      assert About(repr);
    }

    /** Taken buffers. */
    ghost function Taken(): nat
      reads this, store
    {
      |store.st.bufs|
    }

    constructor (s: ChainStore, c: PairTable<ClientRec>, v: PairTable<ServerRec>, k: SocketPool)
      requires s.Valid() && c.Valid() && v.Valid() && k.Valid()
      requires s.repr !! c.repr && s.repr !! v.repr && s.repr !! k.repr
      requires c.repr !! v.repr && c.repr !! k.repr && v.repr !! k.repr
      ensures Valid() && store == s && clients == c && servers == v && sockets == k
      ensures repr == {this} + s.repr + c.repr + v.repr + k.repr
      ensures armed == {} && rid == 0
    {
      store, clients, servers, sockets := s, c, v, k;
      repr := {this} + s.repr + c.repr + v.repr + k.repr;
      armed, rid := {}, 0;
      new;
      assert Parts();
    }

    static method Create() returns (r: Resources)
      ensures r.Valid() && fresh(r.repr)
      ensures r.Own() == Holdings(map[], map[], map[], [], [], map[], {}, 0) && r.Taken() == 0
    {
      var s, k := CreateBuffersAndSockets();
      var c, v := CreatePairs();
      r := new Resources(s, c, v, k);
      assert fresh(s.repr) && fresh(c.repr) && fresh(v.repr) && fresh(k.repr) && fresh({r});
      assert r.repr == {r} + s.repr + c.repr + v.repr + k.repr;
      forall o | o in r.repr
        ensures fresh(o)
      {
        assert o == r || o in s.repr || o in c.repr || o in v.repr || o in k.repr;
      }
    }

    static method CreatePairs() returns (c: PairTable<ClientRec>, v: PairTable<ServerRec>)
      ensures c.Valid() && v.Valid() && fresh(c.repr) && fresh(v.repr) && c.repr !! v.repr
      ensures c.recs == map[] && c.pending == [] && v.recs == map[] && v.pending == []
    {
      c := new PairTable<ClientRec>();
      v := new PairTable<ServerRec>();
    }

    static method CreateBuffersAndSockets() returns (s: ChainStore, k: SocketPool)
      ensures s.Valid() && k.Valid() && fresh(s.repr) && fresh(k.repr) && s.repr !! k.repr
      ensures s.st.msgs == map[] && s.st.bufs == map[] && k.serves == map[]
    {
      s := new ChainStore();
      k := new SocketPool();
    }

    // ----- messages -----

    method Open(c: ChainId)
      requires Valid() && c !in Own().msgs
      modifies repr
      ensures Valid() && Own() == old(Own()).(msgs := old(Own()).msgs[c := []])
      ensures Taken() == old(Taken()) && servers.newest == old(servers.newest)
    {
      Opened();
      store.Open(c);
      assert Parts();
    }

    method Append(c: ChainId, p: Packet) returns (ok: bool)
      requires Valid() && c in Own().msgs
      modifies repr
      ensures Valid() && (ok <==> old(Taken()) < BUFPOOL_SIZE) && servers.newest == old(servers.newest)
      ensures ok ==> Own() == old(Own()).(msgs := old(Own()).msgs[c := old(Own()).msgs[c] + [p]])
      ensures ok ==> Taken() == old(Taken()) + 1
      ensures !ok ==> Own() == old(Own())
    {
      Opened();
      ok := store.Append(c, p);
      assert Parts();
    }

    method Free(c: ChainId)
      requires Valid() && c in Own().msgs
      modifies repr
      ensures Valid() && Own() == old(Own()).(msgs := old(Own()).msgs - {c}) && servers.newest == old(servers.newest)
      ensures Taken() == old(Taken()) - |old(Own()).msgs[c]|
    {
      Opened();
      store.Free(c);
      assert Parts();
    }

    method Link(c: ChainId)
      requires Valid() && c in Own().msgs && InHand in Own().msgs && |Own().msgs[InHand]| == 1 && c != InHand
      modifies repr
      ensures var m := old(Own()).msgs;
              Valid() && Own() == old(Own()).(msgs := (m - {InHand})[c := m[c] + m[InHand]])
      ensures Taken() == old(Taken()) && servers.newest == old(servers.newest)
    {
      Opened();
      store.Link(c);
      assert Parts();
    }

    /** The first packet of a message leaves; the chain is whole again afterwards. */
    method SendFirst(c: ChainId) returns (pkts: seq<Packet>)
      requires Valid() && c in Own().msgs && Own().msgs[c] != []
      modifies repr
      ensures Valid() && Own() == old(Own()) && Taken() == old(Taken()) && pkts == [Own().msgs[c][0]]
    {
      Opened();
      pkts := store.FirstPacket(c);
      assert Parts();
    }

    method Packets(c: ChainId) returns (pkts: seq<Packet>)
      requires Valid() && c in Own().msgs
      ensures pkts == Own().msgs[c]
    {
      Opened();
      pkts := store.Packets(c);
    }

    method PacketsAfterFirst(c: ChainId) returns (pkts: seq<Packet>)
      requires Valid() && c in Own().msgs && Own().msgs[c] != []
      ensures pkts == Own().msgs[c][1..]
    {
      Opened();
      pkts := store.PacketsAfterFirst(c);
    }

    /** Does a message consist of one buffer? The source compares its head and its tail. */
    method IsSingle(c: ChainId) returns (single: bool)
      requires Valid() && c in Own().msgs && Own().msgs[c] != []
      ensures single <==> |Own().msgs[c]| == 1
    {
      Opened();
      single := store.IsSingle(c);
    }

    // ----- searching -----

    method FirstClient() returns (id: int)
      requires Valid()
      ensures id == (if Own().pc == [] then -1 else Own().pc[0]) && (id == -1 <==> Own().pc == [])
    {
      Opened();
      id := clients.Head();
    }

    method NextClient(id: int, ghost i: int) returns (next: int)
      requires Valid() && 0 <= i < |Own().pc| && Own().pc[i] == id
      ensures next == if i + 1 == |Own().pc| then -1 else Own().pc[i + 1]
      ensures next == -1 <==> i + 1 == |Own().pc|
    {
      Opened();
      next := clients.Next(id, i);
    }

    method FirstServer() returns (id: int)
      requires Valid()
      ensures id == (if Own().ps == [] then -1 else Own().ps[0]) && (id == -1 <==> Own().ps == [])
    {
      Opened();
      id := servers.Head();
    }

    method NextServer(id: int, ghost i: int) returns (next: int)
      requires Valid() && 0 <= i < |Own().ps| && Own().ps[i] == id
      ensures next == if i + 1 == |Own().ps| then -1 else Own().ps[i + 1]
      ensures next == -1 <==> i + 1 == |Own().ps|
    {
      Opened();
      next := servers.Next(id, i);
    }

    method PairOfSocket(slot: int) returns (inUse: bool, pair: int)
      requires Valid() && 0 <= slot < SOCKPOOL_SIZE
      ensures (inUse <==> slot in Own().sockets) && (inUse ==> pair == Own().sockets[slot])
    {
      Opened();
      inUse, pair := sockets.PairOf(slot);
    }

    // ----- client pairs -----

    method NewClient(r: ClientRec) returns (id: int)
      requires Valid()
      modifies repr
      ensures Valid() && (id == -1 <==> |old(Own()).clients| == POOL_SIZE) && Taken() == old(Taken())
      ensures id == -1 ==> Own() == old(Own())
      ensures id != -1 ==> id !in old(Own()).clients && Own() == old(Own()).(clients := old(Own()).clients[id := r])
    {
      Opened();
      id := clients.Alloc(r);
      assert Parts();
    }

    method DropClient(id: int)
      requires Valid() && id in Own().clients && id !in Own().pc
      modifies repr
      ensures Valid() && Own() == old(Own()).(clients := old(Own()).clients - {id}) && Taken() == old(Taken())
    {
      Opened();
      clients.Free(id);
      assert Parts();
    }

    method PutClient(id: int, r: ClientRec)
      requires Valid() && id in Own().clients
      modifies repr
      ensures Valid() && Own() == old(Own()).(clients := old(Own()).clients[id := r]) && Taken() == old(Taken())
    {
      Opened();
      clients.Put(id, r);
      assert Parts();
    }

    method ListClient(id: int)
      requires Valid() && id in Own().clients && id !in Own().pc
      modifies repr
      ensures Valid() && Own() == old(Own()).(pc := old(Own()).pc + [id]) && Taken() == old(Taken())
    {
      Opened();
      clients.Append(id);
      assert Parts();
    }

    method UnlistClient(id: int, ghost at: int)
      requires Valid() && 0 <= at < |Own().pc| && Own().pc[at] == id
      modifies repr
      ensures Valid() && Own() == old(Own()).(pc := Without(old(Own()).pc, at)) && Taken() == old(Taken())
    {
      Opened();
      clients.Remove(id, at);
      assert Parts();
    }

    // ----- server pairs -----

    method NewServer(r: ServerRec) returns (id: int)
      requires Valid()
      modifies repr
      ensures Valid() && (id == -1 <==> |old(Own()).servers| == POOL_SIZE) && Taken() == old(Taken())
      ensures id == -1 ==> Own() == old(Own())
      ensures id != -1 ==> id !in old(Own()).servers && Own() == old(Own()).(servers := old(Own()).servers[id := r])
      ensures id != -1 ==> servers.newest == id
    {
      Opened();
      id := servers.Alloc(r);
      assert Parts();
    }

    method DropServer(id: int)
      requires Valid() && id in Own().servers && id !in Own().ps
      modifies repr
      ensures Valid() && Own() == old(Own()).(servers := old(Own()).servers - {id}) && Taken() == old(Taken())
    {
      Opened();
      servers.Free(id);
      assert Parts();
    }

    method PutServer(id: int, r: ServerRec)
      requires Valid() && id in Own().servers
      modifies repr
      ensures Valid() && Own() == old(Own()).(servers := old(Own()).servers[id := r]) && Taken() == old(Taken())
    {
      Opened();
      servers.Put(id, r);
      assert Parts();
    }

    method ListServer(id: int)
      requires Valid() && id in Own().servers && id !in Own().ps
      modifies repr
      ensures Valid() && Own() == old(Own()).(ps := old(Own()).ps + [id]) && Taken() == old(Taken())
    {
      Opened();
      servers.Append(id);
      assert Parts();
    }

    method UnlistServer(id: int, ghost at: int)
      requires Valid() && 0 <= at < |Own().ps| && Own().ps[at] == id
      modifies repr
      ensures Valid() && Own() == old(Own()).(ps := Without(old(Own()).ps, at)) && Taken() == old(Taken())
    {
      Opened();
      servers.Remove(id, at);
      assert Parts();
    }

    /** Removing a pair that was never listed from the list changes nothing. */
    method UnlistFreshServer(id: int)
      requires Valid() && servers.newest == id != -1
      modifies repr
      ensures Valid() && Own() == old(Own()) && Taken() == old(Taken())
    {
      Opened();
      servers.RemoveUnlisted(id);
      assert Parts();
    }

    // ----- sockets and timers -----

    method TakeSocket() returns (slot: int)
      requires Valid()
      modifies repr
      ensures Valid() && (slot == -1 <==> |old(Own()).sockets| >= SOCKPOOL_SIZE) && Taken() == old(Taken())
      ensures slot == -1 ==> Own() == old(Own())
      ensures slot != -1 ==> 0 <= slot < SOCKPOOL_SIZE && slot !in old(Own()).sockets
      ensures slot != -1 ==> Own() == old(Own()).(sockets := old(Own()).sockets[slot := -1])
    {
      Opened();
      slot := sockets.GetSocket();
      assert Parts();
    }

    /** The socket is given its pair. */
    method ServeSocket(slot: int, pair: int)
      requires Valid() && slot in Own().sockets
      modifies repr
      ensures Valid() && Own() == old(Own()).(sockets := old(Own()).sockets[slot := pair]) && Taken() == old(Taken())
    {
      Opened();
      sockets.Serve(slot, pair);
      assert Parts();
    }

    /** The timer of a socket starts to run. */
    method Arm(slot: int)
      requires Valid()
      modifies repr
      ensures Valid() && Own() == old(Own()).(armed := old(Own()).armed + {slot}) && Taken() == old(Taken())
    {
      Opened();
      armed := armed + {slot};
      assert Parts();
    }

    /** __disarm_timer. */
    method Disarm(slot: int)
      requires Valid()
      modifies repr
      ensures Valid() && Own() == old(Own()).(armed := old(Own()).armed - {slot}) && Taken() == old(Taken())
    {
      Opened();
      armed := armed - {slot};
      assert Parts();
    }

    method FreeSocket(slot: int)
      requires Valid() && slot in Own().sockets
      modifies repr
      ensures Valid() && Own() == old(Own()).(sockets := old(Own()).sockets - {slot}) && Taken() == old(Taken())
    {
      Opened();
      sockets.FreeSocket(slot);
      assert Parts();
    }

    method NextRid()
      requires Valid()
      modifies repr
      ensures Valid() && Own() == old(Own()).(rid := Inc16(old(Own()).rid)) && Taken() == old(Taken())
    {
      Opened();
      rid := Inc16(rid);
      assert Parts();
    }

    // ----- whole pairs -----

    method FreeClientPair(id: int)
      requires Valid() && id in Own().clients && id !in Own().pc
      requires ClientReply(id) in Own().msgs && ClientRequest(id) in Own().msgs
      requires Own().clients[id].port == NIL || Own().clients[id].port in Own().sockets
      modifies repr
      ensures Valid() && Own() == FreedClient(old(Own()), id) && Taken() <= old(Taken())
    {
      Free(ClientReply(id));
      Free(ClientRequest(id));
      var port := clients.recs[id].port;
      if port != NIL {
        OnFree(port);
      }
      DropClient(id);
    }

    /** linux_on_client_pair_free: the timer is disarmed, then the socket is free for another pair. */
    method OnFree(port: int)
      requires Valid() && port in Own().sockets
      modifies repr
      ensures Valid() && Taken() == old(Taken())
      ensures Own() == old(Own()).(armed := old(Own()).armed - {port}, sockets := old(Own()).sockets - {port})
    {
      Disarm(port);
      FreeSocket(port);
    }

    method FreeServerPair(id: int)
      requires Valid() && id in Own().servers && id !in Own().ps
      requires ServerRequest(id) in Own().msgs && ServerReply(id) in Own().msgs
      modifies repr
      ensures Valid() && Own() == FreedServer(old(Own()), id) && Taken() <= old(Taken())
    {
      Free(ServerRequest(id));
      Free(ServerReply(id));
      DropServer(id);
    }

    /** remove_from_pending_client_pairs followed by free_client_pair. */
    method RemoveClient(id: int, ghost i: nat)
      requires Valid() && i < |Own().pc| && Own().pc[i] == id && id in Own().clients && id !in Without(Own().pc, i)
      requires ClientReply(id) in Own().msgs && ClientRequest(id) in Own().msgs
      requires Own().clients[id].port != NIL && Own().clients[id].port in Own().sockets
      modifies repr
      ensures Valid() && Own() == WithoutClient(old(Own()), i) && Taken() <= old(Taken())
    {
      UnlistClient(id, i);
      FreeClientPair(id);
    }

    /** remove_from_pending_server_pairs followed by free_server_pair. */
    method RemoveServer(id: int, ghost i: nat)
      requires Valid() && i < |Own().ps| && Own().ps[i] == id && id in Own().servers && id !in Without(Own().ps, i)
      requires ServerRequest(id) in Own().msgs && ServerReply(id) in Own().msgs
      modifies repr
      ensures Valid() && Own() == WithoutServer(old(Own()), id, Without(old(Own()).ps, i)) && Taken() <= old(Taken())
    {
      UnlistServer(id, i);
      FreeServerPair(id);
    }

    /** alloc_server_pair: an object for the pair, with two empty messages. */
    method AllocServerPair(r: ServerRec) returns (id: int)
      requires Valid() && |Own().servers| < POOL_SIZE
      requires forall x :: x !in Own().servers ==> ServerRequest(x) !in Own().msgs && ServerReply(x) !in Own().msgs
      modifies repr
      ensures Valid() && Taken() == old(Taken()) && id !in old(Own()).servers && servers.newest == id != -1
      ensures Own() == old(Own()).(msgs := old(Own()).msgs[ServerReply(id) := []][ServerRequest(id) := []],
                                   servers := old(Own()).servers[id := r])
    {
      id := NewServer(r);
      Open(ServerReply(id));
      Open(ServerRequest(id));
    }

    /** alloc_client_pair. */
    method AllocClientPair(r: ClientRec) returns (id: int)
      requires Valid() && |Own().clients| < POOL_SIZE
      requires forall x :: x !in Own().clients ==> ClientRequest(x) !in Own().msgs && ClientReply(x) !in Own().msgs
      modifies repr
      ensures Valid() && Taken() == old(Taken()) && id !in old(Own()).clients
      ensures Own() == old(Own()).(msgs := old(Own()).msgs[ClientReply(id) := []][ClientRequest(id) := []],
                                   clients := old(Own()).clients[id := r])
    {
      id := NewClient(r);
      Open(ClientReply(id));
      Open(ClientRequest(id));
    }

    /** A buffer for every packet of a framed message; false when the pool runs dry. */
    method AppendAll(c: ChainId, pkts: seq<Packet>) returns (ok: bool)
      requires Valid() && c in Own().msgs && Own().msgs[c] == []
      modifies repr
      ensures Valid() && (ok <==> old(Taken()) + |pkts| <= BUFPOOL_SIZE)
      ensures ok ==> Own() == old(Own()).(msgs := old(Own()).msgs[c := pkts]) && Taken() == old(Taken()) + |pkts|
    {
      Opened();
      ok := store.AppendAll(c, pkts);
      assert Parts();
    }
  }
}
