/**
 The sockets of a Linux endpoint, one per pending request (r2p2/linux-backend.c). A socket is named by its place in the
 pool, which also stands for the port it is bound to.
 */
module SocketPool {
  import opened Collections
  import opened Probing
  import opened Wire

  lemma PoolSizeIsPower()
    ensures PowerOfTwo(SOCKPOOL_SIZE)
  {
    assert PowerOfTwo(16);
    PowerProduct(16, 8);
  }

  /** The index before an increment, in 32 bits. */
  function Back(idx: nat): nat {
    if idx == 0 then WORD - 1 else idx - 1
  }

  class SocketPool {
    const taken: array<bool>
    const cp: array<int>  // the client pair a socket serves, -1 for null
    ghost const repr: set<object>
    var count: int
    var idx: nat
    ghost var serves: map<int, int>  // the sockets taken and the pair of each

    /** The sockets marked taken are the keys of m, each points at its pair, and a free one at none. */
    ghost predicate Marked(m: map<int, int>)
      reads taken, cp
    {
      && taken.Length == cp.Length == SOCKPOOL_SIZE
      && (forall i :: 0 <= i < SOCKPOOL_SIZE ==> (taken[i] <==> i in m))
      && (forall i :: 0 <= i < SOCKPOOL_SIZE ==> cp[i] == if i in m then m[i] else -1)
      && (forall i :: i in m ==> 0 <= i < SOCKPOOL_SIZE)
    }

    ghost predicate Valid()
      reads this, repr
    {
      && repr == {this, taken, cp}
      && taken.Length == cp.Length == SOCKPOOL_SIZE && idx < WORD && count == |serves|
      && forall x {:trigger About(x)} :: x == serves ==> Marked(x)
    }

    constructor ()
      ensures Valid() && serves == map[] && fresh(repr)
    {
      var t := new bool[SOCKPOOL_SIZE](_ => false);
      var c := new int[SOCKPOOL_SIZE](_ => -1);
      taken, cp, repr := t, c, {this, t, c};
      count, idx, serves := 0, 0, map[];
      new;
      assert Marked(map[]);
    }

    /** The probing loop of get_socket; the index is left one past the slot found. */
    method FindFree() returns (slot: nat, ghost probes: nat)
      requires Valid() && count < SOCKPOOL_SIZE
      modifies this`idx
      ensures Valid() && probes < SOCKPOOL_SIZE
      ensures Searched(serves.Keys, old(idx), SOCKPOOL_SIZE, probes, slot) && slot !in serves
    {
      assert About(serves);
      PoolSizeIsPower();
      ghost var used := serves.Keys;
      FreeIndex(used, SOCKPOOL_SIZE);
      ghost var free :| 0 <= free < SOCKPOOL_SIZE && free !in used;
      SearchStart(used, idx, SOCKPOOL_SIZE);
      slot := And(idx, SOCKPOOL_SIZE - 1);
      probes := 0;
      ghost var start := slot;
      idx := Bump(idx);
      while taken[slot]
        invariant idx < WORD && idx == Bumps(old(idx), probes + 1)
        invariant Searched(used, old(idx), SOCKPOOL_SIZE, probes, slot)
        invariant probes + Ahead(slot, free, SOCKPOOL_SIZE) == Ahead(start, free, SOCKPOOL_SIZE)
        decreases Ahead(slot, free, SOCKPOOL_SIZE)
      {
        SearchStep(used, old(idx), SOCKPOOL_SIZE, probes, slot);
        AheadStep(slot, free, SOCKPOOL_SIZE);
        slot := And(idx, SOCKPOOL_SIZE - 1);
        probes := probes + 1;
        idx := Bump(idx);
      }
      assert Back(idx) == Bumps(old(idx), probes);
      slot := And(Back(idx), SOCKPOOL_SIZE - 1);
    }

    /** get_socket: -1 exactly when all are taken, otherwise one that was free. */
    method GetSocket() returns (slot: int)
      requires Valid()
      modifies repr
      ensures Valid() && (slot == -1 <==> |old(serves)| == SOCKPOOL_SIZE) && |old(serves)| <= SOCKPOOL_SIZE
      ensures slot == -1 ==> serves == old(serves)
      ensures slot != -1 ==> 0 <= slot < SOCKPOOL_SIZE && slot !in old(serves) && serves == old(serves)[slot := -1]
    {
      assert About(serves);
      SubsetSize(serves.Keys, Range(SOCKPOOL_SIZE));
      if count >= SOCKPOOL_SIZE {
        return -1;
      }
      ghost var probes;
      slot, probes := FindFree();
      assert About(serves);
      Take(slot);
    }

    method Take(slot: int)
      requires Valid() && 0 <= slot < SOCKPOOL_SIZE && slot !in serves
      modifies this`count, this`serves, taken
      ensures Valid() && serves == old(serves)[slot := -1]
    {
      assert About(serves);
      taken[slot] := true;
      count := count + 1;
      serves := serves[slot := -1];
      assert Marked(serves);
    }

    /** The socket's pair is set, as prepare_to_send does. */
    method Serve(slot: int, pair: int)
      requires Valid() && slot in serves
      modifies repr
      ensures Valid() && serves == old(serves)[slot := pair]
    {
      assert About(serves);
      cp[slot] := pair;
      serves := serves[slot := pair];
      assert Marked(serves);
    }

    /** free_socket, for a socket that is taken. */
    method FreeSocket(slot: int)
      requires Valid() && slot in serves
      modifies repr
      ensures Valid() && serves == old(serves) - {slot}
    {
      assert About(serves);
      taken[slot] := false;
      cp[slot] := -1;
      count := count - 1;
      serves := serves - {slot};
      assert Marked(serves);
    }

    /** Whether a socket is taken, and the pair it serves. */
    method PairOf(slot: int) returns (inUse: bool, pair: int)
      requires Valid() && 0 <= slot < SOCKPOOL_SIZE
      ensures (inUse <==> slot in serves) && pair == if slot in serves then serves[slot] else -1
    {
      assert About(serves);
      inUse, pair := taken[slot], cp[slot];
    }
  }
}
