/**
 The pairs of one kind: a pool of them and the list of those that are pending, threaded through the same objects
 (alloc_client_pair, alloc_server_pair, the pending-list operations, and the freeing of a pair's object).
 */
module PairTable {
  import opened Collections
  import opened Probing
  import opened Mempool

  const POOL_SIZE := 65536

  lemma PoolSizeIsPower()
    ensures PowerOfTwo(POOL_SIZE)
  {
    assert PowerOfTwo(16);
    PowerProduct(16, 16);
    PowerProduct(256, 256);
  }

  /** The objects of these slots. */
  ghost function Objects(elems: seq<FixedObj>, ids: seq<int>): seq<FixedObj>
    requires InRange(ids, |elems|)
  {
    seq(|ids|, i requires 0 <= i < |ids| && 0 <= ids[i] < |elems| => elems[ids[i]])
  }

  ghost predicate InRange(ids: seq<int>, n: nat) {
    forall i :: 0 <= i < |ids| ==> 0 <= ids[i] < n
  }

  lemma ObjectsWithout(elems: seq<FixedObj>, ids: seq<int>, i: nat)
    requires InRange(ids, |elems|) && i < |ids|
    ensures InRange(Without(ids, i), |elems|) && Objects(elems, Without(ids, i)) == Without(Objects(elems, ids), i)
  {
  }

  class PairTable<R> {
    const pool: FixedMempool
    const list: FixedLinkedList
    ghost const repr: set<object>
    var recs: map<int, R>       // what the taken objects hold, by slot
    ghost var pending: seq<int> // the slots on the list
    ghost var newest: int       // a pair just allocated and on no list yet, or -1

    /** The taken slots are the live pairs, and the list runs through the objects of pending ones. */
    ghost predicate Valid()
      reads this, repr
    {
      && repr == {this, pool, list} + pool.objs
      && pool.size == |pool.elems| == POOL_SIZE && pool.Valid() && recs.Keys == pool.used
      && AllIn(list.nodes, pool.objs) && list.Valid()
      && AllIn(pending, recs.Keys) && InRange(pending, POOL_SIZE) && list.nodes == Objects(pool.elems, pending)
      && (newest != -1 ==> newest in recs && newest !in pending && Unlinked(newest))
    }

    /** The object of this slot has no links. */
    ghost predicate Unlinked(slot: int)
      reads pool.objs`next, pool.objs`prev
    {
      && 0 <= slot < |pool.elems| && pool.elems[slot] in pool.objs
      && pool.elems[slot].next == null && pool.elems[slot].prev == null
    }

    constructor ()
      ensures Valid() && recs == map[] && pending == [] && fresh(repr)
    {
      PoolSizeIsPower();
      var p := new FixedMempool(POOL_SIZE);
      var l := new FixedLinkedList();
      pool, list, repr := p, l, {this, p, l} + p.objs;
      recs, pending, newest := map[], [], -1;
      new;
    }

    lemma ListedArePending()
      requires Valid()
      ensures forall o :: o in list.nodes ==> o.slot in pending
    {
      forall o | o in list.nodes
        ensures o.slot in pending
      {
        var i :| 0 <= i < |list.nodes| && list.nodes[i] == o;
        assert pending[i] in pending;
        pool.TakenObject(pending[i]);
      }
    }

    /** alloc_object: the list does not run through the object it returns. */
    method Claim() returns (obj: FixedObj?)
      requires Valid()
      modifies pool, pool.objs
      ensures pool.Valid() && list.Valid() && (obj == null <==> |old(recs)| == POOL_SIZE)
      ensures obj == null ==> pool.used == old(pool.used)
      ensures obj != null ==> obj.slot !in old(recs) && pool.used == old(pool.used) + {obj.slot} && Unlinked(obj.slot)
    {
      ListedArePending();
      assert |recs.Keys| == |pool.used|;
      obj := pool.Alloc();
      assert obj !in list.nodes;
    }

    /** alloc_object, and the pair written into what it returns; -1 for null. */
    method Alloc(r: R) returns (slot: int)
      requires Valid()
      modifies repr
      ensures Valid() && pending == old(pending) && (slot == -1 <==> |old(recs)| == POOL_SIZE)
      ensures slot == -1 ==> recs == old(recs)
      ensures slot != -1 ==> slot !in old(recs) && recs == old(recs)[slot := r] && newest == slot
    {
      var obj := Claim();
      if obj == null {
        newest := -1;
        return -1;
      }
      slot := obj.slot;
      recs, newest := recs[slot := r], slot;
    }

    /** free_object, for a pair that is not on the list. */
    method Free(slot: int)
      requires Valid() && slot in recs && slot !in pending
      modifies repr
      ensures Valid() && pending == old(pending) && recs == old(recs) - {slot}
    {
      ListedArePending();
      pool.TakenObject(slot);
      pool.Free(pool.elems[slot]);
      recs, newest := recs - {slot}, -1;
    }

    /** The fields of a pair change. */
    method Put(slot: int, r: R)
      requires Valid() && slot in recs
      modifies this
      ensures Valid() && pending == old(pending) && newest == old(newest) && recs == old(recs)[slot := r]
    {
      recs := recs[slot := r];
    }

    /** add_to_list. */
    method Append(slot: int)
      requires Valid() && slot in recs && slot !in pending
      modifies repr
      ensures Valid() && pending == old(pending) + [slot] && recs == old(recs)
    {
      ListedArePending();
      pool.TakenObject(slot);
      assert About(list.nodes) && (list.tail != null ==> list.tail in list.nodes);
      list.Add(pool.elems[slot]);
      pending, newest := pending + [slot], -1;
    }

    /** remove_from_list, for the pair at a position of the list. */
    method Remove(slot: int, ghost at: int)
      requires Valid() && 0 <= at < |pending| && pending[at] == slot
      modifies repr
      ensures Valid() && recs == old(recs) && pending == Without(old(pending), at)
    {
      ObjectsWithout(pool.elems, pending, at);
      WithoutAllIn(list.nodes, pool.objs, at);
      WithoutAllIn(pending, recs.Keys, at);
      Unlink(slot, at);
      pending, newest := Without(pending, at), -1;
    }

    method Unlink(slot: int, ghost at: int)
      requires Valid() && 0 <= at < |pending| && pending[at] == slot
      modifies list, pool.objs`next, pool.objs`prev
      ensures list.nodes == Without(old(list.nodes), at)
      ensures list.Valid()
    {
      assert slot in pending;
      pool.TakenObject(slot);
      ghost var nodes := list.nodes;
      assert About(nodes) && FixedLinkedList.Linked(nodes, at);
      assert at > 0 ==> nodes[at - 1] in nodes;
      assert at + 1 < |nodes| ==> nodes[at + 1] in nodes;
      list.Remove(pool.elems[slot], at);
    }

    /** remove_from_list, for a pair that was never listed: nothing changes. */
    method RemoveUnlisted(slot: int)
      requires Valid() && newest == slot != -1
      modifies repr
      ensures Valid() && recs == old(recs) && pending == old(pending)
    {
      ListedArePending();
      pool.TakenObject(slot);
      list.Remove(pool.elems[slot], 0);
    }

    /** The first pair of the list, -1 for null. */
    method Head() returns (slot: int)
      requires Valid()
      ensures slot == (if pending == [] then -1 else pending[0]) && (slot == -1 <==> pending == [])
    {
      assert About(list.nodes);
      if list.head == null { return -1; }
      pool.TakenObject(pending[0]);
      slot := list.head.slot;
    }

    /** The pair after the one at position i, which is given by its slot. */
    method Next(slot: int, ghost i: int) returns (next: int)
      requires Valid() && 0 <= i < |pending| && pending[i] == slot
      ensures next == (if i + 1 == |pending| then -1 else pending[i + 1]) && (next == -1 <==> i + 1 == |pending|)
    {
      assert About(list.nodes) && FixedLinkedList.Linked(list.nodes, i);
      if pool.elems[slot].next == null { return -1; }
      pool.TakenObject(pending[i + 1]);
      next := pool.elems[slot].next.slot;
    }

    /** The list is a doubly linked chain, without repetition, of pairs that are taken from this pool. */
    ghost predicate ListsLivePairs()
      reads this, list, list.nodes
    {
      list.Chains(list.nodes) && forall o :: o in list.nodes ==> o.taken && o.owner == pool && o.slot in recs
    }

    lemma ListIsLive()
      requires Valid()
      ensures ListsLivePairs() && pool.used == recs.Keys && pool.count == |recs|
    {
      assert About(list.nodes);
      forall o | o in list.nodes
        ensures o.taken && o.owner == pool && o.slot in recs
      {
        var i :| 0 <= i < |list.nodes| && list.nodes[i] == o;
        assert pending[i] in pending;
        pool.TakenObject(pending[i]);
      }
      assert |pool.used| == |recs.Keys|;
    }
  }
}
