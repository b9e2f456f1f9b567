/** Fixed pools probed round robin and the intrusive doubly linked lists through their objects (r2p2/mempool.c). */
module Mempool {
  import opened Collections
  import opened Probing

  class FixedObj {
    const slot: int  // its place in the pool, standing for its address
    var taken: bool
    var owner: FixedMempool?
    var next: FixedObj?
    var prev: FixedObj?

    constructor (slot: int)
      ensures this.slot == slot && !taken
    {
      this.slot := slot;
      taken := false;
    }
  }

  class FixedMempool {
    const size: nat
    const elems: seq<FixedObj>
    ghost const objs: set<FixedObj>
    var count: int
    var idx: nat
    ghost var used: set<int>  // the slots taken

    /** The objects marked taken are those of the slots in u, and they know their pool. */
    ghost predicate Marked(u: set<int>)
      reads objs`taken, objs`owner
    {
      && |elems| == size
      && (forall i :: 0 <= i < size ==> elems[i] in objs && elems[i].slot == i)
      && (forall i :: 0 <= i < size ==> (elems[i].taken <==> i in u))
      && (forall i :: i in u ==> 0 <= i < size && elems[i].owner == this)
    }

    ghost predicate Valid()
      reads this, objs`taken, objs`owner
    {
      && PowerOfTwo(size) && size <= WORD && |elems| == size && idx < WORD && count == |used|
      && forall x {:trigger About(x)} :: x == used ==> Marked(x)
    }

    /** create_mempool, with every slot free. */
    constructor (size: nat)
      requires PowerOfTwo(size) && size <= WORD
      ensures Valid() && this.size == size && used == {} && fresh(objs)
    {
      var made: seq<FixedObj> := [];
      ghost var all: set<FixedObj> := {};
      for i := 0 to size
        invariant |made| == i && fresh(all)
        invariant forall j :: 0 <= j < i ==> made[j] in all && made[j].slot == j && !made[j].taken
      {
        var o := new FixedObj(i);
        made, all := made + [o], all + {o};
      }
      this.size, elems, objs, count, idx, used := size, made, all, 0, 0, {};
      new;
      assert Marked({});
    }

    /**
     Looking from the index on for a free slot. Where one exists it is found within one turn of the pool, and every
     slot looked at before it was taken.
     */
    method FindFree() returns (slot: nat, ghost probes: nat)
      requires Valid() && count < size
      modifies this`idx
      ensures Valid() && idx == Bumps(old(idx), probes + 1) && probes < size
      ensures Searched(used, old(idx), size, probes, slot) && slot !in used
    {
      assert About(used);
      FreeIndex(used, size);
      ghost var free :| 0 <= free < size && free !in used;
      SearchStart(used, idx, size);
      slot := And(idx, size - 1);
      probes := 0;
      ghost var start := slot;
      idx := Bump(idx);
      while elems[slot].taken
        invariant idx < WORD && idx == Bumps(old(idx), probes + 1) && Searched(used, old(idx), size, probes, slot)
        invariant probes + Ahead(slot, free, size) == Ahead(start, free, size)
        decreases Ahead(slot, free, size)
      {
        SearchStep(used, old(idx), size, probes, slot);
        AheadStep(slot, free, size);
        slot := And(idx, size - 1);
        probes := probes + 1;
        idx := Bump(idx);
      }
    }

    /** alloc_object: null exactly when the pool is full, otherwise an object that was free, and unlinked. */
    method Alloc() returns (obj: FixedObj?)
      requires Valid()
      modifies this, objs
      ensures Valid() && (obj == null <==> |old(used)| == size)
      ensures obj == null ==> used == old(used) && idx == old(idx)
      ensures obj != null ==> IsElem(obj) && obj in objs && obj.slot !in old(used) && used == old(used) + {obj.slot}
      ensures obj != null ==> obj.taken && obj.next == null && obj.prev == null
      ensures forall o :: o in objs && o != obj ==> unchanged(o)
    {
      if count >= size {
        assert About(used);
        SubsetSize(used, Range(size));
        return null;
      }
      var i, probes := FindFree();
      assert About(used);
      obj := elems[i];
      Take(obj);
    }

    predicate IsElem(obj: FixedObj) {
      0 <= obj.slot < |elems| && elems[obj.slot] == obj
    }

    /** A slot in use, seen from its object. */
    lemma TakenObject(slot: int)
      requires Valid() && slot in used
      ensures 0 <= slot < size && IsElem(elems[slot]) && elems[slot].slot == slot && elems[slot] in objs
      ensures elems[slot].taken && elems[slot].owner == this
    {
      assert About(used);
    }

    method Take(obj: FixedObj)
      requires Valid() && IsElem(obj) && obj.slot !in used
      modifies this`count, this`used, obj
      ensures Valid() && used == old(used) + {obj.slot} && obj.taken && obj.next == null && obj.prev == null
    {
      assert About(used);
      obj.taken := true;
      obj.owner := this;
      obj.next, obj.prev := null, null;
      count := count + 1;
      used := used + {obj.slot};
      assert Marked(used);
    }

    /** free_object, for an object of this pool that is taken. */
    method Free(obj: FixedObj)
      requires Valid() && IsElem(obj) && obj.slot in used
      modifies this`count, this`used, obj
      ensures Valid() && used == old(used) - {obj.slot} && old(count) > 0
      ensures !obj.taken && obj.next == null && obj.prev == null
    {
      assert About(used);
      obj.taken := false;
      obj.next, obj.prev := null, null;
      assert count > 0;
      count := count - 1;
      used := used - {obj.slot};
      assert Marked(used);
    }
  }

  // ----- lists -----

  class FixedLinkedList {
    var head: FixedObj?
    var tail: FixedObj?
    ghost var nodes: seq<FixedObj>

    /** The list is the doubly linked, null-terminated chain of these nodes, none of them twice. */
    ghost predicate Chains(nodes: seq<FixedObj>)
      reads this, nodes`next, nodes`prev
    {
      && (forall i, j :: 0 <= i < j < |nodes| ==> nodes[i] != nodes[j])
      && (forall i {:trigger Linked(nodes, i)} :: 0 <= i < |nodes| ==> Linked(nodes, i))
      && head == At(nodes, 0) && tail == At(nodes, |nodes| - 1)
    }

    ghost predicate Valid()
      reads this, nodes`next, nodes`prev
    {
      forall x {:trigger About(x)} :: x == nodes ==> Chains(x)
    }

    static ghost function At(s: seq<FixedObj>, i: int): FixedObj? {
      if 0 <= i < |s| then s[i] else null
    }

    static ghost predicate Linked(s: seq<FixedObj>, i: int)
      requires 0 <= i < |s|
      reads s`next, s`prev
    {
      s[i].prev == At(s, i - 1) && s[i].next == At(s, i + 1)
    }

    constructor ()
      ensures Valid() && nodes == []
    {
      head, tail, nodes := null, null, [];
      new;
      assert Chains(nodes);
    }

    method Add(obj: FixedObj)
      requires Valid() && obj !in nodes
      modifies this, obj`next, obj`prev, (if tail == null then {} else {tail})`next
      ensures Valid() && nodes == old(nodes) + [obj]
    {
      ghost var s := nodes;
      assert About(s) && forall i :: 0 <= i < |s| ==> Linked(s, i);
      if tail != null {
        tail.next := obj;
        obj.prev := tail;
        tail := obj;
      } else {
        tail := obj;
        head := obj;
        obj.prev := null;
      }
      obj.next := null;
      nodes := nodes + [obj];
      forall i | 0 <= i < |nodes|
        ensures Linked(nodes, i)
      {
        if i < |s| {
          assert old(Linked(s, i));
        }
      }
      assert Chains(nodes);
    }

    /** Removing a listed object unlinks exactly it; removing one that was never linked changes nothing. */
    method Remove(obj: FixedObj, ghost at: int)
      requires Valid()
      requires if obj in nodes then 0 <= at < |nodes| && nodes[at] == obj else obj.next == null && obj.prev == null
      modifies this, (if obj.prev == null then {} else {obj.prev})`next
      modifies (if obj.next == null then {} else {obj.next})`prev
      ensures Valid() && nodes == if obj in old(nodes) then Without(old(nodes), at) else old(nodes)
    {
      ghost var s := nodes;
      assert About(s) && (obj in s ==> Linked(s, at));
      assert obj !in s ==> obj != head && obj != tail;
      if obj == head {
        head := obj.next;
      }
      if obj == tail {
        tail := obj.prev;
      }
      if obj.prev != null {
        obj.prev.next := obj.next;
      }
      if obj.next != null {
        obj.next.prev := obj.prev;
      }
      if obj in nodes {
        nodes := nodes[..at] + nodes[at + 1..];
        forall i | 0 <= i < |nodes|
          ensures Linked(nodes, i)
        {
          assert old(Linked(s, at)) && old(Linked(s, if i < at then i else i + 1));
        }
      }
      assert Chains(nodes);
    }
  }
}
