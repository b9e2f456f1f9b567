/**
 The bounded-queue policy JBSQ(n) of the router (dpdk-apps/r2p2-router.c).
 A feedback core hands out tokens at any moment; the routing core dispatches from a stale snapshot of them.
 */
module Jbsq {
  import opened Buckets
  import opened Collections
  import opened PendingQueue
  import Wire

  const BUFFER_CNT_THRES := 2
  const NOBODY := -1

  /** The arrays target_group, target_group_count and group_idx. */
  class BucketTable {
    const n: nat
    const count: nat
    const group: array2<int>
    const groupCount: array<int>
    const groupIdx: array<int>
    ghost var t: Table

    /** The arrays hold table t. */
    ghost predicate Holds(t: Table)
      reads group, groupCount, groupIdx
    {
      && group.Length0 == groupCount.Length == groupIdx.Length == n && group.Length1 == count
      && |t.rows| == |t.idx| == n
      && (forall k :: 0 <= k < n ==> groupCount[k] == |t.rows[k]| && groupIdx[k] == t.idx[k])
      && (forall k :: 0 <= k < n ==> |t.rows[k]| <= count)
      && (forall k, p :: 0 <= k < n && 0 <= p < |t.rows[k]| ==> group[k, p] == t.rows[k][p])
    }

    ghost predicate Valid()
      reads this, group, groupCount, groupIdx
    {
      && groupCount != groupIdx
      && TableOk(t, n, count)
      && forall x {:trigger About(x)} :: x == t ==> Holds(x)
    }

    constructor (n: nat, count: nat)
      ensures Valid() && this.n == n && this.count == count && t == Empty(n, count)
      ensures fresh(group) && fresh(groupCount) && fresh(groupIdx)
    {
      this.n, this.count := n, count;
      group := new int[n, count];
      groupCount := new int[n](_ => 0);
      groupIdx := new int[n](_ => 0);
      t := Empty(n, count);
      EmptyOk(n, count, 0);
      new;
      assert Holds(t);
    }

    method Clear()
      requires Valid()
      modifies this, groupCount, groupIdx
      ensures Valid() && t == Empty(n, count)
    {
      assert About(t);
      for k := 0 to n
        invariant forall j :: 0 <= j < k ==> groupCount[j] == 0 && groupIdx[j] == 0
      {
        groupCount[k], groupIdx[k] := 0, 0;
      }
      t := Empty(n, count);
      EmptyOk(n, count, 0);
      assert Holds(t);
    }

    method Put(k: int, w: int)
      requires Valid() && 0 <= k < n && 0 <= w < count && t.snap[w] == 0
      requires forall j :: 0 <= j < n ==> w !in t.rows[j]
      modifies this, group, groupCount
      ensures Valid() && t == Add(old(t), k, w)
    {
      assert About(t);
      AddOk(t, n, count, k, w);
      RowFits(t, n, count, k);
      group[k, groupCount[k]] := w;
      groupCount[k] := groupCount[k] + 1;
      t := Add(t, k, w);
      RowFits(t, n, count, k);
      assert Holds(t);
    }

    method HasLive(k: int) returns (has: bool)
      requires Valid() && 0 <= k < n
      ensures has <==> Live(t, k) > 0
    {
      assert About(t);
      has := groupIdx[k] < groupCount[k];
    }

    /** The next worker of row k, moved to the row below. */
    method Next(k: int) returns (w: int)
      requires Valid() && 0 <= k < n && Live(t, k) > 0
      modifies this, group, groupCount, groupIdx
      ensures old(0 <= t.idx[k]) && w == old(t.rows[k][t.idx[k]]) && 0 <= w < count
      ensures Valid() && t == Take(old(t), k) && old(t).snap[w] == k + 1
    {
      assert About(t) && RowOk(t, k);
      TakeOk(t, n, count, k);
      w := group[k, groupIdx[k]];
      groupIdx[k] := groupIdx[k] + 1;
      if k > 0 {
        group[k - 1, groupCount[k - 1]] := w;
        groupCount[k - 1] := groupCount[k - 1] + 1;
      }
      t := Take(t, k);
      assert Holds(t);
    }
  }

  datatype Target = Target(ip: int, port: int)

  /** One routed packet: where it went, and what every worker had left of the snapshot at that moment. */
  datatype Choice = Choice(pkt: Mbuf, worker: int, slots: seq<int>)

  ghost predicate Greedy(c: Choice) {
    && 0 <= c.worker < |c.slots| && c.slots[c.worker] > 0
    && forall v :: 0 <= v < |c.slots| ==> c.slots[v] <= c.slots[c.worker]
  }

  /** How many packets went to worker w. */
  ghost function Times(trace: seq<Choice>, w: int): nat {
    if trace == [] then 0
    else Times(trace[..|trace| - 1], w) + if trace[|trace| - 1].worker == w then 1 else 0
  }

  lemma TimesSnoc(trace: seq<Choice>, c: Choice, w: int)
    ensures Times(trace + [c], w) == Times(trace, w) + if c.worker == w then 1 else 0
  {
    assert (trace + [c])[..|trace|] == trace;
  }

  function Max0(x: int): int {
    if x > 0 then x else 0
  }

  datatype Arrival = Arrival(policy: Wire.Policy, data: int)

  function Direct(direct: nat, w: int): int {
    if w == 0 then direct else 0
  }

  /**
   Worker w: requests sent are the ones dispatched to it; what is left of the snapshot never lets them overtake
   the tokens, but for direct packets; and tokens never run more than n ahead.
   */
  ghost predicate WorkerBounded(tokens: seq<int>, left: seq<int>, snap: seq<int>, trace: seq<Choice>, direct: nat,
                                n: nat, w: int)
    requires 0 <= w < |tokens| == |left| == |snap|
  {
    && left[w] == Times(trace, w) + Direct(direct, w)
    && left[w] + snap[w] <= tokens[w] + Direct(direct, w)
    && tokens[w] <= left[w] + n
  }

  ghost predicate Bounded(tokens: seq<int>, left: seq<int>, snap: seq<int>, trace: seq<Choice>, direct: nat, n: nat) {
    && |tokens| == |left| == |snap|
    && forall w {:trigger WorkerBounded(tokens, left, snap, trace, direct, n, w)} ::
         0 <= w < |tokens| ==> WorkerBounded(tokens, left, snap, trace, direct, n, w)
  }

  lemma BoundedToken(tokens: seq<int>, left: seq<int>, snap: seq<int>, trace: seq<Choice>, direct: nat, n: nat, i: int)
    requires Bounded(tokens, left, snap, trace, direct, n) && 0 <= i < |tokens| && tokens[i] < left[i] + n
    ensures Bounded(tokens[i := tokens[i] + 1], left, snap, trace, direct, n)
  {
    var tokens' := tokens[i := tokens[i] + 1];
    forall w | 0 <= w < |tokens|
      ensures WorkerBounded(tokens', left, snap, trace, direct, n, w)
    {
      assert WorkerBounded(tokens, left, snap, trace, direct, n, w);
    }
  }

  lemma BoundedReset(tokens: seq<int>, left: seq<int>, t: Table, trace: seq<Choice>, direct: nat, n: nat)
    requires Bounded(tokens, left, t.snap, trace, direct, n) && TableOk(t, n, |tokens|)
    ensures Bounded(tokens, left, Empty(n, |tokens|).snap, trace, direct, n)
  {
    var snap' := Empty(n, |tokens|).snap;
    forall w | 0 <= w < |tokens|
      ensures WorkerBounded(tokens, left, snap', trace, direct, n, w)
    {
      assert WorkerBounded(tokens, left, t.snap, trace, direct, n, w) && WorkerOk(t, w);
    }
  }

  lemma BoundedSnap(tokens: seq<int>, left: seq<int>, snap: seq<int>, trace: seq<Choice>, direct: nat, n: nat,
                    i: int, avail: int)
    requires Bounded(tokens, left, snap, trace, direct, n) && 0 <= i < |tokens| && avail <= tokens[i] - left[i]
    ensures Bounded(tokens, left, snap[i := avail], trace, direct, n)
  {
    var snap' := snap[i := avail];
    forall w | 0 <= w < |tokens|
      ensures WorkerBounded(tokens, left, snap', trace, direct, n, w)
    {
      assert WorkerBounded(tokens, left, snap, trace, direct, n, w);
    }
  }

  lemma BoundedDirect(tokens: seq<int>, left: seq<int>, snap: seq<int>, trace: seq<Choice>, direct: nat, n: nat)
    requires Bounded(tokens, left, snap, trace, direct, n) && tokens != []
    ensures Bounded(tokens, left[0 := left[0] + 1], snap, trace, direct + 1, n)
  {
    var left', direct' := left[0 := left[0] + 1], direct + 1;
    forall w | 0 <= w < |tokens|
      ensures WorkerBounded(tokens, left', snap, trace, direct', n, w)
    {
      assert WorkerBounded(tokens, left, snap, trace, direct, n, w);
    }
  }

  lemma BoundedTake(tokens: seq<int>, left: seq<int>, snap: seq<int>, trace: seq<Choice>, direct: nat, n: nat,
                    c: Choice)
    requires Bounded(tokens, left, snap, trace, direct, n) && 0 <= c.worker < |tokens|
    ensures var i := c.worker; Bounded(tokens, left[i := left[i] + 1], snap[i := snap[i] - 1], trace + [c], direct, n)
  {
    var i := c.worker;
    var left', snap', trace' := left[i := left[i] + 1], snap[i := snap[i] - 1], trace + [c];
    forall w | 0 <= w < |tokens|
      ensures WorkerBounded(tokens, left', snap', trace', direct, n, w)
    {
      assert WorkerBounded(tokens, left, snap, trace, direct, n, w);
      TimesSnoc(trace, c, w);
    }
  }

  ghost predicate Grown(before: seq<int>, now: seq<int>) {
    |before| == |now| && forall w :: 0 <= w < |now| ==> before[w] <= now[w]
  }

  /** The first i workers were read some time between two moments; the others have not been read. */
  ghost predicate Snapshot(before: seq<int>, now: seq<int>, sent: seq<int>, t: Table, i: int) {
    && |before| == |now| == |sent| == |t.snap|
    && Grown(before, now)
    && (forall w :: 0 <= w < i && w < |now| ==> Max0(before[w] - sent[w]) <= t.snap[w] <= Max0(now[w] - sent[w]))
    && (forall w :: 0 <= i <= w < |now| ==> t.snap[w] == 0)
    && (forall k {:trigger RowBelow(t, k, i)} :: 0 <= k < |t.rows| ==> RowBelow(t, k, i))
  }

  ghost predicate RowBelow(t: Table, k: int, i: int)
    requires 0 <= k < |t.rows|
  {
    forall p :: 0 <= p < |t.rows[k]| ==> t.rows[k][p] < i
  }

  lemma SnapshotLater(before: seq<int>, now: seq<int>, later: seq<int>, sent: seq<int>, t: Table, i: int)
    requires Snapshot(before, now, sent, t, i) && Grown(now, later)
    ensures Snapshot(before, later, sent, t, i)
  {
  }

  lemma SnapshotSkip(before: seq<int>, now: seq<int>, sent: seq<int>, t: Table, i: int)
    requires Snapshot(before, now, sent, t, i) && 0 <= i < |now| && now[i] - sent[i] < 1
    ensures Snapshot(before, now, sent, t, i + 1)
  {
    var next := i + 1;
    forall k | 0 <= k < |t.rows|
      ensures RowBelow(t, k, next)
    {
      assert RowBelow(t, k, i);
    }
  }

  lemma SnapshotAdd(before: seq<int>, now: seq<int>, sent: seq<int>, t: Table, i: int)
    requires Snapshot(before, now, sent, t, i) && 0 <= i < |now| && 1 <= now[i] - sent[i] <= |t.rows|
    ensures Snapshot(before, now, sent, Add(t, now[i] - sent[i] - 1, i), i + 1)
    ensures forall k :: 0 <= k < |t.rows| ==> i !in t.rows[k]
  {
    var u, next := Add(t, now[i] - sent[i] - 1, i), i + 1;
    forall k | 0 <= k < |t.rows|
      ensures RowBelow(u, k, next) && i !in t.rows[k]
    {
      assert RowBelow(t, k, i);
    }
  }

  /** Routed packets leave once each, in order of arrival, greedily. */
  ghost predicate Fifo(arrived: seq<Mbuf>, trace: seq<Choice>, waiting: seq<Mbuf>) {
    && |arrived| == |trace| + |waiting|
    && arrived[|trace|..] == waiting
    && forall i :: 0 <= i < |trace| ==> trace[i].pkt == arrived[i] && Greedy(trace[i])
  }

  lemma FifoArrive(arrived: seq<Mbuf>, trace: seq<Choice>, waiting: seq<Mbuf>, pkt: Mbuf)
    requires Fifo(arrived, trace, waiting)
    ensures Fifo(arrived + [pkt], trace, waiting + [pkt])
  {
    assert (arrived + [pkt])[|trace|..] == arrived[|trace|..] + [pkt];
  }

  lemma FifoLeave(arrived: seq<Mbuf>, trace: seq<Choice>, waiting: seq<Mbuf>, c: Choice, rest: seq<Mbuf>)
    requires Fifo(arrived, trace, waiting) && waiting == [c.pkt] + rest && Greedy(c)
    ensures Fifo(arrived, trace + [c], rest)
  {
    assert arrived[|trace| + 1..] == arrived[|trace|..][1..] == rest;
    assert arrived[|trace|] == arrived[|trace|..][0];
  }

  /** Everything the routing and the feedback core know, as one value. */
  datatype Books = Books(tokens: seq<int>, left: seq<int>, t: Table, avail: int, idle: int,
                         arrived: seq<Mbuf>, trace: seq<Choice>, waiting: seq<Mbuf>, direct: nat)

  /** avail_slots counts the live entries of all rows by their worth, idle_slots those of the top row. */
  ghost predicate Balanced(b: Books, n: nat) {
    && n >= 1 && b.tokens != [] && TableOk(b.t, n, |b.tokens|)
    && b.avail == Slots(b.t, n) && b.idle == Live(b.t, n - 1)
    && Bounded(b.tokens, b.left, b.t.snap, b.trace, b.direct, n)
    && Fifo(b.arrived, b.trace, b.waiting)
  }

  ghost predicate BalancedQuietly(b: Books, n: nat) {
    forall x {:trigger About(x)} :: x == b ==> Balanced(x, n)
  }

  lemma QuietIsBalanced(b: Books, n: nat)
    ensures BalancedQuietly(b, n) <==> Balanced(b, n)
  {
    assert About(b);
  }

  lemma StartBalanced(b: Books, n: nat)
    requires n >= 1 && b.tokens != [] && |b.tokens| == |b.left| && b.t == Empty(n, |b.tokens|)
    requires forall w :: 0 <= w < |b.tokens| ==> b.tokens[w] == n && b.left[w] == 0
    requires b.avail == b.idle == 0 && b.arrived == [] && b.trace == [] && b.waiting == [] && b.direct == 0
    ensures BalancedQuietly(b, n)
  {
    QuietIsBalanced(b, n);
    EmptyOk(n, |b.tokens|, n);
    forall w | 0 <= w < |b.tokens|
      ensures WorkerBounded(b.tokens, b.left, b.t.snap, b.trace, b.direct, n, w)
    {
    }
  }

  lemma TokenBalanced(b: Books, n: nat, i: int)
    requires BalancedQuietly(b, n) && 0 <= i < |b.tokens| && i < |b.left| && b.tokens[i] < b.left[i] + n
    ensures BalancedQuietly(b.(tokens := b.tokens[i := b.tokens[i] + 1]), n)
  {
    QuietIsBalanced(b, n);
    QuietIsBalanced(b.(tokens := b.tokens[i := b.tokens[i] + 1]), n);
    BoundedToken(b.tokens, b.left, b.t.snap, b.trace, b.direct, n, i);
  }

  lemma ArriveBalanced(b: Books, n: nat, pkt: Mbuf)
    requires BalancedQuietly(b, n)
    ensures BalancedQuietly(b.(arrived := b.arrived + [pkt], waiting := b.waiting + [pkt]), n)
  {
    QuietIsBalanced(b, n);
    QuietIsBalanced(b.(arrived := b.arrived + [pkt], waiting := b.waiting + [pkt]), n);
    FifoArrive(b.arrived, b.trace, b.waiting, pkt);
  }

  lemma ResetBalanced(b: Books, n: nat)
    requires BalancedQuietly(b, n)
    ensures BalancedQuietly(b.(t := Empty(n, |b.tokens|), avail := 0, idle := 0), n)
  {
    QuietIsBalanced(b, n);
    QuietIsBalanced(b.(t := Empty(n, |b.tokens|), avail := 0, idle := 0), n);
    BoundedReset(b.tokens, b.left, b.t, b.trace, b.direct, n);
    EmptyOk(n, |b.tokens|, n);
  }

  function Added(b: Books, n: nat, w: int, avail: int): Books
    requires 0 < avail <= |b.t.rows| && 0 <= w < |b.t.snap|
  {
    b.(t := Add(b.t, avail - 1, w), avail := b.avail + avail, idle := b.idle + if avail == n then 1 else 0)
  }

  lemma AddBalanced(b: Books, n: nat, w: int, avail: int)
    requires BalancedQuietly(b, n) && 0 <= w < |b.tokens| && w < |b.left| && w < |b.t.snap| && |b.t.rows| == n
    requires 1 <= avail <= n && avail <= b.tokens[w] - b.left[w]
    requires b.t.snap[w] == 0 && forall k :: 0 <= k < n ==> w !in b.t.rows[k]
    ensures BalancedQuietly(Added(b, n, w, avail), n)
  {
    QuietIsBalanced(b, n);
    QuietIsBalanced(Added(b, n, w, avail), n);
    BoundedSnap(b.tokens, b.left, b.t.snap, b.trace, b.direct, n, w, avail);
    AddOk(b.t, n, |b.tokens|, avail - 1, w);
    SlotsAdd(b.t, avail - 1, w, n);
  }

  lemma DirectBalanced(b: Books, n: nat)
    requires BalancedQuietly(b, n) && b.left != []
    ensures BalancedQuietly(b.(left := b.left[0 := b.left[0] + 1], direct := b.direct + 1), n)
  {
    QuietIsBalanced(b, n);
    QuietIsBalanced(b.(left := b.left[0 := b.left[0] + 1], direct := b.direct + 1), n);
    BoundedDirect(b.tokens, b.left, b.t.snap, b.trace, b.direct, n);
  }

  /** The oldest waiting packet goes to the first live worker of row k. */
  function Dispatched(b: Books, n: nat, k: int): Books
    requires 0 <= k < |b.t.rows| == |b.t.idx| && 0 <= b.t.idx[k] < |b.t.rows[k]| && b.waiting != []
    requires 0 <= b.t.rows[k][b.t.idx[k]] < |b.t.snap| == |b.left|
  {
    var w := b.t.rows[k][b.t.idx[k]];
    b.(left := b.left[w := b.left[w] + 1], t := Take(b.t, k), avail := b.avail - 1,
       idle := b.idle - if k == n - 1 then 1 else 0,
       trace := b.trace + [Choice(b.waiting[0], w, b.t.snap)], waiting := b.waiting[1..])
  }

  lemma DispatchBalanced(b: Books, n: nat, k: int)
    requires BalancedQuietly(b, n) && |b.t.rows| == |b.t.idx| == n && 0 <= k < n && Live(b.t, k) > 0 && b.waiting != []
    requires forall j :: k < j < n ==> Live(b.t, j) == 0
    ensures 0 <= b.t.idx[k] && 0 <= b.t.rows[k][b.t.idx[k]] < |b.t.snap| == |b.left|
    ensures BalancedQuietly(Dispatched(b, n, k), n)
    ensures forall j :: k < j < n ==> Live(Take(b.t, k), j) == 0
  {
    QuietIsBalanced(b, n);
    assert RowOk(b.t, k);
    TakeOk(b.t, n, |b.tokens|, k);
    var w := b.t.rows[k][b.t.idx[k]];
    var c := Choice(b.waiting[0], w, b.t.snap);
    SlotsTake(b.t, k, n);
    TopOfTable(b.t, n, |b.tokens|, k, w);
    BoundedTake(b.tokens, b.left, b.t.snap, b.trace, b.direct, n, c);
    FifoLeave(b.arrived, b.trace, b.waiting, c, b.waiting[1..]);
    QuietIsBalanced(Dispatched(b, n, k), n);
    assert forall j :: k < j < n ==> Live(Take(b.t, k), j) == Live(b.t, j);
  }

  /** Every slot free when the counters stood at seen has been used or is still in the table. */
  ghost predicate Covers(b: Books, seen: seq<int>) {
    && |seen| == |b.left| == |b.t.snap|
    && forall w :: 0 <= w < |seen| ==> seen[w] <= b.left[w] + b.t.snap[w]
  }

  lemma DispatchCovers(b: Books, n: nat, k: int, seen: seq<int>)
    requires Balanced(b, n) && 0 <= k < n && Live(b.t, k) > 0 && b.waiting != [] && Covers(b, seen)
    requires 0 <= b.t.idx[k] && 0 <= b.t.rows[k][b.t.idx[k]] < |b.left|
    ensures Covers(Dispatched(b, n, k), seen)
  {
    assert RowOk(b.t, k) && EntryOk(b.t, b.t.rows[k][b.t.idx[k]], k, b.t.idx[k] < b.t.idx[k]);
  }

  lemma LeftCovered(b: Books, n: nat)
    requires BalancedQuietly(b, n)
    ensures Covers(b, b.left)
  {
    QuietIsBalanced(b, n);
    forall w | 0 <= w < |b.left|
      ensures b.t.snap[w] >= 0
    {
      assert WorkerOk(b.t, w);
    }
  }

  /** What the counters say after a new snapshot. */
  lemma SnapshotMeans(b: Books, before: seq<int>, n: nat)
    requires BalancedQuietly(b, n) && Snapshot(before, b.tokens, b.left, b.t, |b.tokens|)
    ensures Covers(b, before) && (HasFree(before, b.left) ==> b.avail != 0)
    ensures b.idle != 0 ==> HasIdle(b.tokens, b.left, n)
  {
    QuietIsBalanced(b, n);
    NoSlotsLeft(b.t, n, |b.tokens|);
    NoIdleLeft(b.t, n, |b.tokens|);
  }

  class Router {
    const n: nat                 // per_queue_slots
    const targets: seq<Target>
    const tokens: array<int>
    const sent: array<int>
    const table: BucketTable
    const routed: PendingQueue
    const direct: PendingQueue
    var availSlots: int
    var idleSlots: int
    var left: seq<int>                  // packets on the wire or beyond, by worker; the world's, not the router's
    ghost var leaving: int              // the worker whose last packet is out but not yet in sent, or NOBODY
    ghost var arrived: seq<Mbuf>        // routed packets, in order of arrival
    ghost var trace: seq<Choice>        // routed packets that have left
    ghost var directArrived: seq<Mbuf>
    ghost var directSent: nat
    ghost var bufs: set<Mbuf>           // every packet buffer received so far

    ghost predicate Shape()
      reads this, table
    {
      && n >= 1 && |targets| >= 1 && tokens.Length == sent.Length == |targets|
      && table.n == n && table.count == |targets|
      && tokens != sent && tokens != table.groupCount && tokens != table.groupIdx
      && sent != table.groupCount && sent != table.groupIdx && routed != direct
    }

    ghost predicate QueuesOk()
      reads this, routed, direct, routed.nodes, direct.nodes
    {
      && routed.Valid() && direct.Valid()
      && (forall m :: m in routed.nodes ==> m !in direct.nodes && m in bufs)
      && (forall m :: m in direct.nodes ==> m in bufs)
    }

    /** The routing core counts a packet after it has left; at most one is out and not counted. */
    ghost predicate Counted()
      reads this, sent
    {
      && |left| == sent.Length
      && if leaving == NOBODY then left == sent[..]
         else 0 <= leaving < sent.Length && left == sent[..][leaving := sent[leaving] + 1]
    }

    ghost function Ledger(): Books
      reads this, tokens, table, routed
    {
      Books(tokens[..], left, table.t, availSlots, idleSlots, arrived, trace, routed.nodes, directSent)
    }

    ghost predicate Valid()
      reads this, tokens, sent, table, table.group, table.groupCount, table.groupIdx
      reads routed, direct, routed.nodes, direct.nodes
    {
      && Shape() && table.Valid() && QueuesOk() && Counted()
      && BalancedQuietly(Ledger(), n)
      && directSent <= |directArrived| && directArrived[directSent..] == direct.nodes
    }

    constructor (targets: seq<Target>, perQueueSlots: nat)
      requires targets != [] && perQueueSlots >= 1
      ensures Valid() && this.targets == targets && n == perQueueSlots && leaving == NOBODY
      ensures arrived == [] && trace == [] && directArrived == [] && directSent == 0 && bufs == {}
      ensures forall w :: 0 <= w < |targets| ==> tokens[w] == n && sent[w] == 0
      ensures fresh(tokens) && fresh(sent) && fresh(table) && fresh(table.group)
      ensures fresh(table.groupCount) && fresh(table.groupIdx) && fresh(routed) && fresh(direct)
    {
      this.n, this.targets := perQueueSlots, targets;
      tokens := new int[|targets|];
      sent := new int[|targets|];
      table := new BucketTable(perQueueSlots, |targets|);
      routed := new PendingQueue();
      direct := new PendingQueue();
      availSlots, idleSlots := 0, 0;
      left, leaving := seq(|targets|, _ => 0), NOBODY;
      arrived, trace, directArrived, directSent, bufs := [], [], [], 0, {};
      new;
      InitTokens();
      StartBalanced(Ledger(), n);
    }

    method InitTokens()
      requires tokens != sent && tokens.Length == sent.Length
      modifies tokens, sent
      ensures forall w :: 0 <= w < tokens.Length ==> tokens[w] == n && sent[w] == 0
    {
      for i := 0 to tokens.Length
        invariant forall w :: 0 <= w < i ==> tokens[w] == n && sent[w] == 0
      {
        tokens[i], sent[i] := n, 0;
      }
    }

    // ----- the feedback core -----

    /** i is the first target with this address. */
    predicate IsFirst(src: Target, i: int) {
      0 <= i < |targets| && targets[i] == src && forall j :: 0 <= j < i ==> targets[j] != src
    }

    method FindTarget(src: Target) returns (i: int)
      ensures i == |targets| || IsFirst(src, i)
      ensures src in targets ==> i < |targets|
    {
      i := 0;
      while i < |targets|
        invariant 0 <= i <= |targets| && forall j :: 0 <= j < i ==> targets[j] != src
      {
        if targets[i] == src { return; }
        i := i + 1;
      }
    }

    /** update_tokens, for feedback from a known target about a request that has left for it, counted or not. */
    method UpdateTokens(src: Target, ghost w: int)
      requires Valid() && IsFirst(src, w) && tokens[w] < left[w] + n
      modifies tokens
      ensures Valid() && tokens[..] == old(tokens[..])[w := old(tokens[w]) + 1]
    {
      var i := FindTarget(src);
      TokenBalanced(Ledger(), n, i);
      tokens[i] := tokens[i] + 1;
    }

    /** What the feedback core may do between two steps of the routing core: any number of updates. */
    method Feedback()
      requires Valid()
      modifies tokens
      ensures Valid() && Grown(old(tokens[..]), tokens[..])
    {
      var more: int := *;
      while more > 0
        invariant Valid() && Grown(old(tokens[..]), tokens[..])
      {
        var src: Target := *;
        var i := FindTarget(src);
        if i < |targets| && tokens[i] < left[i] + n {
          UpdateTokens(src, i);
        }
        more := more - 1;
      }
    }

    // ----- the routing core -----

    /** fc_fw_in: queueing a packet that has just arrived; any other policy stops the process. */
    method Receive(a: Arrival) returns (failed: bool, pkt: Mbuf)
      requires Valid()
      modifies this`arrived, this`directArrived, this`bufs, routed, direct, bufs
      ensures failed <==> Refused(a)
      ensures bufs == old(bufs) + {pkt}
      ensures Valid() && fresh(pkt) && pkt.data == a.data
      ensures arrived == old(arrived) + if a.policy == Wire.LbRoute then [pkt] else []
      ensures routed.nodes == old(routed.nodes) + if a.policy == Wire.LbRoute then [pkt] else []
      ensures directArrived == old(directArrived) + if a.policy == Wire.FixedRoute then [pkt] else []
      ensures direct.nodes == old(direct.nodes) + if a.policy == Wire.FixedRoute then [pkt] else []
    {
      failed := false;
      pkt := new Mbuf(a.data);
      bufs := bufs + {pkt};
      if a.policy == Wire.LbRoute {
        PushRouted(pkt);
      } else if a.policy == Wire.FixedRoute {
        PushDirect(pkt);
      } else {
        failed := true;
      }
    }

    method PushRouted(pkt: Mbuf)
      requires Valid() && pkt in bufs && pkt !in routed.nodes && pkt !in direct.nodes
      modifies this`arrived, routed, routed.nodes, pkt
      ensures Valid() && arrived == old(arrived) + [pkt] && routed.nodes == old(routed.nodes) + [pkt]
    {
      ArriveBalanced(Ledger(), n, pkt);
      routed.Push(pkt);
      arrived := arrived + [pkt];
    }

    method PushDirect(pkt: Mbuf)
      requires Valid() && pkt in bufs && pkt !in routed.nodes && pkt !in direct.nodes
      modifies this`directArrived, direct, direct.nodes, pkt
      ensures Valid() && directArrived == old(directArrived) + [pkt] && direct.nodes == old(direct.nodes) + [pkt]
    {
      direct.Push(pkt);
      directArrived := directArrived + [pkt];
    }

    /** Reading every worker's free slots into an empty table, while the feedback core may be adding to them. */
    method Refresh()
      requires Valid() && leaving == NOBODY
      modifies this`availSlots, this`idleSlots, tokens, table, table.group, table.groupCount, table.groupIdx
      ensures Valid() && Snapshot(old(tokens[..]), tokens[..], sent[..], table.t, |targets|)
    {
      Reset();
      var i := 0;
      while i < |targets|
        invariant 0 <= i <= |targets| && Valid()
        invariant Snapshot(old(tokens[..]), tokens[..], sent[..], table.t, i)
      {
        ReadWorker(i, old(tokens[..]));
        i := i + 1;
      }
    }

    /** One worker's free slots, read after whatever the feedback core did in the meantime. */
    method ReadWorker(i: int, ghost before: seq<int>)
      requires Valid() && leaving == NOBODY && 0 <= i < |targets| && Snapshot(before, tokens[..], sent[..], table.t, i)
      modifies this`availSlots, this`idleSlots, tokens, table, table.group, table.groupCount
      ensures Valid() && Snapshot(before, tokens[..], sent[..], table.t, i + 1)
    {
      ghost var now := tokens[..];
      Feedback();
      SnapshotLater(before, now, tokens[..], sent[..], table.t, i);
      QuietIsBalanced(Ledger(), n);
      assert WorkerBounded(tokens[..], left, table.t.snap, trace, directSent, n, i);
      var avail := tokens[i] - sent[i];
      if avail < 1 {
        SnapshotSkip(before, tokens[..], sent[..], table.t, i);
      } else {
        SnapshotAdd(before, tokens[..], sent[..], table.t, i);
        AddWorker(i, avail);
      }
    }

    /** The snapshot is dropped. */
    method Reset()
      requires Valid()
      modifies this`availSlots, this`idleSlots, table, table.groupCount, table.groupIdx
      ensures Valid() && table.t == Empty(n, |targets|)
    {
      ResetBalanced(Ledger(), n);
      availSlots, idleSlots := 0, 0;
      table.Clear();
    }

    method AddWorker(w: int, avail: int)
      requires Valid() && leaving == NOBODY && 0 <= w < |targets| && 1 <= avail <= n && avail <= tokens[w] - sent[w]
      requires table.t.snap[w] == 0 && forall k :: 0 <= k < n ==> w !in table.t.rows[k]
      modifies this`availSlots, this`idleSlots, table, table.group, table.groupCount
      ensures Valid() && table.t == Add(old(table.t), avail - 1, w)
    {
      AddBalanced(Ledger(), n, w, avail);
      table.Put(avail - 1, w);
      availSlots := availSlots + avail;
      if avail == n {
        idleSlots := idleSlots + 1;
      }
    }

    /** The packet that has left is counted. */
    method CountSent(w: int)
      requires Valid() && leaving == w && w != NOBODY
      modifies this`leaving, sent
      ensures Valid() && leaving == NOBODY
    {
      sent[w] := sent[w] + 1;
      leaving := NOBODY;
    }

    method PopRouted() returns (pkt: Mbuf)
      requires Shape() && table.Valid() && QueuesOk() && routed.nodes != []
      modifies routed
      ensures table.Valid() && QueuesOk() && pkt == old(routed.nodes)[0] && routed.nodes == old(routed.nodes)[1..]
    {
      pkt := routed.Pop();
    }

    method PopDirect() returns (pkt: Mbuf)
      requires Shape() && table.Valid() && QueuesOk() && direct.nodes != []
      modifies direct
      ensures table.Valid() && QueuesOk() && pkt == old(direct.nodes)[0] && direct.nodes == old(direct.nodes)[1..]
    {
      pkt := direct.Pop();
    }

    /** The counters of the routing core after a packet left through row k. */
    method CountSlots(k: int, ghost c: Choice)
      requires Shape() && table.Valid() && QueuesOk()
      modifies this`availSlots, this`idleSlots, this`trace
      ensures table.Valid() && QueuesOk() && trace == old(trace) + [c]
      ensures availSlots == old(availSlots) - 1 && idleSlots == old(idleSlots) - if k == n - 1 then 1 else 0
    {
      availSlots := availSlots - 1;
      if k == n - 1 {
        idleSlots := idleSlots - 1;
      }
      trace := trace + [c];
    }

    /** Direct packets all go to the first target, whatever it has left. */
    method SendDirect(ghost seen: seq<int>)
      requires Valid() && leaving == NOBODY && Covers(Ledger(), seen)
      modifies this`directSent, this`left, this`leaving, sent, direct, tokens
      ensures Valid() && leaving == NOBODY && Covers(Ledger(), seen) && Grown(old(tokens[..]), tokens[..])
      ensures direct.nodes == [] && directSent == |directArrived|
    {
      while direct.count != 0
        invariant Valid() && leaving == NOBODY && Covers(Ledger(), seen) && Grown(old(tokens[..]), tokens[..])
        decreases direct.count
      {
        LeaveDirect();
        Feedback();
        CountSent(0);
        Feedback();
      }
    }

    /** send_from_pending_direct: the oldest direct packet goes out to the first target. */
    method LeaveDirect()
      requires Valid() && leaving == NOBODY && direct.nodes != []
      modifies this`directSent, this`left, this`leaving, direct
      ensures Valid() && leaving == 0 && left == old(left)[0 := old(left)[0] + 1]
      ensures directSent == old(directSent) + 1 && direct.nodes == old(direct.nodes)[1..]
    {
      DirectBalanced(Ledger(), n);
      var pkt := PopDirect();
      left, leaving := left[0 := left[0] + 1], 0;
      assert pkt == directArrived[directSent];
      directSent := directSent + 1;
    }

    /** The oldest routed packet goes out to the next worker of row k, whose place in the table moves with it. */
    method LeaveRouted(k: int, ghost seen: seq<int>) returns (w: int)
      requires Valid() && leaving == NOBODY && Covers(Ledger(), seen)
      requires 0 <= k < n && Live(table.t, k) > 0 && routed.nodes != []
      requires forall j :: k < j < n ==> Live(table.t, j) == 0
      modifies this`availSlots, this`idleSlots, this`trace, this`left, this`leaving, routed
      modifies table, table.group, table.groupCount, table.groupIdx
      ensures Valid() && 0 <= w < |old(left)| && leaving == w && left == old(left)[w := old(left)[w] + 1]
      ensures Covers(Ledger(), seen)
      ensures routed.nodes == old(routed.nodes)[1..] && old(trace) <= trace && |trace| == |old(trace)| + 1
      ensures availSlots == old(availSlots) - 1 && idleSlots == old(idleSlots) - if k == n - 1 then 1 else 0
      ensures forall j :: k < j < n ==> Live(table.t, j) == 0
    {
      DispatchBalanced(Ledger(), n, k);
      assert Covers(Dispatched(Ledger(), n, k), seen) by {
        QuietIsBalanced(Ledger(), n);
        DispatchCovers(Ledger(), n, k, seen);
      }
      ghost var after := Dispatched(Ledger(), n, k);
      w := table.Next(k);
      var pkt := PopRouted();
      left, leaving := left[w := left[w] + 1], w;
      CountSlots(k, Choice(pkt, w, old(table.t.snap)));
      assert Ledger() == after;
    }

    /**
     The body of both dispatch loops: the oldest routed packet goes to the next worker of row k, which may answer it
     before it is counted.
     */
    method Dispatch(k: int, ghost seen: seq<int>)
      requires Valid() && leaving == NOBODY && Covers(Ledger(), seen)
      requires 0 <= k < n && Live(table.t, k) > 0 && routed.nodes != []
      requires forall j :: k < j < n ==> Live(table.t, j) == 0
      modifies this`availSlots, this`idleSlots, this`trace, this`left, this`leaving, sent, routed, tokens
      modifies table, table.group, table.groupCount, table.groupIdx
      ensures Valid() && leaving == NOBODY && Covers(Ledger(), seen) && Grown(old(tokens[..]), tokens[..])
      ensures routed.nodes == old(routed.nodes)[1..] && old(trace) <= trace && |trace| == |old(trace)| + 1
      ensures availSlots == old(availSlots) - 1 && idleSlots == old(idleSlots) - if k == n - 1 then 1 else 0
      ensures forall j :: k < j < n ==> Live(table.t, j) == 0
    {
      var w := LeaveRouted(k, seen);
      Feedback();
      CountSent(w);
    }

    /**
     While idle workers are known only they are served; ends with no packet or no idle worker left, every packet that
     left having cost one slot of an idle worker.
     */
    method IdlePass(ghost seen: seq<int>)
      requires Valid() && leaving == NOBODY && Covers(Ledger(), seen)
      modifies this`availSlots, this`idleSlots, this`trace, this`left, this`leaving, sent, routed, tokens
      modifies table, table.group, table.groupCount, table.groupIdx
      ensures Valid() && leaving == NOBODY && (routed.nodes == [] || idleSlots == 0)
      ensures old(trace) <= trace && Covers(Ledger(), seen) && Grown(old(tokens[..]), tokens[..])
      ensures idleSlots + |trace| == old(idleSlots + |trace|)
    {
      while true
        invariant Valid() && leaving == NOBODY && old(trace) <= trace && Covers(Ledger(), seen)
        invariant Grown(old(tokens[..]), tokens[..]) && idleSlots + |trace| == old(idleSlots + |trace|)
        decreases routed.count
      {
        var has := table.HasLive(n - 1);
        if routed.count == 0 || !has {
          assert RowOk(table.t, n - 1);
          QuietIsBalanced(Ledger(), n);
          break;
        }
        Dispatch(n - 1, seen);
        Feedback();
      }
    }

    /** Row by row from the top; ends with no packet or no slot left, every packet that left having cost one slot. */
    method GreedyPass(ghost seen: seq<int>)
      requires Valid() && leaving == NOBODY && idleSlots == 0 && Covers(Ledger(), seen)
      modifies this`availSlots, this`idleSlots, this`trace, this`left, this`leaving, sent, routed, tokens
      modifies table, table.group, table.groupCount, table.groupIdx
      ensures Valid() && leaving == NOBODY && (routed.nodes == [] || availSlots == 0) && idleSlots == 0
      ensures old(trace) <= trace && Covers(Ledger(), seen) && Grown(old(tokens[..]), tokens[..])
      ensures availSlots + |trace| == old(availSlots + |trace|)
    {
      QuietIsBalanced(Ledger(), n);
      var i := n - 2;
      while i >= 0
        invariant -1 <= i <= n - 2 && Valid() && leaving == NOBODY && old(trace) <= trace && Covers(Ledger(), seen)
        invariant Grown(old(tokens[..]), tokens[..]) && availSlots + |trace| == old(availSlots + |trace|)
        invariant idleSlots == 0
        invariant forall j :: i < j < n ==> Live(table.t, j) == 0
      {
        RowPass(i, seen);
        if routed.count == 0 { return; }
        i := i - 1;
      }
      SlotsPositive(table.t, n, |targets|, n);
      QuietIsBalanced(Ledger(), n);
    }

    method RowPass(i: int, ghost seen: seq<int>)
      requires Valid() && leaving == NOBODY && Covers(Ledger(), seen)
      requires 0 <= i < n - 1 && forall j :: i < j < n ==> Live(table.t, j) == 0
      modifies this`availSlots, this`idleSlots, this`trace, this`left, this`leaving, sent, routed, tokens
      modifies table, table.group, table.groupCount, table.groupIdx
      ensures Valid() && leaving == NOBODY && old(trace) <= trace && forall j :: i < j < n ==> Live(table.t, j) == 0
      ensures (routed.nodes == [] || Live(table.t, i) == 0) && Covers(Ledger(), seen)
      ensures Grown(old(tokens[..]), tokens[..]) && availSlots + |trace| == old(availSlots + |trace|)
      ensures idleSlots == old(idleSlots)
    {
      while true
        invariant Valid() && leaving == NOBODY && old(trace) <= trace && Covers(Ledger(), seen)
        invariant Grown(old(tokens[..]), tokens[..]) && availSlots + |trace| == old(availSlots + |trace|)
        invariant idleSlots == old(idleSlots)
        invariant forall j :: i < j < n ==> Live(table.t, j) == 0
        decreases routed.count
      {
        var has := table.HasLive(i);
        if routed.count == 0 || !has {
          assert RowOk(table.t, i);
          break;
        }
        Dispatch(i, seen);
        Feedback();
      }
    }

    ghost function InboxOf(): Inbox
      reads this
    {
      Inbox(Datas(arrived), Datas(directArrived))
    }

    /** Queueing what has arrived since the last poll, in order, up to a packet that stops the process. */
    method NetPoll(batch: seq<Arrival>) returns (failed: bool, ghost heard: nat)
      requires Valid()
      modifies this`arrived, this`directArrived, this`bufs, routed, direct, bufs
      ensures Valid() && fresh(bufs - old(bufs)) && HeardOk(batch, failed, heard)
      ensures old(arrived) <= arrived && InboxOf() == Took(old(InboxOf()), batch, heard)
    {
      failed, heard := false, 0;
      for i := 0 to |batch|
        invariant Valid() && fresh(bufs - old(bufs)) && heard == i && (forall j :: 0 <= j < i ==> !Refused(batch[j]))
        invariant old(arrived) <= arrived && InboxOf() == Took(old(InboxOf()), batch, i)
      {
        failed := ReceiveNext(batch[i]);
        if failed { return; }
        heard := heard + 1;
      }
    }

    /** One packet of a poll, by its contents. */
    method ReceiveNext(a: Arrival) returns (failed: bool)
      requires Valid()
      modifies this`arrived, this`directArrived, this`bufs, routed, direct, bufs
      ensures Valid() && fresh(bufs - old(bufs)) && (failed <==> Refused(a)) && old(arrived) <= arrived
      ensures InboxOf() == TookOne(old(InboxOf()), a)
    {
      var pkt;
      failed, pkt := Receive(a);
      DatasSnoc(old(arrived), pkt);
      DatasSnoc(old(directArrived), pkt);
    }

    /** The test for a new snapshot. */
    predicate Stale()
      reads this, routed
    {
      availSlots == 0 || (idleSlots == 0 && routed.count < BUFFER_CNT_THRES)
    }

    /**
     Dispatching after a poll; the result tells which of the two passes ran.
     A snapshot that still has slots, and either idle workers or two packets waiting, is used: as many packets leave as
     there are, or as it has idle workers, or slots if none is idle. Otherwise a new one is taken: a packet leaves if
     one waits and a worker had a slot free, and if packets still wait at the end, no worker that was idle has been left
     so, and, unless idle workers were found, no slot that was free has been left.
     */
    method Route() returns (idle: bool)
      requires Valid() && leaving == NOBODY
      modifies this`availSlots, this`idleSlots, this`trace, this`left, this`leaving, this`directSent
      modifies sent, routed, direct, tokens
      modifies table, table.group, table.groupCount, table.groupIdx
      ensures Valid() && leaving == NOBODY && old(trace) <= trace && direct.nodes == []
      ensures Grown(old(tokens[..]), tokens[..])
      ensures routed.nodes == [] || if idle then idleSlots == 0 else availSlots == 0
      ensures old(availSlots != 0 && (idleSlots != 0 || |routed.nodes| >= 2)) ==>
                && idle == old(idleSlots != 0)
                && |trace| == |old(trace)| + Min(old(|routed.nodes|), if idle then old(idleSlots) else old(availSlots))
      ensures old(availSlots == 0 || (idleSlots == 0 && |routed.nodes| < 2)) ==>
                && (idle ==> HasIdle(tokens[..], old(sent[..]), n))
                && (routed.nodes != [] ==> LeftBusy(old(tokens[..]), sent[..], if idle then n - 1 else 0))
      ensures old(routed.nodes) != [] && HasFree(old(tokens[..]), old(sent[..])) ==> |trace| > |old(trace)|
    {
      ghost var seen := Renew();
      idle := Pass(seen);
    }

    /** A new snapshot, if the old one will not do; seen is what the coming pass is bound to use up. */
    method Renew() returns (ghost seen: seq<int>)
      requires Valid() && leaving == NOBODY
      modifies this`availSlots, this`idleSlots, tokens, table, table.group, table.groupCount, table.groupIdx
      ensures Valid() && Covers(Ledger(), seen) && Grown(old(tokens[..]), tokens[..])
      ensures old(availSlots != 0 && (idleSlots != 0 || |routed.nodes| >= 2)) ==>
                availSlots == old(availSlots) && idleSlots == old(idleSlots)
      ensures old(availSlots == 0 || (idleSlots == 0 && |routed.nodes| < 2)) ==>
                && seen == old(tokens[..]) && (HasFree(old(tokens[..]), sent[..]) ==> availSlots != 0)
                && (idleSlots != 0 ==> HasIdle(tokens[..], sent[..], n))
    {
      seen := Seen();
      if Stale() {
        Refresh();
        SnapshotMeans(Ledger(), seen, n);
      }
    }

    /** Direct packets, then the pass that the snapshot calls for. */
    method Pass(ghost seen: seq<int>) returns (idle: bool)
      requires Valid() && leaving == NOBODY && Covers(Ledger(), seen)
      modifies this`availSlots, this`idleSlots, this`trace, this`left, this`leaving, this`directSent
      modifies sent, routed, direct, tokens
      modifies table, table.group, table.groupCount, table.groupIdx
      ensures Valid() && leaving == NOBODY && old(trace) <= trace && direct.nodes == []
      ensures Grown(old(tokens[..]), tokens[..])
      ensures idle == old(idleSlots != 0) && (routed.nodes == [] || if idle then idleSlots == 0 else availSlots == 0)
      ensures old(availSlots) >= old(idleSlots) >= 0
      ensures |trace| == |old(trace)| + Min(old(|routed.nodes|), old(if idleSlots != 0 then idleSlots else availSlots))
      ensures routed.nodes != [] ==> LeftBusy(seen, sent[..], if idle then n - 1 else 0)
    {
      Counts();
      SendDirect(seen);
      idle := idleSlots != 0;
      if idle {
        IdlePass(seen);
      } else if availSlots != 0 {
        GreedyPass(seen);
      }
      Counts();
      AllUsed(seen);
    }

    lemma Counts()
      requires Valid()
      ensures |arrived| == |trace| + |routed.nodes| && availSlots >= idleSlots >= 0
    {
      QuietIsBalanced(Ledger(), n);
      IdleWithinAll(table.t, n, |targets|);
    }

    /** The tokens that a pass starting now is bound to use up, where it takes a new snapshot. */
    ghost function Seen(): seq<int>
      requires Valid() && leaving == NOBODY
      reads this, tokens, sent, table, table.group, table.groupCount, table.groupIdx
      reads routed, direct, routed.nodes, direct.nodes
      ensures Stale() || Covers(Ledger(), Seen())
    {
      LeftCovered(Ledger(), n);
      if Stale() then tokens[..] else sent[..]
    }

    lemma AllUsed(seen: seq<int>)
      requires Valid() && leaving == NOBODY && Covers(Ledger(), seen)
      ensures availSlots == 0 ==> LeftBusy(seen, sent[..], 0)
      ensures idleSlots == 0 ==> LeftBusy(seen, sent[..], n - 1)
    {
      QuietIsBalanced(Ledger(), n);
      NoSlotsLeft(table.t, n, |targets|);
      NoIdleLeft(table.t, n, |targets|);
    }

    /**
     One turn of the polling loop: what arrived is queued in order, and if a packet then waits and a worker had a slot
     free, a packet leaves.
     */
    method Poll(batch: seq<Arrival>) returns (failed: bool, ghost heard: nat)
      requires Valid() && leaving == NOBODY
      modifies this, tokens, sent, routed, direct, bufs, table, table.group, table.groupCount, table.groupIdx
      ensures Valid() && leaving == NOBODY && old(trace) <= trace && fresh(bufs - old(bufs))
      ensures HeardOk(batch, failed, heard) && old(arrived) <= arrived
      ensures InboxOf() == Took(old(InboxOf()), batch, heard) && (!failed ==> direct.nodes == [])
      ensures !failed && old(Ready(batch)) ==> |trace| > |old(trace)|
    {
      ghost var ready := Ready(batch);
      Counts();
      Feedback();
      failed, heard := NetPoll(batch);
      Counts();
      if !failed {
        if ready {
          RoutedArrives(old(InboxOf()), batch);
        }
        var idle := Route();
      }
    }

    /** A packet waits or is about to, and a worker has a slot free. */
    ghost predicate Ready(batch: seq<Arrival>)
      reads this, routed, tokens, sent
    {
      && (routed.nodes != [] || exists i :: 0 <= i < |batch| && batch[i].policy == Wire.LbRoute)
      && HasFree(tokens[..], sent[..])
    }

    /**
     The polling loop, for any arrivals; it goes on until a packet with another policy stops the process, after so many
     whole turns and so many packets of the next. All packets before that are queued in order.
     */
    method Run(batches: seq<seq<Arrival>>) returns (failed: bool, ghost turns: nat, ghost heard: nat)
      requires Valid() && leaving == NOBODY
      modifies this, tokens, sent, routed, direct, bufs, table, table.group, table.groupCount, table.groupIdx
      ensures Valid() && leaving == NOBODY && old(arrived) <= arrived && old(trace) <= trace
      ensures turns <= |batches| && (failed <==> turns < |batches|)
      ensures forall i :: 0 <= i < turns ==> !Stops(batches[i])
      ensures failed ==> HeardOk(batches[turns], true, heard)
      ensures var all := TookAll(old(InboxOf()), batches, turns);
              InboxOf() == if failed then Took(all, batches[turns], heard) else all
      ensures turns > 0 && old(Ready(batches[0])) ==> |trace| > |old(trace)|
    {
      failed, turns, heard := false, 0, 0;
      ghost var ready := batches != [] && Ready(batches[0]);
      for i := 0 to |batches|
        invariant Valid() && leaving == NOBODY && turns == i
        invariant old(arrived) <= arrived && old(trace) <= trace && fresh(bufs - old(bufs))
        invariant forall k :: 0 <= k < i ==> !Stops(batches[k])
        invariant InboxOf() == TookAll(old(InboxOf()), batches, i)
        invariant ready ==> if i == 0 then Ready(batches[0]) else |trace| > |old(trace)|
      {
        failed, heard := Poll(batches[i]);
        if failed { return; }
        turns := turns + 1;
      }
    }
  }

  /** The contents of packets. */
  function Datas(pkts: seq<Mbuf>): seq<int> {
    seq(|pkts|, i requires 0 <= i < |pkts| => pkts[i].data)
  }

  lemma DatasSnoc(pkts: seq<Mbuf>, pkt: Mbuf)
    ensures Datas(pkts + [pkt]) == Datas(pkts) + [pkt.data] && Datas(pkts + []) == Datas(pkts)
  {
    assert pkts + [] == pkts;
  }

  /** The contents of all packets received so far, by policy. */
  datatype Inbox = Inbox(routed: seq<int>, direct: seq<int>)

  function TookOne(b: Inbox, a: Arrival): Inbox {
    if a.policy == Wire.LbRoute then b.(routed := b.routed + [a.data])
    else if a.policy == Wire.FixedRoute then b.(direct := b.direct + [a.data])
    else b
  }

  /** After the first m packets of a poll. */
  function Took(b: Inbox, batch: seq<Arrival>, m: nat): Inbox
    requires m <= |batch|
  {
    if m == 0 then b else TookOne(Took(b, batch, m - 1), batch[m - 1])
  }

  /** After the first m polls. */
  function TookAll(b: Inbox, batches: seq<seq<Arrival>>, m: nat): Inbox
    requires m <= |batches|
  {
    if m == 0 then b else Took(TookAll(b, batches, m - 1), batches[m - 1], |batches[m - 1]|)
  }

  lemma {:induction false} TookGrows(b: Inbox, batch: seq<Arrival>, i: nat, m: nat)
    requires i <= m <= |batch|
    ensures |Took(b, batch, i).routed| <= |Took(b, batch, m).routed|
    ensures i < m && batch[i].policy == Wire.LbRoute ==> |Took(b, batch, i).routed| < |Took(b, batch, m).routed|
    decreases m
  {
    if i < m - 1 {
      TookGrows(b, batch, i, m - 1);
    }
  }

  lemma RoutedArrives(b: Inbox, batch: seq<Arrival>)
    ensures |b.routed| <= |Took(b, batch, |batch|).routed|
    ensures (exists i :: 0 <= i < |batch| && batch[i].policy == Wire.LbRoute) ==>
              |b.routed| < |Took(b, batch, |batch|).routed|
  {
    TookGrows(b, batch, 0, |batch|);
    if i :| 0 <= i < |batch| && batch[i].policy == Wire.LbRoute {
      TookGrows(b, batch, 0, i);
      TookGrows(b, batch, i, |batch|);
    }
  }

  /** heard packets of a poll precede the first refused one, or all are heard. */
  predicate HeardOk(batch: seq<Arrival>, failed: bool, heard: nat) {
    && heard <= |batch| && (forall j :: 0 <= j < heard ==> !Refused(batch[j]))
    && if failed then heard < |batch| && Refused(batch[heard]) else heard == |batch|
  }

  /** Some worker has a slot free. */
  ghost predicate HasFree(tokens: seq<int>, sent: seq<int>) {
    |tokens| == |sent| && exists w :: 0 <= w < |tokens| && tokens[w] > sent[w]
  }

  /** Some worker has all n slots free. */
  ghost predicate HasIdle(tokens: seq<int>, sent: seq<int>, n: nat) {
    |tokens| == |sent| && exists w :: 0 <= w < |tokens| && tokens[w] >= sent[w] + n
  }

  /** Of the slots that these tokens stand for, no worker has more than spare left. */
  ghost predicate LeftBusy(tokens: seq<int>, sent: seq<int>, spare: int) {
    |tokens| == |sent| && forall w :: 0 <= w < |tokens| ==> tokens[w] <= sent[w] + spare
  }

  predicate Stops(batch: seq<Arrival>) {
    exists i :: 0 <= i < |batch| && Refused(batch[i])
  }

  predicate Refused(a: Arrival) {
    a.policy != Wire.LbRoute && a.policy != Wire.FixedRoute
  }

  /**
   At any moment, also between a packet's leaving and its being counted, a worker other than the first, or any worker
   if nothing was sent directly, has at most n requests it has not answered: of the n tokens it started with and those
   its answers returned, all requests that have left for it are covered. The routing core's count is at most one late,
   and not late between two dispatches, where it reads the free slots.
   */
  lemma AtMostNOutstanding(r: Router, w: int)
    requires r.Valid() && 0 <= w < |r.targets|
    ensures r.left[w] <= r.tokens[w] + Direct(r.directSent, w) && r.tokens[w] <= r.left[w] + r.n
    ensures r.left[w] - (r.tokens[w] - r.n) <= r.n + Direct(r.directSent, w)
    ensures r.sent[w] <= r.left[w] <= r.sent[w] + 1 && (r.left[w] != r.sent[w] <==> w == r.leaving)
    ensures r.left[w] == Times(r.trace, w) + Direct(r.directSent, w)
    ensures r.leaving == NOBODY ==> r.tokens[w] - r.sent[w] <= r.n
  {
    QuietIsBalanced(r.Ledger(), r.n);
    assert WorkerBounded(r.tokens[..], r.left, r.table.t.snap, r.trace, r.directSent, r.n, w);
    assert WorkerOk(r.table.t, w);
  }

  /**
   Routed packets have left in order of arrival, each to a worker with the most slots left, and rows never overflow.
   */
  lemma DispatchedFairly(r: Router, i: int)
    requires r.Valid() && 0 <= i < |r.trace|
    ensures i < |r.arrived| && r.trace[i].pkt == r.arrived[i] && Greedy(r.trace[i])
    ensures |r.arrived| == |r.trace| + |r.routed.nodes| && r.arrived[|r.trace|..] == r.routed.nodes
  {
    QuietIsBalanced(r.Ledger(), r.n);
  }

  /** What the counters of the routing core mean at any moment. */
  lemma CountersMean(r: Router)
    requires r.Valid()
    ensures r.availSlots == Slots(r.table.t, r.n) && r.idleSlots == Live(r.table.t, r.n - 1)
    ensures r.availSlots == 0 <==> forall w :: 0 <= w < |r.targets| ==> r.table.t.snap[w] == 0
    ensures forall k :: 0 <= k < r.n ==> |r.table.t.rows[k]| <= |r.targets|
  {
    QuietIsBalanced(r.Ledger(), r.n);
    NoSlotsLeft(r.table.t, r.n, |r.targets|);
    forall k | 0 <= k < r.n
      ensures |r.table.t.rows[k]| <= |r.targets|
    {
      RowFits(r.table.t, r.n, |r.targets|, k);
    }
  }
}
