/** Runs of a cluster after which something that the code counts on does not hold. */
module FailingRuns {
  import opened Cluster
  import opened Collections
  import opened Replier
  import opened Wire

  lemma OneMore(nodes: nat, self: int, steps: seq<Step>, s: Step, c: State)
    requires After(nodes, self, steps) == Some(c) && Shaped(c, nodes) && Enabled(c, s, nodes, self)
    ensures After(nodes, self, steps + [s]) == Some(Next(c, s, nodes, self))
  {
    assert (steps + [s])[..|steps|] == steps;
  }

  // ----- one node -----

  /** One request in the log of the only node, which has executed nothing. */
  ghost predicate Alone(c: State, normal: bool) {
    Shaped(c, 1) && c.lead.log == [Entry(normal, 0)] && c.lead.given[0] == c.done[0] == c.applied[0] == 0
  }

  lemma CommitAlone(c: State, normal: bool)
    requires Alone(c, normal) && c.commit == 0
    ensures Enabled(c, Commit(1), 1, 0) && Alone(Next(c, Commit(1), 1, 0), normal)
  {
    MajorityMeans(c, 1, 1, 0);
    assert Holders(c, 1, 1, 0) == {0};
  }

  lemma ApplyAlone(c: State, normal: bool)
    requires Alone(c, normal) && c.commit == 1
    ensures Enabled(c, Apply(0), 1, 0)
    ensures var c' := Next(c, Apply(0), 1, 0); Shaped(c', 1) && c'.done[0] > c'.lead.given[0]
  {
  }

  /** Alone, the leader executes a request of either kind without having been given it. */
  lemma LoneLeader(normal: bool) returns (steps: seq<Step>, c: State)
    ensures After(1, 0, steps) == Some(c) && Shaped(c, 1) && c.done[0] > c.lead.given[0]
  {
    var start := Start(1);
    OneMore(1, 0, [], Order(normal), start);
    var ordered := Next(start, Order(normal), 1, 0);
    CommitAlone(ordered, normal);
    OneMore(1, 0, [] + [Order(normal)], Commit(1), ordered);
    var committed := Next(ordered, Commit(1), 1, 0);
    ApplyAlone(committed, normal);
    OneMore(1, 0, [] + [Order(normal)] + [Commit(1)], Apply(0), committed);
    steps, c := [] + [Order(normal)] + [Commit(1)] + [Apply(0)], Next(committed, Apply(0), 1, 0);
  }

  // ----- two runs in which the leader runs out of slots -----

  /** k ordinary requests, the first a of them assigned, and nothing done. */
  ghost predicate Loaded(l: Lead, nodes: nat, k: int, a: int) {
    && |l.given| == |l.seen| == nodes && |l.flags| == |l.log| == k && 0 <= l.assignedIdx == a <= k
    && (forall i :: 0 <= i < k ==> l.log[i].normal)
    && (forall p :: 0 <= p < nodes ==> l.given[p] == a && l.seen[p] == 0)
  }

  /**
   Node 1 holds the a requests that are assigned; no other node has heard of any. With more than three nodes the
   leader, node 0, and node 1 are no majority.
   */
  ghost predicate Busy(c: State, nodes: nat, k: int, a: int) {
    && nodes > 3 && Shaped(c, nodes) && Loaded(c.lead, nodes, k, a) && c.commit == 0
    && (forall p :: 1 <= p < nodes ==> |c.copies[p]| == if p == 1 then a else 0)
  }

  lemma {:induction false} OrderMany(nodes: nat, k: nat) returns (steps: seq<Step>, c: State)
    requires nodes > 3
    ensures After(nodes, 0, steps) == Some(c) && Busy(c, nodes, k, 0)
  {
    if k == 0 {
      steps, c := [], Start(nodes);
    } else {
      var most, b := OrderMany(nodes, k - 1);
      OneMore(nodes, 0, most, Order(true), b);
      steps, c := most + [Order(true)], Next(b, Order(true), nodes, 0);
    }
  }

  /** The leader takes one more request for itself, whether a slot is free or not. */
  lemma LoadOne(l: Lead, nodes: nat, k: int, a: int)
    requires Loaded(l, nodes, k, a) && a < k && nodes > 0
    ensures Trimmed(l, a, 1, 0) == 1 && PicksOk([0], nodes) && AssignAll(l, [0], 0) == AssignOne(l, 0, 0)
    ensures Loaded(AssignOne(l, 0, 0), nodes, k, a + 1)
  {
    assert [0][..0] == [];
  }

  /** A message with the one entry that comes next. */
  lemma ReceiveOne(c: State, m: Msg)
    requires |c.copies| == |c.marks| > 1 && m.to == 1 && |c.copies[1]| == m.prev && |m.entries| == 1
    ensures var c' := Received(c, m);
            && c' == c.(copies := c'.copies, marks := c'.marks) && |c'.copies| == |c'.marks| == |c.copies|
            && c'.copies == c.copies[1 := c'.copies[1]] && |c'.copies[1]| == m.prev + 1
  {
  }

  /** One more request sent to node 1, which receives it. */
  lemma SendOneMore(nodes: nat, k: int, a: int, most: seq<Step>, b: State) returns (steps: seq<Step>, c: State)
    requires After(nodes, 0, most) == Some(b) && Busy(b, nodes, k, a) && a < k
    ensures After(nodes, 0, steps) == Some(c) && Busy(c, nodes, k, a + 1)
  {
    LoadOne(b.lead, nodes, k, a);
    var send := Send(1, a, 1, [0]);
    OneMore(nodes, 0, most, send, b);
    var lead := AssignOne(b.lead, 0, 0);
    var m := Msg(1, a, lead.log[a..a + 1]);
    var sent := b.(lead := lead, net := b.net + {m});
    assert Next(b, send, nodes, 0) == sent;
    ReceiveOne(sent, m);
    OneMore(nodes, 0, most + [send], Receive(m), sent);
    steps, c := most + [send] + [Receive(m)], Received(sent, m);
  }

  /** Sending the first a requests one by one. */
  lemma {:induction false} SendMany(nodes: nat, k: nat, a: nat) returns (steps: seq<Step>, c: State)
    requires nodes > 3 && a <= k
    ensures After(nodes, 0, steps) == Some(c) && Busy(c, nodes, k, a)
    decreases a
  {
    if a == 0 {
      steps, c := OrderMany(nodes, k);
    } else {
      var most, b := SendMany(nodes, k, a - 1);
      steps, c := SendOneMore(nodes, k, a - 1, most, b);
    }
  }

  /** Whatever the leader learns, it cannot commit an entry that only node 1 and itself can hold. */
  lemma BusyCannotCommit(c: State, nodes: nat, k: int, a: int, i: int)
    requires Busy(c, nodes, k, a) && i > 0
    ensures !Enabled(c, Commit(i), nodes, 0)
  {
    MajorityMeans(c, i, nodes, 0);
    SubsetSize(Holders(c, i, nodes, 0), {0, 1});
  }

  /** Nothing more can be committed now. */
  ghost predicate Stalled(c: State, nodes: nat)
    requires Shaped(c, nodes)
  {
    c.commit == 0 && forall i :: i > 0 ==> !Enabled(c, Commit(i), nodes, 0)
  }

  lemma BusyIsStalled(c: State, nodes: nat, k: int, a: int)
    requires Busy(c, nodes, k, a)
    ensures Stalled(c, nodes)
  {
    forall i | i > 0
      ensures !Enabled(c, Commit(i), nodes, 0)
    {
      BusyCannotCommit(c, nodes, k, a, i);
    }
  }

  /**
   With more than three nodes there is a run after which a heartbeat, offered no entry, is made to carry one: node 1
   holds 32 requests, none of which can be committed yet, and no node has a free slot.
   */
  lemma StrayHeartbeat(nodes: nat) returns (steps: seq<Step>, c: State)
    requires nodes > 3
    ensures After(nodes, 0, steps) == Some(c) && Shaped(c, nodes) && Stalled(c, nodes)
    ensures |c.copies[1]| == |c.lead.log| == 32 && Trimmed(c.lead, |c.lead.log|, 0, c.commit) == 1
  {
    steps, c := SendMany(nodes, 32, 32);
    BusyIsStalled(c, nodes, 32, 32);
    assert forall p :: 0 <= p < nodes ==> Open(c.lead, p) == 32;
  }

  /**
   With more than three nodes there is a run after which the one entry that the next message carries has no replier
   and no node may become it, since each has twice the bound of requests open.
   */
  lemma NoNodeLeft(nodes: nat) returns (steps: seq<Step>, c: State)
    requires nodes > 3
    ensures After(nodes, 0, steps) == Some(c) && Shaped(c, nodes) && Stalled(c, nodes)
    ensures |c.copies[1]| == c.lead.assignedIdx == 64 && |c.lead.log| == 65
    ensures Trimmed(c.lead, 64, 1, c.commit) == 1 && !Below(c.lead, 2 * BOUNDED_QUEUE)
  {
    steps, c := SendMany(nodes, 65, 64);
    BusyIsStalled(c, nodes, 65, 64);
    assert forall p :: 0 <= p < nodes ==> Open(c.lead, p) == 64;
  }
}
