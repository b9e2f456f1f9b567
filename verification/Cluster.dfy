/**
 Replies in a replicated service under a stable leader: the leader of Replier.dfy, the copies of its log on the other
 nodes, execution and answers. The Raft library, which is not part of the repository, appears as prefix replication:
 a node extends its copy only from messages that join on to it, a message starts no later than where the copy of the
 node it is for ends, and an entry is committed once more than half of the nodes hold it.
 */
module Cluster {
  import opened Collections
  import opened Replier
  import opened Wire

  datatype Msg = Msg(to: int, prev: int, entries: seq<Entry>)

  /** answers counts, for a node and a log position, the replies that the node has sent. */
  datatype State = State(lead: Lead, copies: seq<seq<Entry>>, marks: seq<seq<bool>>, commit: int, applied: seq<int>,
                         done: seq<int>, net: set<Msg>, answers: multiset<(int, int)>)

  datatype Step =
    | Order(normal: bool)
    | Send(to: int, prev: int, n: int, picks: seq<int>)
    | Receive(m: Msg)
    | Commit(upTo: int)
    | Apply(node: int)
    | Report(node: int, value: int)

  function Start(nodes: nat): State {
    var zeros := seq(nodes, _ => 0);
    State(Lead([], [], 0, zeros, zeros), seq(nodes, _ => []), seq(nodes, _ => []), 0, zeros, zeros, {}, multiset{})
  }

  ghost predicate Shaped(c: State, nodes: nat) {
    && |c.copies| == |c.marks| == |c.applied| == |c.done| == nodes
    && |c.lead.given| == |c.lead.seen| == nodes && |c.lead.flags| == |c.lead.log|
    && 0 <= c.lead.assignedIdx <= |c.lead.log|
  }

  /** The log of node p; the leader is self. */
  function Held(c: State, p: int, self: int): seq<Entry>
    requires 0 <= p < |c.copies|
  {
    if p == self then c.lead.log else c.copies[p]
  }

  /** Does node p carry SHOULD_REPLY for position i of its log? */
  predicate ShouldReply(c: State, p: int, i: int, self: int)
    requires 0 <= p < |c.marks| && 0 <= i
  {
    if p == self then i < |c.lead.flags| && c.lead.flags[i] else i < |c.marks[p]| && c.marks[p][i]
  }

  /** The nodes that hold the first i entries, the leader among them. */
  ghost function Holders(c: State, i: int, nodes: nat, self: int): set<int>
    requires |c.copies| == nodes
  {
    set p | 0 <= p < nodes && i <= |Held(c, p, self)|
  }

  /** More than half of the nodes hold them; the count stays out of proofs that only pass this on. */
  ghost predicate Majority(c: State, i: int, nodes: nat, self: int)
    requires |c.copies| == nodes
  {
    forall held {:trigger About(held)} :: held == Holders(c, i, nodes, self) ==> 2 * |held| > nodes
  }

  lemma MajorityMeans(c: State, i: int, nodes: nat, self: int)
    requires |c.copies| == nodes
    ensures Majority(c, i, nodes, self) <==> 2 * |Holders(c, i, nodes, self)| > nodes
  {
    assert About(Holders(c, i, nodes, self));
  }

  ghost predicate Enabled(c: State, s: Step, nodes: nat, self: int)
    requires Shaped(c, nodes)
  {
    match s
    case Order(_) => true
    case Send(to, prev, n, picks) =>
      && 0 <= to < nodes && to != self && 0 <= prev <= |c.copies[to]| && 0 <= n && prev + n <= |c.lead.log|
      && var end := prev + Trimmed(c.lead, prev, n, c.commit);
      && prev <= end <= prev + n && PicksOk(picks, nodes)
      && |picks| == if c.lead.assignedIdx < end then end - c.lead.assignedIdx else 0
    case Receive(m) => m in c.net && 0 <= m.to < nodes && 0 <= m.prev
    case Commit(i) => c.commit <= i && Majority(c, i, nodes, self)
    case Apply(p) => 0 <= p < nodes && 0 <= c.applied[p] < c.commit && c.applied[p] < |Held(c, p, self)|
    case Report(p, v) => 0 <= p < nodes && p != self && 0 <= v <= c.done[p]
  }

  function Marks(entries: seq<Entry>, p: int): seq<bool> {
    seq(|entries|, i requires 0 <= i < |entries| => entries[i].replier == p)
  }

  function Posted(c: State, to: int, prev: int, end: int): State
    requires 0 <= prev <= end <= |c.lead.log|
  {
    c.(net := c.net + {Msg(to, prev, c.lead.log[prev..end])})
  }

  function Received(c: State, m: Msg): State
    requires 0 <= m.to < |c.copies| == |c.marks| && 0 <= m.prev
  {
    var h := |c.copies[m.to]|;
    if m.prev <= h < m.prev + |m.entries| then
      var more := m.entries[h - m.prev..];
      c.(copies := c.copies[m.to := c.copies[m.to] + more], marks := c.marks[m.to := c.marks[m.to] + Marks(more, m.to)])
    else c
  }

  /** Node p executes the next committed entry, or passes over it, and answers if it carries the flag. */
  function Applied(c: State, p: int, self: int): State
    requires 0 <= p < |c.copies| == |c.marks| == |c.applied| == |c.done| == |c.lead.seen|
    requires 0 <= c.applied[p] < |Held(c, p, self)|
  {
    var i := c.applied[p];
    var c' := c.(applied := c.applied[p := i + 1]);
    if !Counts(Held(c, p, self)[i], p) then c'
    else
      var done := c.done[p := c.done[p] + 1];
      c'.(done := done,
          lead := if p == self then c.lead.(seen := c.lead.seen[p := done[p]]) else c.lead,
          answers := if ShouldReply(c, p, i, self) then c.answers + multiset{(p, i)} else c.answers)
  }

  ghost function Next(c: State, s: Step, nodes: nat, self: int): State
    requires Shaped(c, nodes) && Enabled(c, s, nodes, self)
  {
    match s
    case Order(normal) => c.(lead := Ordered(c.lead, normal, self))
    case Send(to, prev, n, picks) =>
      Posted(c.(lead := AssignAll(c.lead, picks, self)), to, prev, prev + Trimmed(c.lead, prev, n, c.commit))
    case Receive(m) => Received(c, m)
    case Commit(i) => c.(commit := i)
    case Apply(p) => Applied(c, p, self)
    case Report(p, v) => c.(lead := c.lead.(seen := c.lead.seen[p := v]))
  }

  // ----- what every run keeps -----

  ghost predicate CopyOk(c: State, p: int)
    requires 0 <= p < |c.copies| == |c.marks|
  {
    var h := |c.copies[p]|;
    && h <= c.lead.assignedIdx <= |c.lead.log| && c.copies[p] == c.lead.log[..h]
    && |c.marks[p]| == h && forall i :: 0 <= i < h ==> (c.marks[p][i] <==> c.lead.log[i].replier == p)
  }

  ghost predicate NodeOk(c: State, self: int, p: int)
    requires 0 <= p < |c.copies| == |c.marks| == |c.applied| == |c.done| == |c.lead.seen|
  {
    && 0 <= c.applied[p] <= c.commit && c.applied[p] <= |Held(c, p, self)|
    && c.done[p] == Count(c.lead.log, c.applied[p], p)
    && if p == self then c.lead.seen[p] == c.done[p] else c.lead.seen[p] <= c.done[p] && CopyOk(c, p)
  }

  ghost predicate MsgOk(c: State, nodes: nat, self: int, m: Msg) {
    && 0 <= m.to < nodes && m.to != self && 0 <= m.prev && m.prev + |m.entries| <= c.lead.assignedIdx <= |c.lead.log|
    && m.entries == c.lead.log[m.prev..m.prev + |m.entries|]
  }

  ghost predicate AnswerOk(c: State, nodes: nat, p: int, i: int)
    requires |c.applied| == nodes
  {
    c.answers[(p, i)] ==
      if 0 <= p < nodes && 0 <= i < c.applied[p] && i < |c.lead.log| && c.lead.log[i].replier == p then 1 else 0
  }

  /** How many entries will not change any more: the assigned ones, or all where there is nobody to send them to. */
  function Fixed(c: State, nodes: nat): int {
    if nodes == 1 then |c.lead.log| else c.lead.assignedIdx
  }

  ghost predicate Inv(c: State, nodes: nat, self: int) {
    && Shaped(c, nodes) && LeadOk(c.lead, nodes, self) && 0 <= c.commit <= Fixed(c, nodes)
    && (forall p {:trigger NodeOk(c, self, p)} :: 0 <= p < nodes ==> NodeOk(c, self, p))
    && (forall m {:trigger MsgOk(c, nodes, self, m)} :: m in c.net ==> MsgOk(c, nodes, self, m))
    && (forall p, i {:trigger AnswerOk(c, nodes, p, i)} :: AnswerOk(c, nodes, p, i))
  }

  lemma StartInv(nodes: nat, self: int)
    requires 0 <= self < nodes
    ensures Inv(Start(nodes), nodes, self)
  {
    var c := Start(nodes);
    forall p | 0 <= p < nodes
      ensures NodeOk(c, self, p) && GivenOk(c.lead, p)
    {
    }
    forall p: int, i: int
      ensures AnswerOk(c, nodes, p, i)
    {
    }
  }

  /** The leader's log grew or got repliers beyond the assigned part; everything else is as it was. */
  lemma LogMovesOn(c: State, c': State, nodes: nat, self: int)
    requires Inv(c, nodes, self) && c' == c.(lead := c'.lead) && Shaped(c', nodes) && LeadOk(c'.lead, nodes, self)
    requires c'.lead.seen == c.lead.seen && c.lead.assignedIdx <= c'.lead.assignedIdx && |c.lead.log| <= |c'.lead.log|
    requires forall i :: 0 <= i < Fixed(c, nodes) ==> c'.lead.log[i] == c.lead.log[i]
    ensures Inv(c', nodes, self)
  {
    forall p | 0 <= p < nodes
      ensures NodeOk(c', self, p)
    {
      assert NodeOk(c, self, p);
      CountSame(c.lead.log, c'.lead.log, c.applied[p], p);
    }
    forall m | m in c'.net
      ensures MsgOk(c', nodes, self, m)
    {
      assert MsgOk(c, nodes, self, m);
    }
    forall p: int, i: int
      ensures AnswerOk(c', nodes, p, i)
    {
      assert AnswerOk(c, nodes, p, i);
      assert 0 <= p < nodes ==> NodeOk(c, self, p);
    }
  }

  lemma OrderKeeps(c: State, normal: bool, nodes: nat, self: int)
    requires Inv(c, nodes, self)
    ensures Inv(Next(c, Order(normal), nodes, self), nodes, self)
  {
    OrderedOk(c.lead, normal, nodes, self);
    LogMovesOn(c, Next(c, Order(normal), nodes, self), nodes, self);
  }

  /** A message with entries that all have their repliers goes out. */
  lemma PostKeeps(c: State, to: int, prev: int, end: int, nodes: nat, self: int)
    requires Inv(c, nodes, self) && 0 <= to < nodes && to != self && 0 <= prev <= end <= c.lead.assignedIdx
    ensures Inv(Posted(c, to, prev, end), nodes, self)
  {
    var c' := Posted(c, to, prev, end);
    forall p | 0 <= p < nodes
      ensures NodeOk(c', self, p)
    {
      assert NodeOk(c, self, p);
    }
    forall m | m in c'.net
      ensures MsgOk(c', nodes, self, m)
    {
      assert m in c.net ==> MsgOk(c, nodes, self, m);
    }
    forall p: int, i: int
      ensures AnswerOk(c', nodes, p, i)
    {
      assert AnswerOk(c, nodes, p, i);
    }
  }

  lemma SendKeeps(c: State, to: int, prev: int, n: int, picks: seq<int>, nodes: nat, self: int)
    requires Inv(c, nodes, self) && Enabled(c, Send(to, prev, n, picks), nodes, self)
    ensures Inv(Next(c, Send(to, prev, n, picks), nodes, self), nodes, self)
  {
    var mid := c.(lead := AssignAll(c.lead, picks, self));
    assert Inv(mid, nodes, self) by {
      AssignAllOk(c.lead, picks, nodes, self);
      LogMovesOn(c, mid, nodes, self);
    }
    assert NodeOk(c, self, to);
    PostKeeps(mid, to, prev, prev + Trimmed(c.lead, prev, n, c.commit), nodes, self);
  }

  /** Copies that stay right are all that changes. */
  lemma CopiesMove(c: State, c': State, nodes: nat, self: int)
    requires Inv(c, nodes, self) && c' == c.(copies := c'.copies, marks := c'.marks) && Shaped(c', nodes)
    requires forall p {:trigger NodeOk(c', self, p)} :: 0 <= p < nodes ==> NodeOk(c', self, p)
    ensures Inv(c', nodes, self)
  {
    forall x | x in c'.net
      ensures MsgOk(c', nodes, self, x)
    {
      assert MsgOk(c, nodes, self, x);
    }
    forall p: int, i: int
      ensures AnswerOk(c', nodes, p, i)
    {
      assert AnswerOk(c, nodes, p, i);
    }
  }

  lemma ReceiveKeeps(c: State, m: Msg, nodes: nat, self: int)
    requires Inv(c, nodes, self) && Enabled(c, Receive(m), nodes, self)
    ensures Inv(Next(c, Receive(m), nodes, self), nodes, self)
  {
    var h, end, log := |c.copies[m.to]|, m.prev + |m.entries|, c.lead.log;
    assert MsgOk(c, nodes, self, m) && NodeOk(c, self, m.to);
    if m.prev <= h < end {
      var c' := Received(c, m);
      Spliced(log, m.prev, h, end);
      MarksJoin(log, c.marks[m.to], end, m.to);
      assert c'.copies[m.to] == log[..end] && c'.marks[m.to] == c.marks[m.to] + Marks(log[h..end], m.to);
      forall p | 0 <= p < nodes
        ensures NodeOk(c', self, p)
      {
        assert NodeOk(c, self, p);
      }
      CopiesMove(c, c', nodes, self);
    }
  }

  /** The marks of new entries continue those of a copy. */
  lemma MarksJoin(log: seq<Entry>, marks: seq<bool>, end: int, p: int)
    requires |marks| <= end <= |log|
    requires forall i :: 0 <= i < |marks| ==> (marks[i] <==> log[i].replier == p)
    ensures var joined := marks + Marks(log[|marks|..end], p);
            |joined| == end && forall i :: 0 <= i < end ==> (joined[i] <==> log[i].replier == p)
  {
    var more := log[|marks|..end];
    assert forall i :: |marks| <= i < end ==> more[i - |marks|] == log[i];
  }

  lemma Spliced<T>(log: seq<T>, prev: int, h: int, end: int)
    requires 0 <= prev <= h <= end <= |log|
    ensures log[prev..end][h - prev..] == log[h..end] && log[..h] + log[h..end] == log[..end]
  {
  }

  /** More than half of two or more nodes include one that is not the leader. */
  lemma AnotherHolds(c: State, i: int, nodes: nat, self: int) returns (q: int)
    requires nodes > 1 && |c.copies| == nodes && Majority(c, i, nodes, self)
    ensures 0 <= q < nodes && q != self && i <= |c.copies[q]|
  {
    MajorityMeans(c, i, nodes, self);
    var all, alone := Holders(c, i, nodes, self), {self};
    if all <= alone {
      SubsetSize(all, alone);
    }
    q :| q in all && q !in alone;
  }

  /** What more than half of the nodes hold does not change any more. */
  lemma MajorityIsFixed(c: State, i: int, nodes: nat, self: int)
    requires Inv(c, nodes, self) && Majority(c, i, nodes, self)
    ensures i <= Fixed(c, nodes)
  {
    MajorityMeans(c, i, nodes, self);
    if nodes == 1 {
      var q :| q in Holders(c, i, nodes, self);
    } else {
      var q := AnotherHolds(c, i, nodes, self);
      assert NodeOk(c, self, q);
    }
  }

  lemma CommitKeeps(c: State, i: int, nodes: nat, self: int)
    requires Inv(c, nodes, self) && Enabled(c, Commit(i), nodes, self)
    ensures Inv(Next(c, Commit(i), nodes, self), nodes, self)
  {
    var c' := c.(commit := i);
    MajorityIsFixed(c, i, nodes, self);
    forall p | 0 <= p < nodes
      ensures NodeOk(c', self, p)
    {
      assert NodeOk(c, self, p);
    }
    forall m | m in c'.net
      ensures MsgOk(c', nodes, self, m)
    {
      assert MsgOk(c, nodes, self, m);
    }
    forall p: int, j: int
      ensures AnswerOk(c', nodes, p, j)
    {
      assert AnswerOk(c, nodes, p, j);
    }
  }

  lemma ReportKeeps(c: State, q: int, v: int, nodes: nat, self: int)
    requires Inv(c, nodes, self) && Enabled(c, Report(q, v), nodes, self)
    ensures Inv(Next(c, Report(q, v), nodes, self), nodes, self)
  {
    var c' := Next(c, Report(q, v), nodes, self);
    SeenMoves(c.lead, c'.lead, nodes, self);
    forall p | 0 <= p < nodes
      ensures NodeOk(c', self, p)
    {
      assert NodeOk(c, self, p);
    }
    forall m | m in c'.net
      ensures MsgOk(c', nodes, self, m)
    {
      assert MsgOk(c, nodes, self, m);
    }
    forall p: int, j: int
      ensures AnswerOk(c', nodes, p, j)
    {
      assert AnswerOk(c, nodes, p, j);
    }
  }

  lemma ApplyNodes(c: State, q: int, nodes: nat, self: int, p: int)
    requires Inv(c, nodes, self) && Enabled(c, Apply(q), nodes, self) && 0 <= p < nodes
    ensures NodeOk(Applied(c, q, self), self, p)
  {
    assert NodeOk(c, self, p);
    if p == q {
      FlagIsReplier(c, q, c.applied[q], nodes, self);
    }
  }

  lemma ApplyAnswers(c: State, q: int, nodes: nat, self: int, p: int, i: int)
    requires Inv(c, nodes, self) && Enabled(c, Apply(q), nodes, self)
    ensures AnswerOk(Applied(c, q, self), nodes, p, i)
  {
    assert AnswerOk(c, nodes, p, i);
    FlagIsReplier(c, q, c.applied[q], nodes, self);
  }

  lemma ApplyKeeps(c: State, q: int, nodes: nat, self: int)
    requires Inv(c, nodes, self) && Enabled(c, Apply(q), nodes, self)
    ensures Inv(Next(c, Apply(q), nodes, self), nodes, self)
  {
    var c' := Applied(c, q, self);
    SeenMoves(c.lead, c'.lead, nodes, self);
    forall p | 0 <= p < nodes
      ensures NodeOk(c', self, p)
    {
      ApplyNodes(c, q, nodes, self, p);
    }
    forall m | m in c'.net
      ensures MsgOk(c', nodes, self, m)
    {
      assert MsgOk(c, nodes, self, m);
    }
    forall p: int, i: int
      ensures AnswerOk(c', nodes, p, i)
    {
      ApplyAnswers(c, q, nodes, self, p, i);
    }
  }

  /** A node that holds an entry carries SHOULD_REPLY for it exactly if it is the entry's replier at the leader. */
  lemma FlagIsReplier(c: State, p: int, i: int, nodes: nat, self: int)
    requires Inv(c, nodes, self) && 0 <= p < nodes && 0 <= i < |Held(c, p, self)|
    ensures i < |c.lead.log| && Held(c, p, self)[i] == c.lead.log[i]
    ensures ShouldReply(c, p, i, self) <==> c.lead.log[i].replier == p
  {
    assert NodeOk(c, self, p);
    if p == self {
      assert EntryOk(c.lead, nodes, self, i);
    }
  }

  lemma NextKeeps(c: State, s: Step, nodes: nat, self: int)
    requires Inv(c, nodes, self) && Enabled(c, s, nodes, self)
    ensures Inv(Next(c, s, nodes, self), nodes, self)
  {
    match s
    case Order(normal) => OrderKeeps(c, normal, nodes, self);
    case Send(to, prev, n, picks) => SendKeeps(c, to, prev, n, picks, nodes, self);
    case Receive(m) => ReceiveKeeps(c, m, nodes, self);
    case Commit(i) => CommitKeeps(c, i, nodes, self);
    case Apply(p) => ApplyKeeps(c, p, nodes, self);
    case Report(p, v) => ReportKeeps(c, p, v, nodes, self);
  }

  // ----- runs -----

  /** The state after a run, or None if some step was not possible. */
  ghost function After(nodes: nat, self: int, steps: seq<Step>): Option<State> {
    if steps == [] then Some(Start(nodes))
    else
      var last := |steps| - 1;
      var c := After(nodes, self, steps[..last]);
      if c.Some? && Shaped(c.value, nodes) && Enabled(c.value, steps[last], nodes, self)
      then Some(Next(c.value, steps[last], nodes, self)) else None
  }

  lemma {:induction false} RunKeeps(nodes: nat, self: int, steps: seq<Step>)
    requires 0 <= self < nodes && After(nodes, self, steps).Some?
    ensures Inv(After(nodes, self, steps).value, nodes, self)
  {
    if steps == [] {
      StartInv(nodes, self);
    } else {
      var last := |steps| - 1;
      RunKeeps(nodes, self, steps[..last]);
      NextKeeps(After(nodes, self, steps[..last]).value, steps[last], nodes, self);
    }
  }

  /** A step changes no entry that has its replier. */
  lemma NextStable(c: State, s: Step, nodes: nat, self: int)
    requires Inv(c, nodes, self) && Enabled(c, s, nodes, self)
    ensures var c' := Next(c, s, nodes, self);
            && c.lead.assignedIdx <= c'.lead.assignedIdx <= |c'.lead.log|
            && forall i :: 0 <= i < c.lead.assignedIdx ==> c'.lead.log[i] == c.lead.log[i]
  {
    if s.Send? {
      AssignAllOk(c.lead, s.picks, nodes, self);
    }
  }

  /** Each log position gets its replier once: from then on the entry stays as it is. */
  lemma {:induction false} AssignedOnce(nodes: nat, self: int, steps: seq<Step>, j: nat, i: int)
    requires 0 <= self < nodes && j <= |steps| && After(nodes, self, steps).Some?
    ensures After(nodes, self, steps[..j]).Some?
    ensures var c, c' := After(nodes, self, steps[..j]).value, After(nodes, self, steps).value;
            0 <= i < c.lead.assignedIdx <= |c.lead.log| ==>
              i < c'.lead.assignedIdx <= |c'.lead.log| && c'.lead.log[i] == c.lead.log[i]
    decreases |steps| - j
  {
    if j == |steps| {
      assert steps[..j] == steps;
      RunKeeps(nodes, self, steps);
    } else {
      var last := |steps| - 1;
      var most := steps[..last];
      assert most[..j] == steps[..j];
      AssignedOnce(nodes, self, most, j, i);
      RunKeeps(nodes, self, most);
      NextStable(After(nodes, self, most).value, steps[last], nodes, self);
    }
  }

  /** All nodes that hold an entry agree on its replier, and exactly that node carries SHOULD_REPLY. */
  lemma ExactlyOneReplier(nodes: nat, self: int, steps: seq<Step>, p: int, q: int, i: int)
    requires 0 <= self < nodes && After(nodes, self, steps).Some? && 0 <= p < nodes && 0 <= q < nodes && 0 <= i
    requires var c := After(nodes, self, steps).value;
             |c.copies| == nodes && i < |Held(c, p, self)| && i < |Held(c, q, self)|
    ensures var c := After(nodes, self, steps).value;
            && Held(c, p, self)[i] == Held(c, q, self)[i] && |c.marks| == nodes
            && (ShouldReply(c, p, i, self) <==> Held(c, q, self)[i].replier == p)
            && (p != q ==> !(ShouldReply(c, p, i, self) && ShouldReply(c, q, i, self)))
  {
    RunKeeps(nodes, self, steps);
    var c := After(nodes, self, steps).value;
    FlagIsReplier(c, p, i, nodes, self);
    FlagIsReplier(c, q, i, nodes, self);
  }

  /** In every run a request is answered at most once by all nodes together, and only by its replier. */
  lemma AtMostOneAnswer(nodes: nat, self: int, steps: seq<Step>, p: int, q: int, i: int)
    requires 0 <= self < nodes && After(nodes, self, steps).Some?
    ensures var c := After(nodes, self, steps).value;
            && c.answers[(p, i)] <= 1 && (p != q ==> c.answers[(p, i)] + c.answers[(q, i)] <= 1)
            && (c.answers[(p, i)] == 1 <==> |c.applied| == nodes && 0 <= p < nodes && 0 <= i < c.applied[p]
                                            && i < |c.lead.log| && c.lead.log[i].replier == p)
  {
    RunKeeps(nodes, self, steps);
    var c := After(nodes, self, steps).value;
    assert AnswerOk(c, nodes, p, i) && AnswerOk(c, nodes, q, i);
  }

  /**
   What a node is known to have done never exceeds what it was given, so the open counts cannot wrap, in every cluster
   of two or more nodes. A lone leader assigns nothing and gets ahead of its count.
   */
  lemma DoneBelowGiven(nodes: nat, self: int, steps: seq<Step>, p: int)
    requires 0 <= self < nodes && nodes != 1 && After(nodes, self, steps).Some? && 0 <= p < nodes
    ensures var c := After(nodes, self, steps).value;
            Shaped(c, nodes) && c.lead.seen[p] <= c.done[p] <= c.lead.given[p]
  {
    RunKeeps(nodes, self, steps);
    var c := After(nodes, self, steps).value;
    assert NodeOk(c, self, p) && GivenOk(c.lead, p);
    CountGrows(c.lead.log, c.applied[p], c.lead.assignedIdx, p);
  }

  /**
   The first entry without a replier lies within the message being built, whenever the message stays within the
   entries offered to it.
   */
  lemma IndexInRange(nodes: nat, self: int, steps: seq<Step>, to: int, prev: int, n: int)
    requires 0 <= self < nodes && After(nodes, self, steps).Some? && 0 <= to < nodes && to != self
    requires var c := After(nodes, self, steps).value;
             Shaped(c, nodes) && 0 <= prev <= |c.copies[to]| && 0 <= n && prev + n <= |c.lead.log|
    ensures var c := After(nodes, self, steps).value;
            var m := Trimmed(c.lead, prev, n, c.commit);
            && 0 <= c.lead.assignedIdx - prev && c.commit <= c.lead.assignedIdx
            && (m <= n <==> !(n == 0 && prev > c.commit && !Below(c.lead, BOUNDED_QUEUE)))
            && (c.lead.assignedIdx < prev + m && m <= n ==> c.lead.assignedIdx - prev < n)
  {
    RunKeeps(nodes, self, steps);
    var c := After(nodes, self, steps).value;
    assert NodeOk(c, self, to);
  }
}
