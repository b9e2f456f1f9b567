/**
 Spreading the replies of a replicated service over the nodes (LB_REPLIES in r2p2/hovercraft.c).
 The leader picks the replier of every log entry when it first sends the entry out.
 */
module Replier {
  import opened Collections

  const MAX_ENTRIES_PER_MSG := 30
  const BOUNDED_QUEUE := 32

  /** normal is false for requests without side effects, which only their replier executes. */
  datatype Entry = Entry(normal: bool, replier: int)

  /**
   The leader: its log, the SHOULD_REPLY flags of the requests in it, how far repliers are assigned, how many
   requests each node has been given, and how many each is known to have done.
   */
  datatype Lead = Lead(log: seq<Entry>, flags: seq<bool>, assignedIdx: int, given: seq<int>, seen: seq<int>)

  /** Does node p execute this entry? */
  predicate Counts(e: Entry, p: int) {
    e.normal || e.replier == p
  }

  /** How many of the first k entries node p executes. */
  function Count(log: seq<Entry>, k: int, p: int): (n: int)
    ensures n >= 0
    decreases k
  {
    if k <= 0 || k > |log| then 0 else Count(log, k - 1, p) + if Counts(log[k - 1], p) then 1 else 0
  }

  lemma {:induction false} CountSame(log: seq<Entry>, log': seq<Entry>, k: int, p: int)
    requires k <= |log| && k <= |log'| && forall i :: 0 <= i < k ==> log[i] == log'[i]
    ensures Count(log, k, p) == Count(log', k, p)
    decreases k
  {
    if k > 0 {
      CountSame(log, log', k - 1, p);
    }
  }

  lemma {:induction false} CountGrows(log: seq<Entry>, j: int, k: int, p: int)
    requires 0 <= j <= k <= |log|
    ensures Count(log, j, p) <= Count(log, k, p)
    decreases k
  {
    if j < k {
      CountGrows(log, j, k - 1, p);
    }
  }

  /** Requests given to node p and not yet known to be done. */
  function Open(l: Lead, p: int): int
    requires 0 <= p < |l.given| == |l.seen|
  {
    l.given[p] - l.seen[p]
  }

  /** Some node has fewer than bound open requests. */
  ghost predicate Below(l: Lead, bound: int)
    requires |l.given| == |l.seen|
  {
    exists p :: 0 <= p < |l.given| && Open(l, p) < bound
  }

  /** What the leader keeps: flags follow the repliers, its own id until assigned, and the counts are right. */
  ghost predicate LeadOk(l: Lead, nodes: int, self: int) {
    && 0 <= self < nodes && |l.given| == |l.seen| == nodes
    && |l.flags| == |l.log| && 0 <= l.assignedIdx <= |l.log|
    && (forall i {:trigger EntryOk(l, nodes, self, i)} :: 0 <= i < |l.log| ==> EntryOk(l, nodes, self, i))
    && (forall p {:trigger GivenOk(l, p)} :: 0 <= p < nodes ==> GivenOk(l, p))
  }

  ghost predicate EntryOk(l: Lead, nodes: int, self: int, i: int)
    requires 0 <= i < |l.log| == |l.flags|
  {
    && 0 <= l.log[i].replier < nodes
    && (l.flags[i] <==> l.log[i].replier == self)
    && (i >= l.assignedIdx ==> l.log[i].replier == self)
  }

  ghost predicate GivenOk(l: Lead, p: int)
    requires 0 <= p < |l.given|
  {
    l.given[p] == Count(l.log, l.assignedIdx, p)
  }

  // ----- the three changes to the leader -----

  /** order_one_req and r2p2_log_offer: a new entry, for the leader to reply to until it is assigned. */
  function Ordered(l: Lead, normal: bool, self: int): Lead {
    l.(log := l.log + [Entry(normal, self)], flags := l.flags + [true])
  }

  /** Node r becomes the replier of the next unassigned entry. */
  function AssignOne(l: Lead, r: int, self: int): Lead
    requires 0 <= l.assignedIdx < |l.log| == |l.flags| && 0 <= r < |l.given|
  {
    var i := l.assignedIdx;
    var e := l.log[i].(replier := r);
    l.(log := l.log[i := e], flags := l.flags[i := l.flags[i] && r == self], assignedIdx := i + 1,
       given := if e.normal then AllUp(l.given) else l.given[r := l.given[r] + 1])
  }

  function AllUp(s: seq<int>): seq<int> {
    seq(|s|, i requires 0 <= i < |s| => s[i] + 1)
  }

  ghost predicate PicksOk(picks: seq<int>, nodes: int) {
    forall i :: 0 <= i < |picks| ==> 0 <= picks[i] < nodes
  }

  ghost function AssignAll(l: Lead, picks: seq<int>, self: int): (l': Lead)
    requires |l.log| == |l.flags| && 0 <= l.assignedIdx && l.assignedIdx + |picks| <= |l.log|
    requires PicksOk(picks, |l.given|)
    ensures |l'.log| == |l'.flags| == |l.log| && |l'.given| == |l.given| && l'.seen == l.seen
    ensures l'.assignedIdx == l.assignedIdx + |picks|
  {
    if picks == [] then l
    else AssignOne(AssignAll(l, picks[..|picks| - 1], self), picks[|picks| - 1], self)
  }

  lemma OrderedOk(l: Lead, normal: bool, nodes: int, self: int)
    requires LeadOk(l, nodes, self)
    ensures LeadOk(Ordered(l, normal, self), nodes, self)
  {
    var l' := Ordered(l, normal, self);
    forall i | 0 <= i < |l'.log|
      ensures EntryOk(l', nodes, self, i)
    {
      if i < |l.log| {
        assert EntryOk(l, nodes, self, i);
      }
    }
    forall p | 0 <= p < nodes
      ensures GivenOk(l', p)
    {
      assert GivenOk(l, p);
      CountSame(l.log, l'.log, l.assignedIdx, p);
    }
  }

  lemma AssignOneOk(l: Lead, r: int, nodes: int, self: int)
    requires LeadOk(l, nodes, self) && l.assignedIdx < |l.log| && 0 <= r < nodes
    ensures LeadOk(AssignOne(l, r, self), nodes, self)
    ensures forall p :: 0 <= p < nodes ==> l.given[p] <= AssignOne(l, r, self).given[p] <= l.given[p] + 1
  {
    var l' := AssignOne(l, r, self);
    forall i | 0 <= i < |l'.log|
      ensures EntryOk(l', nodes, self, i)
    {
      assert EntryOk(l, nodes, self, i);
    }
    forall p | 0 <= p < nodes
      ensures GivenOk(l', p)
    {
      assert GivenOk(l, p);
      CountSame(l.log, l'.log, l.assignedIdx, p);
    }
  }

  /** Assigning touches no entry that had its replier, and gives a node at most one request per entry. */
  lemma {:induction false} AssignAllOk(l: Lead, picks: seq<int>, nodes: int, self: int)
    requires LeadOk(l, nodes, self) && l.assignedIdx + |picks| <= |l.log| && PicksOk(picks, nodes)
    ensures var l' := AssignAll(l, picks, self);
            && LeadOk(l', nodes, self)
            && (forall i :: 0 <= i < l.assignedIdx ==> l'.log[i] == l.log[i])
            && (forall i :: 0 <= i < |picks| ==> l'.log[l.assignedIdx + i].replier == picks[i])
            && (forall p :: 0 <= p < nodes ==> l.given[p] <= l'.given[p] <= l.given[p] + |picks|)
    decreases |picks|
  {
    if picks != [] {
      var most := picks[..|picks| - 1];
      AssignAllOk(l, most, nodes, self);
      AssignOneOk(AssignAll(l, most, self), picks[|picks| - 1], nodes, self);
    }
  }

  /** With a slot free as a message is built, every entry of it finds a node below twice the bound: 31 + 29 < 64. */
  lemma CandidateThroughout(l: Lead, picks: seq<int>, nodes: int, self: int)
    requires LeadOk(l, nodes, self) && l.assignedIdx + |picks| <= |l.log| && PicksOk(picks, nodes)
    requires Below(l, BOUNDED_QUEUE) && |picks| < MAX_ENTRIES_PER_MSG
    ensures Below(AssignAll(l, picks, self), 2 * BOUNDED_QUEUE)
  {
    AssignAllOk(l, picks, nodes, self);
    var p :| 0 <= p < |l.given| && Open(l, p) < BOUNDED_QUEUE;
    assert Open(AssignAll(l, picks, self), p) < 2 * BOUNDED_QUEUE;
  }

  /** How many entries a message after prev carries when the library offers n. */
  ghost function Trimmed(l: Lead, prev: int, n: int, commit: int): int
    requires |l.given| == |l.seen|
  {
    var m := Min(n, MAX_ENTRIES_PER_MSG);
    if prev + m > commit && !Below(l, BOUNDED_QUEUE) then 1 else m
  }

  lemma SeenMoves(l: Lead, l': Lead, nodes: int, self: int)
    requires LeadOk(l, nodes, self) && l' == l.(seen := l'.seen) && |l'.seen| == nodes
    ensures LeadOk(l', nodes, self)
  {
    forall i | 0 <= i < |l'.log|
      ensures EntryOk(l', nodes, self, i)
    {
      assert EntryOk(l, nodes, self, i);
    }
    forall p | 0 <= p < nodes
      ensures GivenOk(l', p)
    {
      assert GivenOk(l, p);
    }
  }

  // ----- the choice of a replier -----

  /** The nodes among the first m with fewer than 64 open requests. */
  function Candidates(l: Lead, m: nat): seq<int>
    requires m <= |l.given| == |l.seen|
  {
    if m == 0 then [] else Candidates(l, m - 1) + if Open(l, m - 1) < 64 then [m - 1] else []
  }

  ghost predicate AllBelow(l: Lead, some: seq<int>, m: int)
    requires m <= |l.given| == |l.seen|
  {
    forall k :: 0 <= k < |some| ==> 0 <= some[k] < m && Open(l, some[k]) < 64
  }

  lemma {:induction false} CandidatesOk(l: Lead, m: nat)
    requires m <= |l.given| == |l.seen|
    ensures AllBelow(l, Candidates(l, m), m)
  {
    if m > 0 {
      CandidatesOk(l, m - 1);
      var most, all := Candidates(l, m - 1), Candidates(l, m);
      forall k | 0 <= k < |all|
        ensures 0 <= all[k] < m && Open(l, all[k]) < 64
      {
        assert all[k] == if k < |most| then most[k] else m - 1;
      }
    }
  }

  lemma {:induction false} EveryCandidate(l: Lead, m: nat, p: int) returns (k: nat)
    requires m <= |l.given| == |l.seen| && 0 <= p < m && Open(l, p) < 64
    ensures k < |Candidates(l, m)| && Candidates(l, m)[k] == p
  {
    if p < m - 1 {
      k := EveryCandidate(l, m - 1, p);
    } else {
      k := |Candidates(l, m - 1)|;
    }
  }

  lemma SomeCandidate(l: Lead, some: seq<int>)
    requires |l.given| == |l.seen| && some == Candidates(l, |l.given|)
    ensures some != [] <==> Below(l, 2 * BOUNDED_QUEUE)
  {
    CandidatesOk(l, |l.given|);
    if some != [] {
      assert 0 <= some[0] < |l.given| && Open(l, some[0]) < 2 * BOUNDED_QUEUE;
    }
    if Below(l, 2 * BOUNDED_QUEUE) {
      var p :| 0 <= p < |l.given| && Open(l, p) < 2 * BOUNDED_QUEUE;
      var k := EveryCandidate(l, |l.given|, p);
    }
  }

  /**
   What may be picked: with smart balancing the first of the least loaded nodes if one has fewer than 32 open requests,
   else the leader; otherwise any node with fewer than 64.
   */
  ghost predicate PickOk(l: Lead, r: int, smart: bool, self: int)
    requires |l.given| == |l.seen|
  {
    && 0 <= r < |l.given|
    && if !smart then Open(l, r) < 64
       else if exists p :: 0 <= p < |l.given| && Open(l, p) < 32
       then forall p :: 0 <= p < |l.given| ==> Open(l, r) <= Open(l, p) && (p < r ==> Open(l, r) < Open(l, p))
       else r == self
  }

  /** Pick j was right when the picks before it had been assigned. */
  ghost predicate PickedWell(l: Lead, picks: seq<int>, j: int, smart: bool, self: int)
    requires |l.given| == |l.seen| && |l.log| == |l.flags| && 0 <= l.assignedIdx && l.assignedIdx + |picks| <= |l.log|
    requires PicksOk(picks, |l.given|) && 0 <= j < |picks|
  {
    PickOk(AssignAll(l, picks[..j], self), picks[j], smart, self)
  }

  ghost predicate AllPickedWell(l: Lead, picks: seq<int>, smart: bool, self: int)
    requires |l.given| == |l.seen| && |l.log| == |l.flags| && 0 <= l.assignedIdx && l.assignedIdx + |picks| <= |l.log|
    requires PicksOk(picks, |l.given|)
  {
    forall j {:trigger PickedWell(l, picks, j, smart, self)} ::
      0 <= j < |picks| ==> PickedWell(l, picks, j, smart, self)
  }

  lemma PickedOneMore(l: Lead, picks: seq<int>, r: int, smart: bool, self: int)
    requires |l.given| == |l.seen| && |l.log| == |l.flags| && 0 <= l.assignedIdx && l.assignedIdx + |picks| < |l.log|
    requires PicksOk(picks, |l.given|) && AllPickedWell(l, picks, smart, self)
    requires PickOk(AssignAll(l, picks, self), r, smart, self)
    ensures PicksOk(picks + [r], |l.given|) && AllPickedWell(l, picks + [r], smart, self)
  {
    var more := picks + [r];
    forall j | 0 <= j < |more|
      ensures PickedWell(l, more, j, smart, self)
    {
      assert more[..j] == picks[..j];
      if j < |picks| {
        assert PickedWell(l, picks, j, smart, self);
      } else {
        assert picks[..j] == picks;
      }
    }
  }

  // ----- the leader at work -----

  /** What r2p2_send_appendentries comes to: nothing, a message, a stray access, or a failed assertion. */
  datatype Outcome = Skipped | Built(entries: seq<Entry>) | OutOfRange | NoCandidate

  class Leader {
    const nodes: int  // real_peer_cnt
    const self: int   // local_raft_id
    var log: seq<Entry>
    var flags: seq<bool>
    var assignedIdx: int
    var given: seq<int>
    var peerDone: seq<int>
    var done: int
    var pendingAe: seq<bool>

    function DoneOf(p: int): int
      requires 0 <= p < |peerDone|
      reads this
    {
      if p == self then done else peerDone[p]
    }

    function View(): Lead
      reads this
    {
      Lead(log, flags, assignedIdx, given, seq(|peerDone|, p requires 0 <= p < |peerDone| reads this => DoneOf(p)))
    }

    ghost predicate Valid()
      reads this
    {
      LeadOk(View(), nodes, self) && |peerDone| == |pendingAe| == nodes <= 64
    }

    /** r2p2_became_leader on an empty log. */
    constructor (nodes: int, self: int)
      requires 0 <= self < nodes <= 64
      ensures Valid() && View() == Lead([], [], 0, seq(nodes, _ => 0), seq(nodes, _ => 0))
    {
      this.nodes, this.self := nodes, self;
      log, flags, assignedIdx, done := [], [], 0, 0;
      given, peerDone, pendingAe := seq(nodes, _ => 0), seq(nodes, _ => 0), seq(nodes, _ => false);
      new;
      assert View() == Lead([], [], 0, seq(nodes, _ => 0), seq(nodes, _ => 0));
    }

    /** order_one_req, with the callback that marks the new entry for the leader to reply to. */
    method OrderOneReq(normal: bool)
      requires Valid()
      modifies this`log, this`flags
      ensures Valid() && View() == Ordered(old(View()), normal, self)
    {
      OrderedOk(View(), normal, nodes, self);
      ghost var after := Ordered(View(), normal, self);
      log := log + [Entry(normal, self)];
      flags := flags + [true];
      assert View().seen == after.seen;
    }

    /** The reply of another node to an append reports how many requests it has done, and the next append may go out. */
    method ReceiveReport(p: int, value: int)
      requires Valid() && 0 <= p < nodes && p != self
      modifies this`peerDone, this`pendingAe
      ensures Valid() && View() == old(View()).(seen := old(View()).seen[p := value])
      ensures pendingAe == old(pendingAe)[p := false]
    {
      ghost var after := View().(seen := View().seen[p := value]);
      SeenMoves(View(), after, nodes, self);
      pendingAe := pendingAe[p := false];
      peerDone := peerDone[p := value];
      assert View().seen == after.seen;
    }

    /** r2p2_applylog at the leader: an entry without side effects is passed over unless the leader replies to it. */
    method ApplyLog(i: int)
      requires Valid() && 0 <= i < |log|
      modifies this`done
      ensures Valid()
      ensures var l := old(View());
              View() == if l.log[i].normal || l.log[i].replier == self
                        then l.(seen := l.seen[self := l.seen[self] + 1]) else l
    {
      ghost var l := View();
      if log[i].normal || log[i].replier == self {
        SeenMoves(l, l.(seen := l.seen[self := l.seen[self] + 1]), nodes, self);
        done := done + 1;
        assert View().seen == l.seen[self := l.seen[self] + 1];
      }
    }

    method CheckAvailableSlots() returns (free: bool)
      requires Valid()
      ensures free <==> Below(View(), BOUNDED_QUEUE)
    {
      for i := 0 to nodes
        invariant forall p :: 0 <= p < i ==> Open(View(), p) >= BOUNDED_QUEUE
      {
        if given[i] - DoneOf(i) < BOUNDED_QUEUE {
          assert Open(View(), i) < BOUNDED_QUEUE;
          return true;
        }
        assert Open(View(), i) >= BOUNDED_QUEUE;
      }
      free := false;
    }

    /** bounded_rand: the random choice among the nodes below twice the bound, or -1 where the assertion fails. */
    method BoundedRand(rand: nat) returns (r: int)
      requires Valid()
      ensures r == -1 <==> !Below(View(), 2 * BOUNDED_QUEUE)
      ensures var some := Candidates(View(), nodes); r == if some == [] then -1 else some[rand % |some|]
      ensures r != -1 ==> 0 <= r < nodes && Open(View(), r) < 2 * BOUNDED_QUEUE
    {
      CandidatesOk(View(), nodes);
      SomeCandidate(View(), Candidates(View(), nodes));
      var candidates: seq<int> := [];
      for i := 0 to nodes
        invariant candidates == Candidates(View(), i)
      {
        assert Open(View(), i) == given[i] - DoneOf(i);
        if given[i] - DoneOf(i) < 2 * BOUNDED_QUEUE {
          candidates := candidates + [i];
        }
      }
      if candidates == [] { return -1; }
      r := candidates[rand % |candidates|];
    }

    /** smart_lb: the first node with the fewest open requests, if that is below the bound, else the leader. */
    method SmartLb() returns (r: int)
      requires Valid()
      ensures 0 <= r < nodes
      ensures !Below(View(), BOUNDED_QUEUE) ==> r == self
      ensures Below(View(), BOUNDED_QUEUE) ==>
                Open(View(), r) < BOUNDED_QUEUE && forall p :: 0 <= p < nodes ==> Open(View(), r) <= Open(View(), p)
      ensures PickOk(View(), r, true, self)
    {
      var min;
      r, min := self, BOUNDED_QUEUE;
      for i := 0 to nodes
        invariant 0 <= r < nodes && min <= BOUNDED_QUEUE
        invariant forall p :: 0 <= p < i ==> min <= Open(View(), p)
        invariant if min < BOUNDED_QUEUE then Open(View(), r) == min else r == self
        invariant min < BOUNDED_QUEUE ==> r < i && forall p :: 0 <= p < r ==> min < Open(View(), p)
      {
        assert Open(View(), i) == given[i] - DoneOf(i);
        if given[i] - DoneOf(i) < min {
          r, min := i, given[i] - DoneOf(i);
        }
      }
    }

    method PickReplier(smart: bool) returns (r: int)
      requires Valid()
      ensures r == -1 <==> !smart && !Below(View(), 2 * BOUNDED_QUEUE)
      ensures -1 <= r < nodes && (r != -1 ==> PickOk(View(), r, smart, self))
    {
      if smart {
        r := SmartLb();
      } else {
        var rand: nat := *;
        r := BoundedRand(rand);
      }
    }

    /** The next unassigned entry gets its replier. */
    method Assign(r: int)
      requires Valid() && assignedIdx < |log| && 0 <= r < nodes
      modifies this`log, this`flags, this`assignedIdx, this`given
      ensures Valid() && View() == AssignOne(old(View()), r, self)
    {
      AssignOneOk(View(), r, nodes, self);
      ghost var after := AssignOne(View(), r, self);
      var i := assignedIdx;
      assignedIdx := assignedIdx + 1;
      log := log[i := log[i].(replier := r)];
      if r != self {
        flags := flags[i := false];
      }
      if log[i].normal {
        var up := given;
        for j := 0 to nodes
          invariant |up| == nodes
          invariant forall p :: 0 <= p < nodes ==> up[p] == given[p] + if p < j then 1 else 0
        {
          up := up[j := up[j] + 1];
        }
        given := up;
      } else {
        given := given[r := given[r] + 1];
      }
      assert flags == after.flags && given == after.given && View().seen == after.seen;
    }

    /** The assignment loop; -1 for a replier stops it. */
    method AssignUpTo(end: int, smart: bool) returns (ok: bool, ghost picks: seq<int>)
      requires Valid() && end <= |log| && end - assignedIdx <= MAX_ENTRIES_PER_MSG
      modifies this`log, this`flags, this`assignedIdx, this`given
      ensures Valid() && PicksOk(picks, nodes) && old(assignedIdx) + |picks| <= |old(log)|
      ensures View() == AssignAll(old(View()), picks, self) && AllPickedWell(old(View()), picks, smart, self)
      ensures ok ==> |picks| == if old(assignedIdx) < end then end - old(assignedIdx) else 0
      ensures smart || Below(old(View()), BOUNDED_QUEUE) ==> ok
      ensures end - old(assignedIdx) <= 1 ==>
                (!ok <==> !smart && old(assignedIdx) < end && !Below(old(View()), 2 * BOUNDED_QUEUE))
      ensures !ok && end - old(assignedIdx) <= 1 ==> picks == []
    {
      picks := [];
      ghost var l := View();
      while assignedIdx < end
        invariant Valid() && PicksOk(picks, nodes) && |log| == |l.log|
        invariant assignedIdx == l.assignedIdx + |picks| && (picks == [] || assignedIdx <= end)
        invariant View() == AssignAll(l, picks, self) && AllPickedWell(l, picks, smart, self)
        invariant picks != [] ==> smart || Below(l, 2 * BOUNDED_QUEUE)
      {
        var r := AssignNext(smart, l, picks);
        if r == -1 { return false, picks; }
        picks := picks + [r];
      }
      ok := true;
    }

    /** One turn of the loop, after picks have been assigned from l on. */
    method AssignNext(smart: bool, ghost l: Lead, ghost picks: seq<int>) returns (r: int)
      requires Valid() && LeadOk(l, nodes, self) && PicksOk(picks, nodes) && l.assignedIdx + |picks| <= |l.log|
      requires View() == AssignAll(l, picks, self) && assignedIdx < |log| && |picks| < MAX_ENTRIES_PER_MSG
      requires AllPickedWell(l, picks, smart, self)
      modifies this`log, this`flags, this`assignedIdx, this`given
      ensures Valid() && -1 <= r < nodes && (smart || Below(l, BOUNDED_QUEUE) ==> r != -1)
      ensures r == -1 ==> View() == old(View())
      ensures r == -1 <==> !smart && !Below(old(View()), 2 * BOUNDED_QUEUE)
      ensures r != -1 ==> PicksOk(picks + [r], nodes) && l.assignedIdx + |picks + [r]| <= |l.log|
      ensures r != -1 ==> View() == AssignAll(l, picks + [r], self) && AllPickedWell(l, picks + [r], smart, self)
    {
      if Below(l, BOUNDED_QUEUE) {
        CandidateThroughout(l, picks, nodes, self);
      }
      r := PickReplier(smart);
      if r != -1 {
        PickedOneMore(l, picks, r, smart, self);
        Assign(r);
        assert (picks + [r])[..|picks|] == picks;
      }
    }

    /** How many of the n entries offered go into a message after prev. */
    method Trim(prev: int, n: int, commit: int) returns (m: int)
      requires Valid()
      ensures m == Trimmed(View(), prev, n, commit)
    {
      m := Min(n, MAX_ENTRIES_PER_MSG);
      if prev + m > commit {
        var free := CheckAvailableSlots();
        if !free {
          m := 1;
        }
      }
    }

    /**
     r2p2_send_appendentries, for entries that follow what was sent to the node before. Repliers are assigned to
     those entries of the message that have none; picks lists them. The assertion on a candidate fails exactly when a
     reply is to be assigned at random and every node has twice the bound open; what is committed has its replier.
     */
    method SendAppendEntries(to: int, prev: int, n: int, commit: int, smart: bool)
      returns (out: Outcome, ghost picks: seq<int>)
      requires Valid() && 0 <= to < nodes && 0 <= prev <= assignedIdx && 0 <= n && prev + n <= |log|
      modifies this
      ensures Valid() && old(assignedIdx) + |picks| <= |old(log)| && PicksOk(picks, nodes)
      ensures View() == AssignAll(old(View()), picks, self) && AllPickedWell(old(View()), picks, smart, self)
      ensures out.Skipped? <==> old(pendingAe)[to]
      ensures pendingAe == if out.Built? then old(pendingAe)[to := true] else old(pendingAe)
      ensures out.Skipped? || out.OutOfRange? ==> picks == []
      ensures out.OutOfRange? <==> !old(pendingAe)[to] && n == 0 && prev > commit && !Below(old(View()), BOUNDED_QUEUE)
      ensures out.Built? ==> var end := prev + Trimmed(old(View()), prev, n, commit);
                             && prev <= end <= assignedIdx && out.entries == log[prev..end]
                             && |picks| == if old(assignedIdx) < end then end - old(assignedIdx) else 0
      ensures out.Built? && (prev + n <= commit || exists p :: 0 <= p < nodes && Open(old(View()), p) < 32) ==>
                |out.entries| == if n < 30 then n else 30
      ensures out.Built? && prev + n > commit && prev + 30 > commit ==>
                (forall p :: 0 <= p < nodes ==> Open(old(View()), p) >= 32) ==> |out.entries| == 1
      ensures smart || Below(old(View()), BOUNDED_QUEUE) ==> !out.NoCandidate?
      ensures commit <= old(assignedIdx) ==>
                (out.NoCandidate? <==>
                  var end := prev + Trimmed(old(View()), prev, n, commit);
                  && !old(pendingAe)[to] && !smart && old(assignedIdx) < end <= prev + n
                  && !Below(old(View()), 2 * BOUNDED_QUEUE))
      ensures out.NoCandidate? && commit <= old(assignedIdx) ==> picks == []
    {
      picks := [];
      if pendingAe[to] { return Skipped, picks; }
      var m := Trim(prev, n, commit);
      if m > n { return OutOfRange, picks; }
      var ok;
      ok, picks := AssignUpTo(prev + m, smart);
      if !ok { return NoCandidate, picks; }
      pendingAe := pendingAe[to := true];
      assert View() == AssignAll(old(View()), picks, self);
      out := Built(log[prev..prev + m]);
    }
  }
}
