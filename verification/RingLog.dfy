/**
 The ring that keeps the requests of recent log entries (r2p2/hovercraft-log.c), and the flow control that keeps a
 leader from overwriting requests it has not executed yet (r2p2/hovercraft.c).
 */
module RingLog {
  import opened Collections
  import Probing

  const LOG_ENTRY_COUNT := 32768
  const FC_THRESHOLD := 16384
  const BATCH_SIZE := 128

  function Slot(i: int): int {
    i % LOG_ENTRY_COUNT
  }

  /** Within one turn of the ring slots are distinct, and the turn before met the same ones. */
  lemma Window(i: int, n: int)
    ensures n - LOG_ENTRY_COUNT < i < n ==> Slot(i) != Slot(n)
    ensures Slot(n - LOG_ENTRY_COUNT) == Slot(n) && 0 <= Slot(n) < LOG_ENTRY_COUNT
    ensures 0 <= n < LOG_ENTRY_COUNT ==> Slot(n) == n
  {
  }

  /** The head counter wraps at 2^32 without disturbing the slots. */
  lemma HeadSlot(n: nat)
    ensures Slot(n % Probing.WORD) == Slot(n)
  {
    assert n == n / Probing.WORD * Probing.WORD + n % Probing.WORD;
    Turns(n % Probing.WORD, n / Probing.WORD * 131072);
  }

  lemma Turns(x: int, k: int)
    ensures Slot(x + k * LOG_ENTRY_COUNT) == Slot(x)
  {
  }

  class Entry {
    var buf: int  // the slot of the request, or -1 for null

    constructor ()
      ensures buf == -1
    {
      buf := -1;
    }
  }

  /** The last of the first n additions that went into slot s, or -1. */
  ghost function LastAt(s: int, n: nat): int {
    if n == 0 then -1 else if Slot(n - 1) == s then n - 1 else LastAt(s, n - 1)
  }

  lemma {:induction false} LastIsLast(s: int, n: nat, j: int)
    requires 0 <= j < n && Slot(j) == s
    ensures j <= LastAt(s, n) < n && Slot(LastAt(s, n)) == s
  {
    if Slot(n - 1) != s {
      LastIsLast(s, n - 1, j);
    }
  }

  lemma {:induction false} LastBelongs(s: int, n: nat)
    ensures LastAt(s, n) == -1 || (0 <= LastAt(s, n) < n && Slot(LastAt(s, n)) == s)
  {
    if n > 0 {
      LastBelongs(s, n - 1);
    }
  }

  /** An addition is the last of its slot exactly while fewer than 2^15 have followed it. */
  lemma {:induction false} LastWindow(i: int, n: nat)
    requires 0 <= i < n
    ensures LastAt(Slot(i), n) == i <==> n - LOG_ENTRY_COUNT <= i
  {
    if n - LOG_ENTRY_COUNT <= i {
      if i < n - 1 {
        Window(i, n - 1);
        LastWindow(i, n - 1);
      }
    } else {
      Window(i, i + LOG_ENTRY_COUNT);
      LastIsLast(Slot(i), n, i + LOG_ENTRY_COUNT);
    }
  }

  lemma {:induction false} Unused(s: int, n: nat)
    requires n <= s < LOG_ENTRY_COUNT
    ensures LastAt(s, n) == -1
  {
    if n > 0 {
      Window(0, n - 1);
      Unused(s, n - 1);
    }
  }

  /** What the slot of the next addition holds. */
  lemma NextVictim(n: nat)
    ensures LastAt(Slot(n), n) == if n < LOG_ENTRY_COUNT then -1 else n - LOG_ENTRY_COUNT
  {
    Window(0, n);
    if n < LOG_ENTRY_COUNT {
      Unused(n, n);
    } else {
      LastWindow(n - LOG_ENTRY_COUNT, n);
    }
  }

  /** Which addition every slot holds after n of them. */
  ghost predicate Holding(at: seq<int>, n: nat) {
    |at| == LOG_ENTRY_COUNT && forall s :: 0 <= s < LOG_ENTRY_COUNT ==> at[s] == LastAt(s, n)
  }

  lemma HoldingStep(at: seq<int>, n: nat)
    requires Holding(at, n)
    ensures 0 <= Slot(n) < |at| && Holding(at[Slot(n) := n], n + 1)
    ensures at[Slot(n)] == if n < LOG_ENTRY_COUNT then -1 else n - LOG_ENTRY_COUNT
  {
    NextVictim(n);
  }

  /** The requests that later ones have pushed out of the ring. */
  function Displaced(data: seq<int>): seq<int> {
    if |data| < LOG_ENTRY_COUNT then [] else data[..|data| - LOG_ENTRY_COUNT]
  }

  lemma DisplacedStep(data: seq<int>, sp: int)
    ensures var n := |data|;
            Displaced(data + [sp]) == Displaced(data) + if n < LOG_ENTRY_COUNT then [] else [data[n - LOG_ENTRY_COUNT]]
  {
  }

  lemma HeadStep(n: nat)
    ensures (n + 1) % Probing.WORD == if n % Probing.WORD + 1 == Probing.WORD then 0 else n % Probing.WORD + 1
  {
  }

  class Ring {
    const entries: array<Entry?>
    const sps: array<int>     // the copied requests
    var head: nat
    ghost var added: seq<Entry>
    ghost var data: seq<int>  // the requests of added
    ghost var freed: seq<int> // the requests whose buffers have been freed
    ghost var at: seq<int>    // which addition every slot holds
    ghost var repr: set<Entry>

    ghost predicate SlotOk(s: int)
      requires 0 <= s < |at| && entries.Length == sps.Length == |at| && |data| == |added|
      reads this`added, this`data, this`at, entries, sps, added
    {
      if at[s] == -1 then entries[s] == null
      else 0 <= at[s] < |added| && entries[s] == added[at[s]] && sps[s] == data[at[s]] && added[at[s]].buf == s
    }

    ghost predicate EntryOk(i: int)
      requires 0 <= i < |added|
      reads this`added, this`at, added
    {
      added[i].buf == -1 || (0 <= added[i].buf < |at| && at[added[i].buf] == i)
    }

    /** Slots, but for one being refilled, and entries point at each other. */
    ghost predicate Linked(skip: int)
      reads this`added, this`data, this`at, this`repr, entries, sps, added
    {
      && (forall i :: 0 <= i < |added| ==> added[i] in repr)
      && (forall i, j :: 0 <= i < j < |added| ==> added[i] != added[j])
      && (forall i {:trigger EntryOk(i)} :: 0 <= i < |added| ==> EntryOk(i))
      && entries.Length == sps.Length == |at| == LOG_ENTRY_COUNT && |data| == |added|
      && (forall s {:trigger SlotOk(s)} :: 0 <= s < |at| && s != skip ==> SlotOk(s))
    }

    /** The requests displaced so far, in order, are the ones freed. */
    ghost predicate Valid()
      reads this, entries, sps, added
    {
      && Linked(-1) && Holding(at, |added|) && head == |added| % Probing.WORD
      && freed == Displaced(data)
    }

    constructor ()
      ensures Valid() && added == [] && repr == {} && fresh(entries) && fresh(sps)
    {
      entries := new Entry?[LOG_ENTRY_COUNT](_ => null);
      sps := new int[LOG_ENTRY_COUNT](_ => 0);
      head, added, data, freed, at, repr := 0, [], [], [], seq(LOG_ENTRY_COUNT, _ => -1), {};
      new;
      assert forall s :: 0 <= s < |at| ==> SlotOk(s);
    }

    /** An entry keeps its request exactly if it is among the last 2^15; an older one knows that it lost it. */
    lemma KeptExactly(i: int)
      requires Valid() && 0 <= i < |added|
      ensures added[i].buf != -1 <==> |added| - LOG_ENTRY_COUNT <= i
      ensures added[i].buf != -1 ==> 0 <= added[i].buf < sps.Length && sps[added[i].buf] == data[i]
    {
      assert EntryOk(i);
      LastWindow(i, |added|);
      Window(i, i);
      if added[i].buf != -1 {
        assert SlotOk(added[i].buf);
        LastBelongs(added[i].buf, |added|);
      } else {
        assert SlotOk(Slot(i));
      }
    }

    /** r2p2_raft_log_add: the request moves into the ring; the entry it displaces loses its own, which is freed. */
    method Add(entry: Entry, sp: int)
      requires Valid() && entry !in added
      modifies this, entries, sps, repr, entry
      ensures Valid() && added == old(added) + [entry] && data == old(data) + [sp] && repr == old(repr) + {entry}
    {
      ghost var n := |added|;
      HeadSlot(n);
      HeadStep(n);
      HoldingStep(at, n);
      DisplacedStep(data, sp);
      var it := head % LOG_ENTRY_COUNT;
      head := if head + 1 == Probing.WORD then 0 else head + 1;
      Displace(it);
      Place(entry, sp, it);
      assert at == old(at)[it := n];
    }

    /** The occupant of a slot, if any, loses its request, which is freed. */
    method Displace(it: int)
      requires Linked(-1) && 0 <= it < LOG_ENTRY_COUNT
      modifies this`freed, this`at, repr
      ensures Linked(it) && at == old(at)[it := -1]
      ensures old(at)[it] != -1 ==> 0 <= old(at)[it] < |data|
      ensures freed == old(freed) + if old(at)[it] == -1 then [] else [data[old(at)[it]]]
    {
      assert SlotOk(it);
      if entries[it] != null {
        entries[it].buf := -1;
        freed := freed + [sps[it]];
      }
      at := at[it := -1];
      forall i | 0 <= i < |added|
        ensures EntryOk(i)
      {
        assert old(EntryOk(i));
      }
      forall s | 0 <= s < |at| && s != it
        ensures SlotOk(s)
      {
        assert old(SlotOk(s));
      }
    }

    /** A slot takes a new entry with its request. */
    method Place(entry: Entry, sp: int, it: int)
      requires 0 <= it < LOG_ENTRY_COUNT && Linked(it) && at[it] == -1 && entry !in added
      modifies this`added, this`data, this`at, this`repr, entries, sps, entry
      ensures Linked(-1) && at == old(at)[it := |old(added)|] && repr == old(repr) + {entry}
      ensures added == old(added) + [entry] && data == old(data) + [sp]
    {
      sps[it] := sp;
      entries[it] := entry;
      entry.buf := it;
      at := at[it := |added|];
      added, data, repr := added + [entry], data + [sp], repr + {entry};
      forall i | 0 <= i < |added|
        ensures EntryOk(i)
      {
        if i < |added| - 1 {
          assert old(EntryOk(i));
        }
      }
      forall s | 0 <= s < |at|
        ensures SlotOk(s)
      {
        if s != it {
          assert old(SlotOk(s));
        }
      }
    }
  }

  /** The requests of a burst that were kept. */
  function Chosen(burst: seq<int>, kept: seq<bool>): seq<int>
    requires |burst| == |kept|
  {
    if burst == [] then []
    else
      var last := |burst| - 1;
      Chosen(burst[..last], kept[..last]) + if kept[last] then [burst[last]] else []
  }

  lemma ChosenStep(burst: seq<int>, kept: seq<bool>, sp: int, k: bool)
    requires |burst| == |kept|
    ensures Chosen(burst + [sp], kept + [k]) == Chosen(burst, kept) + if k then [sp] else []
  {
    var n, more, choice := |burst|, burst + [sp], kept + [k];
    var before := Chosen(burst, kept);
    assert more[..n] == burst && choice[..n] == kept && more[n] == sp && choice[n] == k;
    assert Chosen(more[..n], choice[..n]) == before;
  }

  ghost predicate SameShape(bursts: seq<seq<int>>, kept: seq<seq<bool>>) {
    |bursts| == |kept| && forall i :: 0 <= i < |bursts| ==> |bursts[i]| == |kept[i]|
  }

  /** What has been ordered after base and then the kept requests of several bursts. */
  ghost function Fed(base: seq<int>, bursts: seq<seq<int>>, kept: seq<seq<bool>>): seq<int>
    requires SameShape(bursts, kept)
  {
    if bursts == [] then base
    else
      var last := |bursts| - 1;
      Fed(base, bursts[..last], kept[..last]) + Chosen(bursts[last], kept[last])
  }

  lemma FedStep(base: seq<int>, bursts: seq<seq<int>>, kept: seq<seq<bool>>, i: int, some: seq<bool>)
    requires 0 <= i < |bursts| && SameShape(bursts[..i], kept) && |some| == |bursts[i]|
    ensures SameShape(bursts[..i + 1], kept + [some])
    ensures Fed(base, bursts[..i + 1], kept + [some]) == Fed(base, bursts[..i], kept) + Chosen(bursts[i], some)
  {
    var more := kept + [some];
    assert bursts[..i + 1][..i] == bursts[..i] && more[..i] == kept;
    assert forall j :: 0 <= j < i ==> bursts[..i + 1][j] == bursts[..i][j] && more[j] == kept[j];
  }

  /** From lag on the worker only catches up. */
  ghost predicate LagsFall(lags: seq<int>, lag: int) {
    && (forall i :: 0 <= i < |lags| ==> lags[i] <= lag)
    && (forall i, j :: 0 <= i < j < |lags| ==> lags[j] <= lags[i])
  }

  /** A request is kept exactly if the lag that it met is below 16384. */
  ghost predicate KeptBy(kept: seq<bool>, lags: seq<int>) {
    |kept| == |lags| && forall i :: 0 <= i < |kept| ==> (kept[i] <==> lags[i] < 16384)
  }

  /** The first requests of a burst have met these lags, and those kept are pending; the lag is now. */
  datatype Admission = Admission(first: seq<int>, kept: seq<bool>, lags: seq<int>, pending: seq<int>, now: int)

  ghost predicate Admitted(a: Admission, lag: int) {
    && |a.first| == |a.kept| && |a.pending| <= |a.first| && a.pending == Chosen(a.first, a.kept)
    && LagsFall(a.lags + [a.now], lag) && KeptBy(a.kept, a.lags)
  }

  ghost predicate AdmittedQuietly(a: Admission, lag: int) {
    forall x {:trigger About(x)} :: x == a ==> Admitted(x, lag)
  }

  lemma QuietIsAdmitted(a: Admission, lag: int)
    ensures AdmittedQuietly(a, lag) <==> Admitted(a, lag)
  {
    assert About(a);
  }

  /** The worker catches up, and then the request is kept or dropped. */
  function Considered(a: Admission, sp: int, now: int): Admission {
    Admission(a.first + [sp], a.kept + [now < 16384], a.lags + [now],
              if now < 16384 then a.pending + [sp] else a.pending, now)
  }

  lemma LagsSnoc(lags: seq<int>, lag: int, before: int, now: int)
    requires LagsFall(lags + [before], lag) && now <= before
    ensures LagsFall(lags + [now] + [now], lag)
  {
    var l, l' := lags + [before], lags + [now] + [now];
    assert forall i :: 0 <= i < |lags| ==> l'[i] == l[i] && l[i] >= l[|lags|];
  }

  lemma AdmitStep(a: Admission, sp: int, now: int, lag: int)
    requires AdmittedQuietly(a, lag) && now <= a.now
    ensures AdmittedQuietly(Considered(a, sp, now), lag)
  {
    QuietIsAdmitted(a, lag);
    ChosenStep(a.first, a.kept, sp, now < 16384);
    LagsSnoc(a.lags, lag, a.now, now);
    QuietIsAdmitted(Considered(a, sp, now), lag);
  }

  lemma AdmissionStarts(lag: int)
    ensures AdmittedQuietly(Admission([], [], [], [], lag), lag)
  {
    QuietIsAdmitted(Admission([], [], [], [], lag), lag);
  }

  lemma AdmissionEnds(a: Admission, lag: int)
    requires AdmittedQuietly(a, lag)
    ensures |a.first| == |a.kept| && a.pending == Chosen(a.first, a.kept)
    ensures LagsFall(a.lags, lag) && KeptBy(a.kept, a.lags)
  {
    QuietIsAdmitted(a, lag);
    assert forall i :: 0 <= i < |a.lags| ==> a.lags[i] == (a.lags + [a.now])[i];
  }

  /** A stable leader: requests wait until the end of a poll, are ordered into the log, and are executed by a worker. */
  class OrderingLeader {
    const ring: Ring
    var log: seq<Entry>         // the library's log
    var applied: int
    var pending: seq<int>       // pending_replicated_reqs
    ghost var executed: seq<int>

    /** The worker has executed the log in order and lags by less than the ring holds. */
    ghost predicate Steady()
      reads this, ring, ring.entries, ring.sps, ring.added
    {
      && ring.Valid() && log == ring.added && 0 <= applied <= |log| && executed == ring.data[..applied]
      && |log| - applied < FC_THRESHOLD + BATCH_SIZE
    }

    /** Requests were let in only below the threshold, and the log has not grown since. */
    ghost predicate Valid()
      reads this, ring, ring.entries, ring.sps, ring.added
    {
      Steady() && |pending| <= BATCH_SIZE && (pending != [] ==> |log| - applied < FC_THRESHOLD)
    }

    constructor ()
      ensures Valid() && log == [] && pending == [] && executed == []
      ensures fresh(ring) && fresh(ring.entries) && fresh(ring.sps) && ring.repr == {}
    {
      ring := new Ring();
      log, applied, pending, executed := [], 0, [], [];
    }

    /** should_keep_new_entry. */
    predicate ShouldKeep()
      reads this
    {
      |log| - applied < FC_THRESHOLD
    }

    /** A single-packet request arrives: it is dropped, or waits to be ordered. */
    method HandleRequest(sp: int) returns (kept: bool)
      requires Valid() && |pending| < BATCH_SIZE
      modifies this`pending
      ensures Valid() && (kept <==> |log| - applied < 16384)
      ensures pending == if kept then old(pending) + [sp] else old(pending)
    {
      kept := ShouldKeep();
      if kept {
        pending := pending + [sp];
      }
    }

    /** r2p2_applylog: the next entry still has its request, which is executed. */
    method ApplyOne()
      requires Steady() && applied < |log|
      modifies this`applied, this`executed
      ensures Steady() && applied == old(applied) + 1
    {
      var entry := log[applied];
      ring.KeptExactly(applied);
      assert entry.buf != -1;
      ghost var sp := ring.sps[entry.buf];
      executed := executed + [sp];
      applied := applied + 1;
    }

    /** What the worker may do between two steps of the network thread: execute any number of entries. */
    method Worker()
      requires Steady()
      modifies this`applied, this`executed
      ensures Steady() && applied >= old(applied)
    {
      var more: int := *;
      while more > 0 && applied < |log|
        invariant Steady() && applied >= old(applied)
      {
        ApplyOne();
        more := more - 1;
      }
    }

    /** leader_order_requests: every waiting request gets an entry, in order of arrival. */
    method OrderRequests()
      requires Valid()
      modifies this, ring, ring.entries, ring.sps, ring.repr
      ensures Valid() && pending == [] && ring.data == old(ring.data) + old(pending)
      ensures fresh(ring.repr - old(ring.repr))
    {
      for i := 0 to |pending|
        invariant Steady() && pending == old(pending) && fresh(ring.repr - old(ring.repr))
        invariant |log| == |old(log)| + i && applied >= old(applied)
        invariant ring.data == old(ring.data) + pending[..i]
      {
        Worker();
        OrderOne(pending[i]);
        assert pending[..i] + [pending[i]] == pending[..i + 1];
      }
      assert pending[..|pending|] == pending;
      pending := [];
    }

    method OrderOne(sp: int)
      requires Steady() && |log| + 1 - applied < FC_THRESHOLD + BATCH_SIZE
      modifies this`log, ring, ring.entries, ring.sps, ring.repr
      ensures Steady() && |log| == |old(log)| + 1 && ring.data == old(ring.data) + [sp]
      ensures fresh(ring.repr - old(ring.repr))
    {
      var entry := new Entry();
      ring.Add(entry, sp);
      log := log + [entry];
    }

    /**
     One poll: a burst of requests, each admitted or dropped, then the ordering. A request is dropped only if the leader
     lags behind by 16384 entries at that moment, and all are admitted when it does not to begin with. The lag that
     each request met is in lags.
     */
    method Poll(burst: seq<int>) returns (kept: seq<bool>, ghost lags: seq<int>)
      requires Valid() && pending == [] && |burst| <= BATCH_SIZE
      modifies this, ring, ring.entries, ring.sps, ring.repr
      ensures Valid() && pending == [] && fresh(ring.repr - old(ring.repr))
      ensures |kept| == |burst| && ring.data == old(ring.data) + Chosen(burst, kept)
      ensures LagsFall(lags, old(|log| - applied)) && KeptBy(kept, lags)
      ensures old(|log| - applied) < 16384 ==> forall i :: 0 <= i < |kept| ==> kept[i]
    {
      kept, lags := Admit(burst);
      OrderRequests();
    }

    method Admit(burst: seq<int>) returns (kept: seq<bool>, ghost lags: seq<int>)
      requires Valid() && pending == [] && |burst| <= BATCH_SIZE
      modifies this`pending, this`applied, this`executed
      ensures Valid() && |kept| == |burst| && pending == Chosen(burst, kept)
      ensures LagsFall(lags, old(|log| - applied)) && KeptBy(kept, lags)
    {
      kept, lags := [], [];
      ghost var lag := |log| - applied;
      AdmissionStarts(lag);
      for i := 0 to |burst|
        invariant Valid() && |pending| <= i && |kept| == i
        invariant AdmittedQuietly(Admission(burst[..i], kept, lags, pending, |log| - applied), lag)
      {
        ghost var a := Admission(burst[..i], kept, lags, pending, |log| - applied);
        var k := AdmitOne(burst[i]);
        AdmitStep(a, burst[i], |log| - applied, lag);
        assert burst[..i + 1] == burst[..i] + [burst[i]];
        kept, lags := kept + [k], lags + [|log| - applied];
      }
      assert burst[..|burst|] == burst;
      AdmissionEnds(Admission(burst, kept, lags, pending, |log| - applied), lag);
    }

    method AdmitOne(sp: int) returns (k: bool)
      requires Valid() && |pending| < BATCH_SIZE
      modifies this`pending, this`applied, this`executed
      ensures Valid() && pending == (if k then old(pending) + [sp] else old(pending)) && applied >= old(applied)
      ensures k <==> |log| - applied < 16384
    {
      Worker();
      k := HandleRequest(sp);
    }

    /**
     Any number of polls: what the worker has executed is at all times the beginning of what was ordered, so no
     request was overwritten before its turn; and what was ordered are the requests kept of each burst, in order.
     */
    method Run(bursts: seq<seq<int>>) returns (kept: seq<seq<bool>>)
      requires Valid() && pending == [] && forall i :: 0 <= i < |bursts| ==> |bursts[i]| <= BATCH_SIZE
      modifies this, ring, ring.entries, ring.sps, ring.repr
      ensures Valid() && pending == [] && executed <= ring.data && old(ring.data) <= ring.data
      ensures SameShape(bursts, kept) && ring.data == Fed(old(ring.data), bursts, kept)
    {
      kept := [];
      for i := 0 to |bursts|
        invariant Valid() && pending == [] && old(ring.data) <= ring.data && fresh(ring.repr - old(ring.repr))
        invariant SameShape(bursts[..i], kept) && ring.data == Fed(old(ring.data), bursts[..i], kept)
      {
        var some, lags := Poll(bursts[i]);
        FedStep(old(ring.data), bursts, kept, i, some);
        kept := kept + [some];
      }
      assert bursts[..|bursts|] == bursts;
    }
  }
}
