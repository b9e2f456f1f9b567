/**
 The join-shortest-queue policy of the router (dpdk-apps/r2p2-router.c) with its cached stack of idle workers.
 Tokens start at q on every worker, the router's per-queue slots; its documentation asks for 0.
 */
module Jsq {
  import opened Collections
  import opened Wire

  const MAX_BACKLOG := 0xFFFFFF
  const MAX_TARGETS := 64

  datatype State = State(tokens: seq<int>, sent: seq<int>, idle: seq<int>)

  ghost predicate Shaped(s: State, count: nat) {
    |s.tokens| == |s.sent| == count
  }

  function Backlog(s: State, i: int): int
    requires 0 <= i < |s.tokens| == |s.sent|
  {
    s.sent[i] - s.tokens[i]
  }

  // ----- the selection, as one pass over the workers -----

  /** The first worker with the least backlog among the first m, or -1 while none is below the limit. */
  function FirstMin(s: State, m: nat): (i: int)
    requires m <= |s.tokens| == |s.sent|
    ensures -1 <= i < m
  {
    if m == 0 then -1
    else
      var i := FirstMin(s, m - 1);
      if Backlog(s, m - 1) < (if i == -1 then MAX_BACKLOG else Backlog(s, i)) then m - 1 else i
  }

  function Idles(s: State, m: nat): seq<int>
    requires m <= |s.tokens| == |s.sent|
  {
    if m == 0 then [] else Idles(s, m - 1) + if Backlog(s, m - 1) == 0 then [m - 1] else []
  }

  /** The stack is refilled only when it is empty. */
  function Filled(s: State): State
    requires |s.tokens| == |s.sent|
  {
    if s.idle != [] then s else s.(idle := Idles(s, |s.tokens|))
  }

  /** The worker chosen for a request, or -1. */
  function Pick(s: State): int
    requires |s.tokens| == |s.sent|
  {
    var f := Filled(s);
    if f.idle != [] then f.idle[|f.idle| - 1] else FirstMin(s, |s.tokens|)
  }

  function Picked(s: State): State
    requires |s.tokens| == |s.sent| && 0 <= Pick(s) < |s.sent|
  {
    var f, w := Filled(s), Pick(s);
    f.(sent := s.sent[w := s.sent[w] + 1], idle := if f.idle == [] then [] else f.idle[..|f.idle| - 1])
  }

  ghost predicate Minimal(s: State, w: int)
    requires |s.tokens| == |s.sent|
  {
    0 <= w < |s.sent| && forall v :: 0 <= v < |s.sent| ==> Backlog(s, w) <= Backlog(s, v)
  }

  // ----- runs -----

  datatype Event = Arrive | Answer(worker: int)

  function Start(count: nat, q: int): State {
    State(seq(count, _ => q), seq(count, _ => 0), [])
  }

  /** Only a request already sent is answered; a new one needs a worker below the limit. */
  ghost predicate Enabled(s: State, e: Event, q: int)
    requires |s.tokens| == |s.sent|
  {
    match e
    case Arrive => 0 <= Pick(s) < |s.sent|
    case Answer(i) => 0 <= i < |s.sent| && s.tokens[i] < s.sent[i] + q
  }

  ghost function Next(s: State, e: Event, q: int): (s': State)
    requires |s.tokens| == |s.sent| && Enabled(s, e, q)
    ensures |s'.tokens| == |s'.sent| == |s.sent|
  {
    match e
    case Arrive => Picked(s)
    case Answer(i) => s.(tokens := s.tokens[i := s.tokens[i] + 1])
  }

  /** The state after a run, or None if some event was not possible. */
  ghost function After(count: nat, q: int, events: seq<Event>): (r: Option<State>)
    ensures r.Some? ==> Shaped(r.value, count)
  {
    if events == [] then Some(Start(count, q))
    else
      var last := |events| - 1;
      var s := After(count, q, events[..last]);
      if s.Some? && Enabled(s.value, events[last], q) then Some(Next(s.value, events[last], q)) else None
  }

  /** In every run, whoever is chosen next has the least backlog of all workers. */
  ghost predicate AlwaysMinimal(count: nat, q: int) {
    forall events {:trigger After(count, q, events)} ::
      var s := After(count, q, events);
      s.Some? && Enabled(s.value, Arrive, q) ==> Minimal(s.value, Pick(s.value))
  }

  /** Stacked workers are distinct and still idle, however long ago they were stacked. */
  ghost predicate StackOk(s: State, count: nat, q: int) {
    && Shaped(s, count) && NoDup(s.idle)
    && (forall i :: 0 <= i < count ==> s.tokens[i] <= s.sent[i] + q)
    && (forall k :: 0 <= k < |s.idle| ==> 0 <= s.idle[k] < count && Backlog(s, s.idle[k]) == 0)
  }

  lemma {:induction false} IdlesOk(s: State, m: nat)
    requires m <= |s.tokens| == |s.sent|
    ensures |Idles(s, m)| <= m && NoDup(Idles(s, m))
    ensures forall k :: 0 <= k < |Idles(s, m)| ==> 0 <= Idles(s, m)[k] < m && Backlog(s, Idles(s, m)[k]) == 0
  {
    if m > 0 {
      IdlesOk(s, m - 1);
    }
  }

  lemma {:induction false} FirstMinOk(s: State, m: nat)
    requires m <= |s.tokens| == |s.sent|
    ensures var i := FirstMin(s, m);
            if i == -1 then forall v :: 0 <= v < m ==> Backlog(s, v) >= MAX_BACKLOG
            else Backlog(s, i) < MAX_BACKLOG && forall v :: 0 <= v < m ==> Backlog(s, i) <= Backlog(s, v)
  {
    if m > 0 {
      FirstMinOk(s, m - 1);
    }
  }

  lemma PickMinimal(s: State, count: nat, q: int)
    requires StackOk(s, count, q) && q <= 0 && 0 <= Pick(s) < count
    ensures Minimal(s, Pick(s))
  {
    IdlesOk(s, count);
    FirstMinOk(s, count);
  }

  /** No target is found exactly when every backlog has reached the limit. */
  lemma PickFails(s: State, count: nat, q: int)
    requires StackOk(s, count, q)
    ensures Pick(s) == -1 <==> forall i :: 0 <= i < count ==> Backlog(s, i) >= MAX_BACKLOG
    ensures -1 <= Pick(s) < count
  {
    IdlesOk(s, count);
    FirstMinOk(s, count);
    var f := Filled(s);
    if f.idle != [] {
      var top := f.idle[|f.idle| - 1];
      assert 0 <= top < count && Backlog(s, top) == 0;
    }
  }

  lemma NextStackOk(s: State, e: Event, count: nat, q: int)
    requires StackOk(s, count, q) && q <= 0 && Enabled(s, e, q)
    ensures StackOk(Next(s, e, q), count, q)
  {
    IdlesOk(s, count);
    if e.Answer? {
      forall k | 0 <= k < |s.idle|
        ensures s.idle[k] != e.worker
      {
        assert Backlog(s, s.idle[k]) == 0;
      }
    }
  }

  lemma {:induction false} RunStackOk(count: nat, q: int, events: seq<Event>)
    requires q <= 0 && After(count, q, events).Some?
    ensures StackOk(After(count, q, events).value, count, q)
  {
    if events != [] {
      var last := |events| - 1;
      RunStackOk(count, q, events[..last]);
      NextStackOk(After(count, q, events[..last]).value, events[last], count, q);
    }
  }

  // ----- with tokens to start with, the policy goes wrong -----

  /** Nothing answered yet, and requests dealt out round robin: each worker has a, the first r of them one more. */
  ghost predicate Dealt(s: State, count: nat, q: int, a: int, r: int) {
    && Shaped(s, count) && s.idle == [] && 0 <= r < count
    && forall i :: 0 <= i < count ==> s.tokens[i] == q && s.sent[i] == a + if i < r then 1 else 0
  }

  lemma {:induction false} DealtMin(s: State, count: nat, q: int, a: int, r: int, m: nat)
    requires Dealt(s, count, q, a, r) && a < q && m <= count
    ensures FirstMin(s, m) == if m == 0 then -1 else if m <= r then 0 else r
  {
    if m > 0 {
      DealtMin(s, count, q, a, r, m - 1);
    }
  }

  /** While every worker still has tokens of the initial ones to spare, the dealing goes on. */
  lemma DealNext(s: State, count: nat, q: int, a: int, r: int)
    requires Dealt(s, count, q, a, r) && a < q && (r > 0 ==> a + 1 < q)
    ensures Pick(s) == r
    ensures Dealt(Picked(s), count, q, if r + 1 < count then a else a + 1, if r + 1 < count then r + 1 else 0)
  {
    IdlesOk(s, count);
    DealtMin(s, count, q, a, r, count);
  }

  lemma {:induction false} Deal(count: nat, q: int, a: nat, r: nat) returns (events: seq<Event>)
    requires r < count && a < q && (a == q - 1 ==> r <= 1)
    ensures After(count, q, events).Some? && Dealt(After(count, q, events).value, count, q, a, r)
    decreases a, r
  {
    if a == 0 && r == 0 {
      events := [];
    } else {
      var a', r' := if r > 0 then a else a - 1, if r > 0 then r - 1 else count - 1;
      var before := Deal(count, q, a', r');
      var s := After(count, q, before).value;
      DealNext(s, count, q, a', r');
      events := before + [Arrive];
      assert events[..|before|] == before;
    }
  }

  /** A request goes to worker 0, which has just used up its initial tokens, although worker 1 has one left. */
  lemma Misroutes(count: nat, q: int)
    requires q > 0 && count > 1
    ensures !AlwaysMinimal(count, q)
  {
    var events := Deal(count, q, q - 1, 1);
    var s := After(count, q, events).value;
    DealtIdles(s, count, q, count);
    assert Pick(s) == 0 && Backlog(s, 1) == -1;
  }

  lemma {:induction false} DealtIdles(s: State, count: nat, q: int, m: nat)
    requires Dealt(s, count, q, q - 1, 1) && 0 < m <= count
    ensures Idles(s, m) == [0]
  {
    if m > 1 {
      DealtIdles(s, count, q, m - 1);
    } else {
      assert Idles(s, 0) == [];
    }
  }

  /** The cached stack agrees with a full scan in every run exactly when no worker starts with tokens to spare. */
  lemma MinimalExactlyWhen(count: nat, q: int)
    ensures AlwaysMinimal(count, q) <==> q <= 0 || count <= 1
  {
    if q > 0 && count > 1 {
      Misroutes(count, q);
    } else {
      forall events: seq<Event> | After(count, q, events).Some? && Enabled(After(count, q, events).value, Arrive, q)
        ensures var s := After(count, q, events).value; Minimal(s, Pick(s))
      {
        if q <= 0 {
          RunStackOk(count, q, events);
          PickMinimal(After(count, q, events).value, count, q);
        }
      }
    }
  }

  // ----- the router's arrays -----

  class JsqRouter {
    const count: nat  // worker_count
    const tokens: array<int>
    const sent: array<int>
    const jsqIdle: array<int>
    var jsqIdleCount: int

    ghost predicate Valid()
      reads this, tokens, sent, jsqIdle
    {
      && tokens.Length == sent.Length == count <= MAX_TARGETS == jsqIdle.Length
      && tokens != sent && tokens != jsqIdle && sent != jsqIdle
      && 0 <= jsqIdleCount <= MAX_TARGETS
      && forall k :: 0 <= k < jsqIdleCount ==> 0 <= jsqIdle[k] < count
    }

    ghost function View(): State
      requires Valid()
      reads this, tokens, sent, jsqIdle
    {
      State(tokens[..], sent[..], jsqIdle[..jsqIdleCount])
    }

    constructor (count: nat, q: int)
      requires count <= MAX_TARGETS
      ensures Valid() && View() == Start(count, q)
      ensures fresh(tokens) && fresh(sent) && fresh(jsqIdle)
    {
      this.count := count;
      tokens := new int[count](_ => q);
      sent := new int[count](_ => 0);
      jsqIdle := new int[MAX_TARGETS];
      jsqIdleCount := 0;
    }

    /** get_jsq_target: -1 stands for the access to worker -1 when no backlog is below the limit. */
    method GetTarget() returns (w: int)
      requires Valid()
      modifies this`jsqIdleCount, sent, jsqIdle
      ensures Valid() && w == Pick(old(View())) && -1 <= w < count
      ensures View() == if w == -1 then old(View()) else Picked(old(View()))
    {
      if jsqIdleCount > 0 {
        w := PopIdle();
        return;
      }
      var minIdx := Scan();
      if jsqIdleCount > 0 {
        w := PopIdle();
      } else {
        w := minIdx;
        if w != -1 {
          sent[w] := sent[w] + 1;
        }
      }
    }

    method PopIdle() returns (w: int)
      requires Valid() && jsqIdleCount > 0
      modifies this`jsqIdleCount, sent
      ensures Valid() && w == Pick(old(View())) && 0 <= w < count && View() == Picked(old(View()))
    {
      jsqIdleCount := jsqIdleCount - 1;
      w := jsqIdle[jsqIdleCount];
      sent[w] := sent[w] + 1;
    }

    /** Finding the least backlog and stacking the idle workers. */
    method Scan() returns (minIdx: int)
      requires Valid() && jsqIdleCount == 0
      modifies this`jsqIdleCount, jsqIdle
      ensures Valid() && minIdx == FirstMin(old(View()), count) && View() == Filled(old(View()))
    {
      ghost var s := View();
      var min;
      min, minIdx := MAX_BACKLOG, -1;
      for i := 0 to count
        invariant Valid() && minIdx == FirstMin(s, i) && jsqIdleCount <= i
        invariant min == if minIdx == -1 then MAX_BACKLOG else Backlog(s, minIdx)
        invariant jsqIdle[..jsqIdleCount] == Idles(s, i)
      {
        var backlog := sent[i] - tokens[i];
        if backlog < min {
          min, minIdx := backlog, i;
        }
        if backlog == 0 {
          jsqIdle[jsqIdleCount] := i;
          jsqIdleCount := jsqIdleCount + 1;
        }
      }
    }

    /** update_tokens for worker i, which has answered a request. */
    method UpdateTokens(i: int)
      requires Valid() && 0 <= i < count
      modifies tokens
      ensures Valid() && View() == old(View()).(tokens := old(View()).tokens[i := old(tokens[i]) + 1])
    {
      tokens[i] := tokens[i] + 1;
    }
  }
}
