/**
 The lazily refreshed slot table of the bounded-queue policy, on values.
 Row k lists the workers that had k + 1 free slots when they were put there; a cursor per row separates the
 entries already used from the live ones. snap is what each worker has left of the last snapshot.
 */
module Buckets {
  import opened Collections

  datatype Table = Table(rows: seq<seq<int>>, idx: seq<int>, snap: seq<int>)

  /** A used entry belongs to a worker that has moved down; a live one says exactly what its worker has left. */
  ghost predicate EntryOk(t: Table, w: int, k: int, used: bool)
  {
    0 <= w < |t.snap| && if used then t.snap[w] <= k else t.snap[w] == k + 1
  }

  ghost predicate RowOk(t: Table, k: int)
    requires 0 <= k < |t.rows| == |t.idx|
  {
    && 0 <= t.idx[k] <= |t.rows[k]|
    && NoDup(t.rows[k])
    && forall p :: 0 <= p < |t.rows[k]| ==> EntryOk(t, t.rows[k][p], k, p < t.idx[k])
  }

  ghost predicate WorkerOk(t: Table, w: int)
    requires 0 <= w < |t.snap|
  {
    0 <= t.snap[w] <= |t.rows| && (t.snap[w] > 0 ==> w in t.rows[t.snap[w] - 1])
  }

  /** The table of n rows for count workers is consistent. */
  ghost predicate TableOk(t: Table, n: nat, count: nat) {
    && |t.rows| == |t.idx| == n && |t.snap| == count
    && (forall k {:trigger RowOk(t, k)} :: 0 <= k < n ==> RowOk(t, k))
    && (forall w {:trigger WorkerOk(t, w)} :: 0 <= w < count ==> WorkerOk(t, w))
  }

  function Live(t: Table, k: int): int
    requires 0 <= k < |t.rows| == |t.idx|
  {
    |t.rows[k]| - t.idx[k]
  }

  /** The slots that live entries of the first n rows stand for. */
  function Slots(t: Table, n: nat): int
    requires n <= |t.rows| == |t.idx|
  {
    if n == 0 then 0 else Slots(t, n - 1) + n * Live(t, n - 1)
  }

  // ----- the three changes -----

  function Empty(n: nat, count: nat): Table {
    Table(seq(n, _ => []), seq(n, _ => 0), seq(count, _ => 0))
  }

  function Add(t: Table, k: int, w: int): Table
    requires 0 <= k < |t.rows| && 0 <= w < |t.snap|
  {
    t.(rows := t.rows[k := t.rows[k] + [w]], snap := t.snap[w := k + 1])
  }

  /** The first live worker of row k loses a slot and moves to the row below. */
  function Take(t: Table, k: int): Table
    requires 0 <= k < |t.rows| == |t.idx| && 0 <= t.idx[k] < |t.rows[k]| && 0 <= t.rows[k][t.idx[k]] < |t.snap|
  {
    var w := t.rows[k][t.idx[k]];
    Table(if k > 0 then t.rows[k - 1 := t.rows[k - 1] + [w]] else t.rows,
          t.idx[k := t.idx[k] + 1], t.snap[w := k])
  }

  // ----- what the changes keep -----

  lemma {:induction false} EmptyOk(n: nat, count: nat, m: nat)
    requires m <= n
    ensures TableOk(Empty(n, count), n, count) && Slots(Empty(n, count), m) == 0
  {
    if m > 0 {
      EmptyOk(n, count, m - 1);
      assert Live(Empty(n, count), m - 1) == 0;
    }
  }

  /** Entries made since the last refresh are distinct workers, so a row never outgrows the worker count. */
  lemma RowFits(t: Table, n: nat, count: nat, k: int)
    requires TableOk(t, n, count) && 0 <= k < n
    ensures |t.rows[k]| <= count
    ensures forall w :: 0 <= w < count && w !in t.rows[k] ==> |t.rows[k]| < count
  {
    assert RowOk(t, k);
    var row := t.rows[k];
    assert forall p :: 0 <= p < |row| ==> EntryOk(t, row[p], k, p < t.idx[k]);
    NoDupSize(row, count);
    forall w | 0 <= w < count && w !in row
      ensures |row| < count
    {
      NoDupSize(row + [w], count);
    }
  }

  /** A worker has at most one live entry, and it has one exactly while slots of the snapshot are left. */
  lemma OneLiveEntry(t: Table, n: nat, count: nat, w: int, j: int, k: int, p: int, q: int)
    requires TableOk(t, n, count) && 0 <= j < n && 0 <= k < n
    requires t.idx[j] <= p < |t.rows[j]| && t.idx[k] <= q < |t.rows[k]|
    requires 0 <= t.idx[j] && 0 <= t.idx[k] && t.rows[j][p] == t.rows[k][q] == w
    ensures 0 <= w < count && j == k && p == q && t.snap[w] == k + 1
  {
    assert RowOk(t, j) && RowOk(t, k);
    assert EntryOk(t, t.rows[j][p], j, p < t.idx[j]) && EntryOk(t, t.rows[k][q], k, q < t.idx[k]);
  }

  lemma LiveEntry(t: Table, n: nat, count: nat, w: int) returns (p: int)
    requires TableOk(t, n, count) && 0 <= w < count && t.snap[w] > 0
    ensures var k := t.snap[w] - 1; 0 <= k < n && 0 <= t.idx[k] <= p < |t.rows[k]| && t.rows[k][p] == w
  {
    assert WorkerOk(t, w);
    var k := t.snap[w] - 1;
    p :| 0 <= p < |t.rows[k]| && t.rows[k][p] == w;
    assert RowOk(t, k) && EntryOk(t, t.rows[k][p], k, p < t.idx[k]);
  }

  lemma AddOk(t: Table, n: nat, count: nat, k: int, w: int)
    requires TableOk(t, n, count) && 0 <= k < n && 0 <= w < count && t.snap[w] == 0
    requires forall j :: 0 <= j < n ==> w !in t.rows[j]
    ensures TableOk(Add(t, k, w), n, count)
  {
    var u := Add(t, k, w);
    forall j | 0 <= j < n
      ensures RowOk(u, j)
    {
      assert RowOk(t, j);
      forall p | 0 <= p < |u.rows[j]|
        ensures EntryOk(u, u.rows[j][p], j, p < u.idx[j])
      {
        if p < |t.rows[j]| {
          assert EntryOk(t, t.rows[j][p], j, p < t.idx[j]);
          assert t.rows[j][p] in t.rows[j];
        }
      }
    }
    forall v | 0 <= v < count
      ensures WorkerOk(u, v)
    {
      assert WorkerOk(t, v);
      if v == w {
        assert u.rows[k][|t.rows[k]|] == w;
      }
    }
  }

  lemma TakeRowOk(t: Table, n: nat, count: nat, k: int, j: int)
    requires TableOk(t, n, count) && 0 <= k < n && 0 <= j < n
    requires 0 <= t.idx[k] < |t.rows[k]| && 0 <= t.rows[k][t.idx[k]] < count
    ensures RowOk(Take(t, k), j)
  {
    var u, w := Take(t, k), t.rows[k][t.idx[k]];
    assert RowOk(t, k) && EntryOk(t, w, k, false);
    assert RowOk(t, j);
    forall p | 0 <= p < |u.rows[j]|
      ensures EntryOk(u, u.rows[j][p], j, p < u.idx[j])
    {
      if p < |t.rows[j]| {
        assert EntryOk(t, t.rows[j][p], j, p < t.idx[j]);
      }
    }
    if j == k - 1 {
      assert w !in t.rows[j] by {
        forall p | 0 <= p < |t.rows[j]|
          ensures t.rows[j][p] != w
        {
          assert EntryOk(t, t.rows[j][p], j, p < t.idx[j]);
        }
      }
    }
  }

  lemma TakeOk(t: Table, n: nat, count: nat, k: int)
    requires TableOk(t, n, count) && 0 <= k < n && 0 <= t.idx[k] < |t.rows[k]|
    ensures 0 <= t.rows[k][t.idx[k]] < count && t.snap[t.rows[k][t.idx[k]]] == k + 1
    ensures TableOk(Take(t, k), n, count)
    ensures k > 0 ==> |t.rows[k - 1]| < count
  {
    assert RowOk(t, k) && EntryOk(t, t.rows[k][t.idx[k]], k, t.idx[k] < t.idx[k]);
    var u, w := Take(t, k), t.rows[k][t.idx[k]];
    forall j | 0 <= j < n
      ensures RowOk(u, j)
    {
      TakeRowOk(t, n, count, k, j);
    }
    forall v | 0 <= v < count
      ensures WorkerOk(u, v)
    {
      assert WorkerOk(t, v);
      if v != w && t.snap[v] > 0 {
        assert v in t.rows[t.snap[v] - 1];
      }
      if v == w && k > 0 {
        assert u.rows[k - 1][|t.rows[k - 1]|] == w;
      }
    }
    if k > 0 {
      RowFits(u, n, count, k - 1);
    }
  }

  lemma {:induction false} SlotsAdd(t: Table, k: int, w: int, m: nat)
    requires m <= |t.rows| == |t.idx| && 0 <= k < |t.rows| && 0 <= w < |t.snap|
    ensures Slots(Add(t, k, w), m) == Slots(t, m) + if k < m then k + 1 else 0
  {
    if m > 0 {
      SlotsAdd(t, k, w, m - 1);
      if m - 1 == k {
        Grow(m, Live(t, k));
      }
    }
  }

  lemma Grow(m: int, x: int)
    ensures m * (x + 1) == m * x + m
  {
  }

  lemma {:induction false} SlotsTake(t: Table, k: int, m: nat)
    requires m <= |t.rows| == |t.idx| && 0 <= k < |t.rows|
    requires 0 <= t.idx[k] < |t.rows[k]| && 0 <= t.rows[k][t.idx[k]] < |t.snap|
    ensures Slots(Take(t, k), m) == Slots(t, m) - (if k < m then 1 else 0) + (if m == k then k else 0)
  {
    if m > 0 {
      SlotsTake(t, k, m - 1);
      var u := Take(t, k);
      if m - 1 == k {
        Grow(m, Live(u, k));
      } else if m == k {
        Grow(m, Live(t, k - 1));
      }
    }
  }

  lemma {:induction false} SlotsPositive(t: Table, n: nat, count: nat, m: nat)
    requires TableOk(t, n, count) && m <= n
    ensures Slots(t, m) >= 0
    ensures Slots(t, m) == 0 <==> forall k :: 0 <= k < m ==> Live(t, k) == 0
  {
    if m > 0 {
      SlotsPositive(t, n, count, m - 1);
      assert RowOk(t, m - 1);
      if Live(t, m - 1) > 0 {
        assert m * Live(t, m - 1) >= m;
      }
    }
  }

  /** No slots are counted exactly when no worker has any left. */
  /** The top row has a live entry exactly if some worker has all n slots left. */
  lemma NoIdleLeft(t: Table, n: nat, count: nat)
    requires TableOk(t, n, count) && n >= 1
    ensures Live(t, n - 1) == 0 <==> forall w :: 0 <= w < count ==> t.snap[w] < n
  {
    assert RowOk(t, n - 1);
    forall w | 0 <= w < count
      ensures t.snap[w] < n || (t.snap[w] == n && Live(t, n - 1) != 0)
    {
      assert WorkerOk(t, w);
      if t.snap[w] == n {
        var p := LiveEntry(t, n, count, w);
      }
    }
    if Live(t, n - 1) != 0 {
      var p := t.idx[n - 1];
      assert EntryOk(t, t.rows[n - 1][p], n - 1, p < t.idx[n - 1]);
    }
  }

  /** There are at least as many slots as idle workers. */
  lemma IdleWithinAll(t: Table, n: nat, count: nat)
    requires TableOk(t, n, count) && n >= 1
    ensures Slots(t, n) >= Live(t, n - 1) >= 0
  {
    SlotsPositive(t, n, count, n - 1);
    assert RowOk(t, n - 1);
  }

  lemma NoSlotsLeft(t: Table, n: nat, count: nat)
    requires TableOk(t, n, count)
    ensures Slots(t, n) == 0 <==> forall w :: 0 <= w < count ==> t.snap[w] == 0
  {
    SlotsPositive(t, n, count, n);
    forall w | 0 <= w < count
      ensures t.snap[w] == 0 || Slots(t, n) != 0
    {
      assert WorkerOk(t, w);
      if t.snap[w] > 0 {
        var p := LiveEntry(t, n, count, w);
        assert Live(t, t.snap[w] - 1) > 0;
      }
    }
    if Slots(t, n) != 0 {
      var k :| 0 <= k < n && Live(t, k) != 0;
      assert RowOk(t, k) && EntryOk(t, t.rows[k][t.idx[k]], k, t.idx[k] < t.idx[k]);
    }
  }

  /** While the rows above k are used up, a live worker of row k has the most slots left. */
  lemma TopOfTable(t: Table, n: nat, count: nat, k: int, w: int)
    requires TableOk(t, n, count) && 0 <= k < n && 0 <= w < count && t.snap[w] == k + 1
    requires forall j :: k < j < n ==> Live(t, j) == 0
    ensures forall v :: 0 <= v < count ==> t.snap[v] <= t.snap[w]
  {
    forall v | 0 <= v < count
      ensures t.snap[v] <= k + 1
    {
      assert WorkerOk(t, v);
      if t.snap[v] > 0 {
        var p := LiveEntry(t, n, count, v);
        assert Live(t, t.snap[v] - 1) > 0;
      }
    }
  }
}
