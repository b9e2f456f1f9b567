/** Circular probing with a masked 32-bit index, as alloc_object and get_socket do it. */
module Probing {

  const WORD := 0x1_0000_0000

  /** Bitwise and of two numbers. */
  function And(x: nat, y: nat): nat {
    if x == 0 || y == 0 then 0 else (x % 2) * (y % 2) + 2 * And(x / 2, y / 2)
  }

  predicate PowerOfTwo(n: nat) {
    n == 1 || (n > 1 && n % 2 == 0 && PowerOfTwo(n / 2))
  }

  lemma AtLeast(a: int, m: int)
    requires a >= 1 && m >= 0
    ensures a * m >= m
  {
  }

  lemma Distribute(a: int, b: int, m: int)
    ensures (a - b) * m == a * m - b * m
  {
  }

  lemma ModUnique(x: nat, m: nat, q: nat, r: nat)
    requires 0 <= r < m && x == q * m + r
    ensures x % m == r
  {
    var q', r' := x / m, x % m;
    Distribute(q, q', m);
    Distribute(q', q, m);
    if q' < q {
      AtLeast(q - q', m);
    } else if q < q' {
      AtLeast(q' - q, m);
    }
  }

  lemma HalfMod(x: nat, h: nat)
    requires h > 0
    ensures x % (2 * h) == x % 2 + 2 * ((x / 2) % h)
  {
    var q, r := (x / 2) / h, (x / 2) % h;
    assert x / 2 == q * h + r;
    assert x == q * (2 * h) + (2 * r + x % 2);
    ModUnique(x, 2 * h, q, 2 * r + x % 2);
  }

  /** On a power of two the mask is a remainder. */
  lemma {:induction false} MaskIsRemainder(x: nat, size: nat)
    requires PowerOfTwo(size)
    ensures And(x, size - 1) == x % size
  {
    if size > 1 {
      var h := size / 2;
      MaskIsRemainder(x / 2, h);
      HalfMod(x, h);
      assert size == 2 * h && (size - 1) / 2 == h - 1 && (size - 1) % 2 == 1;
      if x == 0 {
        ModUnique(0, size, 0, 0);
      } else {
        assert And(x, size - 1) == x % 2 + 2 * And(x / 2, h - 1);
      }
    }
  }

  ghost predicate Reached(slot: int, mask: nat) {
    exists x: nat :: And(x, mask) == slot
  }

  ghost predicate AllReached(size: nat, mask: nat) {
    forall slot :: 0 <= slot < size ==> Reached(slot, mask)
  }

  /** A mask with a zero bit leaves some slot out, whatever the index. */
  lemma {:induction false} SomeSlotUnreached(size: nat) returns (slot: nat)
    requires size > 0 && !PowerOfTwo(size)
    ensures slot < size && !Reached(slot, size - 1)
  {
    var m := size - 1;
    if m % 2 == 0 {
      slot := 1;
      forall x: nat
        ensures And(x, m) != slot
      {
        assert And(x, m) % 2 == 0;
      }
    } else {
      assert size % 2 == 0 && m / 2 == size / 2 - 1;
      var half := SomeSlotUnreached(size / 2);
      slot := 2 * half;
      forall x: nat
        ensures And(x, m) != slot
      {
        assert And(x / 2, m / 2) != half;
        assert And(0, m / 2) != half;
        assert x != 0 ==> And(x, m) / 2 == And(x / 2, m / 2);
      }
    }
  }

  /** Masked probing reaches every slot exactly when the size is a power of two. */
  lemma ReachesAllSlotsExactlyWhen(size: nat)
    requires size > 0
    ensures AllReached(size, size - 1) <==> PowerOfTwo(size)
  {
    if PowerOfTwo(size) {
      var mask := size - 1;
      forall slot | 0 <= slot < size
        ensures Reached(slot, mask)
      {
        MaskIsRemainder(slot, size);
        ModUnique(slot, size, 0, slot);
      }
    } else {
      var slot := SomeSlotUnreached(size);
    }
  }

  lemma {:induction false} PowerDivides(s: nat, t: nat)
    requires PowerOfTwo(s) && PowerOfTwo(t) && s <= t
    ensures t % s == 0
  {
    if s > 1 {
      PowerDivides(s / 2, t / 2);
      var q := (t / 2) / (s / 2);
      assert t / 2 == q * (s / 2);
      ModUnique(t, s, q, 0);
    }
  }

  lemma {:induction false} PowerProduct(s: nat, t: nat)
    requires PowerOfTwo(s) && PowerOfTwo(t)
    ensures PowerOfTwo(s * t)
  {
    if s > 1 {
      PowerProduct(s / 2, t);
      assert s * t == 2 * (s / 2 * t);
    }
  }

  lemma WordIsPower()
    ensures PowerOfTwo(WORD)
  {
    assert PowerOfTwo(16);
    PowerProduct(16, 16);
    PowerProduct(256, 256);
    PowerProduct(65536, 65536);
  }

  function Bump(idx: nat): nat {
    if idx + 1 == WORD then 0 else idx + 1
  }

  /** The next slot in circular order. */
  function Following(p: nat, size: nat): nat {
    if p + 1 == size then 0 else p + 1
  }

  /** Incrementing the index, also past 2^32 - 1, moves to the next slot in circular order. */
  lemma NextSlot(idx: nat, size: nat)
    requires PowerOfTwo(size) && size <= WORD && idx < WORD
    ensures And(idx, size - 1) < size
    ensures And(Bump(idx), size - 1) == Following(And(idx, size - 1), size)
  {
    MaskIsRemainder(idx, size);
    MaskIsRemainder(Bump(idx), size);
    if idx + 1 == WORD {
      WordIsPower();
      PowerDivides(size, WORD);
      LastRemainder(WORD, size);
      ModUnique(0, size, 0, 0);
    } else {
      StepRemainder(idx, size);
    }
  }

  lemma StepRemainder(x: nat, m: nat)
    requires m > 0
    ensures (x + 1) % m == Following(x % m, m)
  {
    var q, r := x / m, x % m;
    assert x == q * m + r;
    if r + 1 == m {
      assert x + 1 == (q + 1) * m;
      ModUnique(x + 1, m, q + 1, 0);
    } else {
      ModUnique(x + 1, m, q, r + 1);
    }
  }

  lemma LastRemainder(t: nat, m: nat)
    requires 0 < m <= t && t % m == 0
    ensures (t - 1) % m == m - 1
  {
    var q := t / m;
    assert t == q * m;
    assert t - 1 == (q - 1) * m + (m - 1);
    ModUnique(t - 1, m, q - 1, m - 1);
  }

  /** Steps from slot p to slot f, going round. */
  function Ahead(p: nat, f: nat, size: nat): int {
    if p <= f then f - p else f - p + size
  }

  lemma AheadStep(p: nat, f: nat, size: nat)
    requires p < size && f < size && p != f
    ensures Ahead(Following(p, size), f, size) == Ahead(p, f, size) - 1 >= 0
  {
  }

  /** The index after k increments. */
  function Bumps(idx: nat, k: nat): nat {
    if k == 0 then idx else Bump(Bumps(idx, k - 1))
  }

  /** The slot that probe k looks at when probing starts at idx. */
  function Probe(idx: nat, size: nat, k: nat): nat
    requires size > 0
  {
    And(Bumps(idx, k), size - 1)
  }

  /** The first k probes from idx on all met taken slots; the next one looks at slot. */
  ghost predicate Searched(used: set<int>, idx: nat, size: nat, k: nat, slot: nat) {
    && size > 0 && slot < size && slot == Probe(idx, size, k) && Bumps(idx, k) < WORD
    && forall j {:trigger Probe(idx, size, j)} :: 0 <= j < k ==> Probe(idx, size, j) in used
  }

  lemma SearchStart(used: set<int>, idx: nat, size: nat)
    requires PowerOfTwo(size) && size <= WORD && idx < WORD
    ensures Searched(used, idx, size, 0, And(idx, size - 1))
  {
    NextSlot(idx, size);
    assert Bumps(idx, 0) == idx;
  }

  lemma SearchStep(used: set<int>, idx: nat, size: nat, k: nat, slot: nat)
    requires PowerOfTwo(size) && size <= WORD && Searched(used, idx, size, k, slot) && slot in used
    ensures Bumps(idx, k + 1) == Bump(Bumps(idx, k))
    ensures var next := And(Bumps(idx, k + 1), size - 1);
            next == Following(slot, size) && Searched(used, idx, size, k + 1, next)
  {
    NextSlot(Bumps(idx, k), size);
  }
}
