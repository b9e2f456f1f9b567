/** Numbers, finite sets, injective maps and sequences without repetition. */
module Collections {

  /** Marks a value under discussion; facts about it stay out of proofs that only pass it on. */
  predicate About<T>(x: T) { true }

  function Min(a: int, b: int): int {
    if a < b then a else b
  }

  function Range(n: nat): (s: set<int>)
    ensures |s| == n && forall x :: x in s <==> 0 <= x < n
  {
    if n == 0 then {} else Range(n - 1) + {n - 1}
  }

  lemma {:induction false} SubsetSize<T>(a: set<T>, b: set<T>)
    requires a <= b
    ensures |a| <= |b|
  {
    assert b == a + (b - a);
  }

  lemma FreeIndex(taken: set<int>, n: nat)
    requires |taken| < n
    ensures exists x :: 0 <= x < n && x !in taken
  {
    if forall x :: 0 <= x < n ==> x in taken {
      SubsetSize(Range(n), taken);
    }
  }

  /** An injective map has as many values as keys. */
  lemma {:induction false} InjectiveSize<K, V>(m: map<K, V>)
    requires forall a, b :: a in m && b in m && m[a] == m[b] ==> a == b
    ensures |m.Values| == |m.Keys|
    decreases |m.Keys|
  {
    if m.Keys != {} {
      var k :| k in m;
      var rest := m - {k};
      assert rest.Keys == m.Keys - {k};
      InjectiveSize(rest);
      forall v | v in m.Values
        ensures v in rest.Values + {m[k]}
      {
        var a :| a in m && m[a] == v;
        assert a == k || (a in rest && rest[a] == v);
      }
      assert m.Values == rest.Values + {m[k]};
    }
  }

  /** Maps that undo each other have as many keys. */
  lemma {:induction false} InverseSize<K, V>(m: map<K, V>, n: map<V, K>)
    requires forall k :: k in m ==> m[k] in n && n[m[k]] == k
    requires forall v :: v in n ==> n[v] in m && m[n[v]] == v
    ensures |m| == |n|
    decreases |m|
  {
    if k :| k in m {
      var v := m[k];
      var m', n' := m - {k}, n - {v};
      assert m'.Keys == m.Keys - {k} && n'.Keys == n.Keys - {v};
      InverseSize(m', n');
    } else {
      assert m.Keys == {};
      assert n.Keys == {};
    }
  }

  predicate NoDup(s: seq<int>) {
    forall i, j :: 0 <= i < j < |s| ==> s[i] != s[j]
  }

  /** Distinct numbers below n are at most n. */
  lemma NoDupSize(s: seq<int>, n: nat)
    requires NoDup(s) && forall i :: 0 <= i < |s| ==> 0 <= s[i] < n
    ensures |s| <= n
  {
    var m := map i | 0 <= i < |s| :: s[i];
    assert m.Keys == Range(|s|);
    InjectiveSize(m);
    SubsetSize(m.Values, Range(n));
  }

  /** The sequence without its element at i. */
  function Without<T>(s: seq<T>, i: nat): seq<T>
    requires i < |s|
  {
    s[..i] + s[i + 1..]
  }

  ghost predicate AllIn<T>(s: seq<T>, all: set<T>) {
    forall x :: x in s ==> x in all
  }

  lemma WithoutAllIn<T>(s: seq<T>, all: set<T>, i: nat)
    requires AllIn(s, all) && i < |s|
    ensures AllIn(Without(s, i), all)
  {
  }

  lemma UpdateTwice<K, V>(m: map<K, V>, k: K, v: V, w: V)
    ensures m[k := v][k := w] == m[k := w]
  {
  }

  lemma UpdateThenRemove<K, V>(m: map<K, V>, j: K, k: K, v: V)
    ensures m[k := v] - {j} - {k} == m - {j} - {k}
  {
  }
}
