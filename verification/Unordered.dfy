/**
 Requests a follower has received but the leader has not ordered yet, kept by sender and request id, and what an
 accelerated append-entries message does to them (r2p2/hovercraft.c).
 */
module Unordered {
  import opened Collections

  const UNORDERED_SIZE := 4096
  const ADMISSION := 3000
  const GB_THRESHOLD := 1000000  // microseconds

  datatype Key = Key(ip: int, port: int, rid: int)

  class ServerPair {
    const key: Key
    const len: int  // bytes of the request, its header included
    var receivedAt: int

    constructor (key: Key, len: int)
      requires len > 0
      ensures this.key == key && this.len == len
    {
      this.key, this.len := key, len;
    }
  }

  /** Position i is the first with its key. */
  predicate First(keys: seq<Key>, i: int)
    requires 0 <= i < |keys|
  {
    forall j :: 0 <= j < i ==> keys[j] != keys[i]
  }

  /** The message names a request of the set at position i, and the library used it for its log. */
  predicate Used(reqs: map<Key, ServerPair>, keys: seq<Key>, accept: seq<bool>, i: int)
    requires 0 <= i < |keys| == |accept|
  {
    keys[i] in reqs && First(keys, i) && accept[i]
  }

  /** The requests that the library has used. */
  ghost function UsedKeys(reqs: map<Key, ServerPair>, keys: seq<Key>, accept: seq<bool>): set<Key>
    requires |keys| == |accept|
  {
    set i | 0 <= i < |keys| && Used(reqs, keys, accept, i) :: keys[i]
  }

  /** The requests named by the first i positions. */
  ghost function Names(keys: seq<Key>, i: int): set<Key>
    requires 0 <= i <= |keys|
  {
    set j | 0 <= j < i :: keys[j]
  }

  lemma NamesStep(all: map<Key, ServerPair>, keys: seq<Key>, i: int)
    requires 0 <= i < |keys|
    ensures keys[i] in Names(keys, i) <==> !First(keys, i)
    ensures all - Names(keys, i) - {keys[i]} == all - Names(keys, i + 1)
  {
    assert Names(keys, i + 1) == Names(keys, i) + {keys[i]};
  }

  /** What looking up position i finds, when the ones before have been looked up. */
  ghost function Found(all: map<Key, ServerPair>, keys: seq<Key>, i: int): ServerPair?
    requires 0 <= i < |keys|
  {
    if keys[i] in all && First(keys, i) then all[keys[i]] else null
  }

  ghost function AllFound(all: map<Key, ServerPair>, keys: seq<Key>, i: int): (s: seq<ServerPair?>)
    requires 0 <= i <= |keys|
    ensures |s| == i
  {
    if i == 0 then [] else AllFound(all, keys, i - 1) + [Found(all, keys, i - 1)]
  }

  lemma {:induction false} FoundAt(all: map<Key, ServerPair>, keys: seq<Key>, n: int, i: int)
    requires 0 <= i < n <= |keys|
    ensures AllFound(all, keys, n)[i] == Found(all, keys, i)
    decreases n
  {
    if i < n - 1 {
      FoundAt(all, keys, n - 1, i);
    }
  }

  ghost predicate Keyed(all: map<Key, ServerPair>) {
    forall k :: k in all ==> all[k].key == k && all[k].len > 0
  }

  lemma NotGone(all: map<Key, ServerPair>, keys: seq<Key>, accept: seq<bool>, i: int)
    requires 0 <= i < |keys| == |accept| && Keyed(all) && keys[i] in all && First(keys, i)
    ensures all[keys[i]] !in Gone(all, keys, accept, i)
  {
  }

  /** The request is back in its place after the first i positions have been dealt with. */
  ghost predicate Back(keys: seq<Key>, accept: seq<bool>, i: int, k: Key)
    requires 0 <= i <= |keys| == |accept|
  {
    k !in keys || exists j :: 0 <= j < i && keys[j] == k && First(keys, j) && !accept[j]
  }

  ghost function Part(all: map<Key, ServerPair>, keys: seq<Key>, accept: seq<bool>, i: int): map<Key, ServerPair>
    requires 0 <= i <= |keys| == |accept|
  {
    map k | k in all && Back(keys, accept, i, k) :: all[k]
  }

  /** The pairs given up among the first i positions. */
  ghost function Gone(all: map<Key, ServerPair>, keys: seq<Key>, accept: seq<bool>, i: int): set<ServerPair>
    requires 0 <= i <= |keys| == |accept|
  {
    set j | 0 <= j < i && Used(all, keys, accept, j) :: all[keys[j]]
  }

  lemma PartStart(all: map<Key, ServerPair>, keys: seq<Key>, accept: seq<bool>)
    requires |keys| == |accept|
    ensures Part(all, keys, accept, 0) == all - Names(keys, |keys|) && Gone(all, keys, accept, 0) == {}
  {
  }

  lemma PartMoves(all: map<Key, ServerPair>, keys: seq<Key>, accept: seq<bool>, i: int)
    requires 0 <= i < |keys| == |accept|
    ensures var before, after, k := Part(all, keys, accept, i), Part(all, keys, accept, i + 1), keys[i];
            after == if k in all && First(keys, i) && !accept[i] then before[k := all[k]] else before
  {
    BackStep(keys, accept, i);
  }

  lemma GoneMoves(all: map<Key, ServerPair>, keys: seq<Key>, accept: seq<bool>, i: int)
    requires 0 <= i < |keys| == |accept|
    ensures Gone(all, keys, accept, i + 1) ==
            Gone(all, keys, accept, i) + if Used(all, keys, accept, i) then {all[keys[i]]} else {}
  {
  }

  lemma Missing(all: map<Key, ServerPair>, keys: seq<Key>, accept: seq<bool>, i: int)
    requires 0 <= i < |keys| == |accept| && keys[i] in all && First(keys, i)
    ensures var before := Part(all, keys, accept, i); keys[i] !in before && |before| < |all|
  {
    var before := Part(all, keys, accept, i);
    assert !Back(keys, accept, i, keys[i]);
    SubsetSize(before.Keys, all.Keys - {keys[i]});
  }

  /** Position i changes nothing, gives up its pair, or puts it back where it was missing. */
  lemma PartStep(all: map<Key, ServerPair>, keys: seq<Key>, accept: seq<bool>, i: int)
    requires 0 <= i < |keys| == |accept|
    ensures var before, after := Part(all, keys, accept, i), Part(all, keys, accept, i + 1);
            var g, g' := Gone(all, keys, accept, i), Gone(all, keys, accept, i + 1);
            var k := keys[i];
            if k !in all || !First(keys, i) then after == before && g' == g
            else if accept[i] then after == before && g' == g + {all[k]} && k !in before
            else after == before[k := all[k]] && g' == g && k !in before && |before| < |all|
  {
    PartMoves(all, keys, accept, i);
    GoneMoves(all, keys, accept, i);
    if keys[i] in all && First(keys, i) {
      Missing(all, keys, accept, i);
    }
  }

  lemma BackStep(keys: seq<Key>, accept: seq<bool>, i: int)
    requires 0 <= i < |keys| == |accept|
    ensures forall k :: Back(keys, accept, i + 1, k) <==>
              Back(keys, accept, i, k) || (k == keys[i] && First(keys, i) && !accept[i])
  {
    forall k: Key
      ensures Back(keys, accept, i + 1, k) <==>
                Back(keys, accept, i, k) || (k == keys[i] && First(keys, i) && !accept[i])
    {
      if k in keys && exists j :: 0 <= j < i && keys[j] == k && First(keys, j) && !accept[j] {
        var j :| 0 <= j < i && keys[j] == k && First(keys, j) && !accept[j];
        assert 0 <= j < i + 1;
      }
    }
  }

  /** In the end exactly the used requests are missing. */
  lemma PartEnd(all: map<Key, ServerPair>, keys: seq<Key>, accept: seq<bool>)
    requires |keys| == |accept|
    ensures Part(all, keys, accept, |keys|) == all - UsedKeys(all, keys, accept)
  {
    forall k | k in all
      ensures Back(keys, accept, |keys|, k) <==> k !in UsedKeys(all, keys, accept)
    {
      if k in keys {
        var j := FirstAt(keys, k);
        assert k in UsedKeys(all, keys, accept) <==> accept[j] by {
          if k in UsedKeys(all, keys, accept) {
            var i :| 0 <= i < |keys| && Used(all, keys, accept, i) && keys[i] == k;
            assert i == j;
          } else {
            assert !Used(all, keys, accept, j);
          }
        }
      }
    }
  }

  lemma FirstAt(keys: seq<Key>, k: Key) returns (j: int)
    requires k in keys
    ensures 0 <= j < |keys| && keys[j] == k && First(keys, j)
    ensures forall i :: 0 <= i < |keys| && keys[i] == k && First(keys, i) ==> i == j
  {
    j := 0;
    while keys[j] != k
      invariant 0 <= j < |keys| && forall i :: 0 <= i < j ==> keys[i] != k
      decreases |keys| - j
    {
      j := j + 1;
    }
  }

  lemma Replaced<K, V>(m: map<K, V>, k: K, v: V)
    ensures (m - {k})[k := v] == m[k := v]
  {
  }

  class UnorderedSet {
    var reqs: map<Key, ServerPair>
    var count: int               // unordered_count
    ghost var freed: set<ServerPair>

    ghost predicate Valid()
      reads this
    {
      && count == |reqs| <= UNORDERED_SIZE
      && forall k :: k in reqs ==> reqs[k].key == k && reqs[k].len > 0 && reqs[k] !in freed
    }

    constructor ()
      ensures Valid() && reqs == map[] && freed == {}
    {
      reqs, count, freed := map[], 0, {};
    }

    /** free_server_pair or free_object. */
    method Free(sp: ServerPair)
      requires Valid() && sp !in freed && !Holds(sp)
      modifies this`freed
      ensures Valid() && freed == old(freed) + {sp}
    {
      freed := freed + {sp};
    }

    ghost predicate Holds(sp: ServerPair)
      reads this
    {
      sp.key in reqs && reqs[sp.key] == sp
    }

    /** Is there room for a request with this key at time now? */
    predicate Admits(key: Key, now: int)
      reads this, if key in reqs then {reqs[key]} else {}
    {
      if key in reqs then now - reqs[key].receivedAt > GB_THRESHOLD else |reqs| < UNORDERED_SIZE
    }

    /** find_in_unordered_reqs: the request leaves the set. */
    method Find(key: Key) returns (sp: ServerPair?)
      requires Valid()
      modifies this`reqs, this`count
      ensures Valid() && reqs == old(reqs) - {key}
      ensures sp == if key in old(reqs) then old(reqs)[key] else null
    {
      sp := null;
      if key in reqs {
        sp := reqs[key];
        reqs := reqs - {key};
        count := count - 1;
      }
    }

    method Insert(sp: ServerPair) returns (ok: bool)
      requires Valid() && sp !in freed && sp.len > 0 && sp.key !in reqs
      modifies this`reqs, this`count
      ensures Valid() && (ok <==> |old(reqs)| < UNORDERED_SIZE)
      ensures reqs == if ok then old(reqs)[sp.key := sp] else old(reqs)
    {
      ok := |reqs| < UNORDERED_SIZE;
      if ok {
        reqs := reqs[sp.key := sp];
        count := count + 1;
      }
    }

    /**
     add_to_unordered_reqs at time now: a request with the same key gives way once it has been waiting for more than
     a second; otherwise the new one is refused, as it is when the table is full.
     */
    method Add(sp: ServerPair, now: int) returns (ok: bool)
      requires Valid() && sp !in freed && sp.len > 0 && !Holds(sp)
      modifies this, sp`receivedAt
      ensures Valid() && sp.receivedAt == now && (ok <==> old(Admits(sp.key, now)))
      ensures reqs == if ok then old(reqs)[sp.key := sp] else old(reqs)
      ensures freed == if ok && sp.key in old(reqs) then old(freed) + {old(reqs)[sp.key]} else old(freed)
    {
      sp.receivedAt := now;
      if sp.key in reqs {
        if now - reqs[sp.key].receivedAt <= GB_THRESHOLD { return false; }
        Evict(sp.key);
        Replaced(old(reqs), sp.key, sp);
      }
      ok := Insert(sp);
    }

    method Evict(key: Key)
      requires Valid() && key in reqs
      modifies this
      ensures Valid() && reqs == old(reqs) - {key} && |reqs| < UNORDERED_SIZE && freed == old(freed) + {old(reqs)[key]}
    {
      var sp := Find(key);
      Free(sp);
    }

    /** handle_replicated_req on a follower: the request is kept exactly if the set is not too full and admits it. */
    method HandleReplicatedReq(sp: ServerPair, now: int)
      requires Valid() && sp !in freed && sp.len > 0 && !Holds(sp)
      modifies this, sp`receivedAt
      ensures Valid() && (Holds(sp) <==> old(count < ADMISSION && Admits(sp.key, now)))
      ensures sp in freed <==> !Holds(sp)
      ensures forall k :: k != sp.key ==> (k in reqs <==> k in old(reqs)) && (k in reqs ==> reqs[k] == old(reqs)[k])
    {
      if count < ADMISSION {
        var ok := Add(sp, now);
        if !ok {
          Free(sp);
        }
      } else {
        Free(sp);
      }
    }

    /** msg_to_entries_accel: every request named leaves the set; a name without one, or repeated, finds none. */
    method Lookup(keys: seq<Key>) returns (entries: seq<ServerPair?>)
      requires Valid()
      modifies this`reqs, this`count
      ensures Valid() && reqs == old(reqs) - Names(keys, |keys|) && entries == AllFound(old(reqs), keys, |keys|)
    {
      entries := [];
      ghost var all := reqs;
      for i := 0 to |keys|
        invariant Valid() && reqs == all - Names(keys, i) && entries == AllFound(all, keys, i)
      {
        NamesStep(all, keys, i);
        var sp := Find(keys[i]);
        assert sp == Found(all, keys, i);
        entries := entries + [sp];
      }
    }

    /**
     process_ae_req_accel, where the library uses the entries that accept says. The set loses exactly the used
     requests, whose pairs are freed; putting the others back never fails.
     */
    method ProcessAeReq(keys: seq<Key>, accept: seq<bool>, now: int)
      requires Valid() && |keys| == |accept|
      modifies this, reqs.Values
      ensures Valid() && reqs == old(reqs) - UsedKeys(old(reqs), keys, accept)
      ensures freed == old(freed) + Gone(old(reqs), keys, accept, |keys|)
    {
      ghost var all := reqs;
      var entries := Lookup(keys);
      PartStart(all, keys, accept);
      SettleAll(entries, accept, now, all, freed, keys);
      PartEnd(all, keys, accept);
    }

    method SettleAll(entries: seq<ServerPair?>, accept: seq<bool>, now: int, ghost all: map<Key, ServerPair>,
                     ghost was: set<ServerPair>, ghost keys: seq<Key>)
      requires Valid() && |keys| == |accept| && entries == AllFound(all, keys, |keys|)
      requires Keyed(all) && |all| <= UNORDERED_SIZE && reqs == Part(all, keys, accept, 0)
      requires freed == was + Gone(all, keys, accept, 0) && forall k :: k in all ==> all[k] !in was
      modifies this, all.Values
      ensures Valid() && reqs == Part(all, keys, accept, |keys|) && freed == was + Gone(all, keys, accept, |keys|)
    {
      for i := 0 to |entries|
        invariant Valid() && reqs == Part(all, keys, accept, i) && freed == was + Gone(all, keys, accept, i)
      {
        FoundAt(all, keys, |keys|, i);
        Settle(entries[i], accept[i], now, all, was, keys, accept, i);
      }
    }

    /** One entry after the library is done: its pair is freed or goes back. */
    method Settle(sp: ServerPair?, used: bool, now: int, ghost all: map<Key, ServerPair>, ghost was: set<ServerPair>,
                  ghost keys: seq<Key>, ghost accept: seq<bool>, ghost i: int)
      requires Valid() && 0 <= i < |keys| == |accept| && sp == Found(all, keys, i) && used == accept[i]
      requires Keyed(all) && |all| <= UNORDERED_SIZE && reqs == Part(all, keys, accept, i)
      requires freed == was + Gone(all, keys, accept, i) && forall k :: k in all ==> all[k] !in was
      modifies this, if sp == null then {} else {sp}
      ensures Valid() && reqs == Part(all, keys, accept, i + 1) && freed == was + Gone(all, keys, accept, i + 1)
    {
      PartStep(all, keys, accept, i);
      if sp != null {
        NotGone(all, keys, accept, i);
        if used {
          Free(sp);
        } else {
          var ok := Add(sp, now);
          assert ok;
        }
      }
    }
  }
}
