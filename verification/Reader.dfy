/** Reading a buffer chain as one byte stream (gbuffer_reader_init, gbuffer_read, gbuffer_skip). */
module Reader {
  import opened Collections
  import opened Wire

  /** Place in a chain of packet bodies; `cur == |chain|` stands for the null buffer. */
  datatype Cursor = Cursor(cur: nat, left: nat)

  predicate InChain(chain: seq<seq<byte>>, c: Cursor) {
    && c.cur <= |chain|
    && c.left <= if c.cur < |chain| then |chain[c.cur]| else 0
  }

  /** How many bytes of the concatenated bodies lie behind the cursor. */
  function Position(chain: seq<seq<byte>>, c: Cursor): nat
    requires InChain(chain, c)
  {
    |Concat(chain[..c.cur])| + if c.cur < |chain| then |chain[c.cur]| - c.left else 0
  }

  /** Where the cursor stands after consuming n bytes, or after running off the chain. */
  function Advance(chain: seq<seq<byte>>, c: Cursor, n: nat): (c': Cursor)
    requires InChain(chain, c) && (c.cur < |chain| || n == 0)
    ensures InChain(chain, c')
    decreases |chain| - c.cur, n
  {
    if n == 0 then c
    else if c.left == 0 then
      if c.cur + 1 == |chain| then Cursor(|chain|, 0)
      else Advance(chain, Cursor(c.cur + 1, |chain[c.cur + 1]|), n)
    else if c.left < n then Advance(chain, Cursor(c.cur, 0), n - c.left)
    else Cursor(c.cur, c.left - n)
  }

  /** Moving from an exhausted buffer to the next one, or off the chain, skips nothing. */
  lemma NextBuffer(chain: seq<seq<byte>>, cur: nat)
    requires cur < |chain|
    ensures Position(chain, Cursor(cur, 0)) ==
            Position(chain, Cursor(cur + 1, if cur + 1 < |chain| then |chain[cur + 1]| else 0))
  {
    assert chain[..cur + 1] == chain[..cur] + [chain[cur]];
    ConcatSnoc(chain[..cur], chain[cur]);
  }

  /** The bytes left in the current buffer are the next bytes of the stream. */
  lemma CurrentBytes(chain: seq<seq<byte>>, c: Cursor)
    requires InChain(chain, c) && c.cur < |chain|
    ensures var b, p := chain[c.cur], Position(chain, c);
            p + c.left <= |Concat(chain)| && b[|b| - c.left..] == Concat(chain)[p..p + c.left]
  {
    var b, pre, post := chain[c.cur], chain[..c.cur], chain[c.cur + 1..];
    assert chain == pre + [b] + post;
    ConcatAppend(pre + [b], post);
    ConcatSnoc(pre, b);
    assert Concat(chain) == Concat(pre) + b + Concat(post);
  }

  lemma Adjacent<T>(s: seq<T>, a: nat, b: nat, c: nat)
    requires a <= b <= c <= |s|
    ensures s[a..b] + s[b..c] == s[a..c]
  {
  }

  /** Taking n bytes of the current buffer extends a slice of the stream that ends at the cursor. */
  lemma TakeChunk(chain: seq<seq<byte>>, c: Cursor, n: nat, from: nat)
    requires InChain(chain, c) && c.cur < |chain| && n <= c.left && from <= Position(chain, c)
    ensures var b, p, stream := chain[c.cur], Position(chain, c), Concat(chain);
            && Position(chain, Cursor(c.cur, c.left - n)) == p + n <= |stream|
            && stream[from..p] + b[|b| - c.left..|b| - c.left + n] == stream[from..p + n]
  {
    CurrentBytes(chain, c);
    var b, p, stream := chain[c.cur], Position(chain, c), Concat(chain);
    Shorter(b, |b| - c.left, stream, p, c.left, n);
    Adjacent(stream, from, p, p + n);
  }

  lemma Shorter<T>(b: seq<T>, x: nat, s: seq<T>, p: nat, left: nat, n: nat)
    requires x + left == |b| && p + left <= |s| && b[x..] == s[p..p + left] && n <= left
    ensures b[x..x + n] == s[p..p + n]
  {
    assert b[x..][..n] == b[x..x + n] && s[p..p + left][..n] == s[p..p + n];
  }

  lemma PositionInStream(chain: seq<seq<byte>>, c: Cursor)
    requires InChain(chain, c)
    ensures Position(chain, c) <= |Concat(chain)|
    ensures c.cur == |chain| ==> Position(chain, c) == |Concat(chain)|
  {
    if c.cur < |chain| {
      CurrentBytes(chain, c);
    } else {
      assert chain[..|chain|] == chain;
    }
  }

  /** Advancing by n moves n bytes on, or to the end; it falls off the chain only when fewer than n bytes were left. */
  lemma {:induction false} AdvancePosition(chain: seq<seq<byte>>, c: Cursor, n: nat)
    requires InChain(chain, c) && (c.cur < |chain| || n == 0)
    ensures var p, total := Position(chain, c), |Concat(chain)|;
            && p <= total
            && Position(chain, Advance(chain, c, n)) == Min(p + n, total)
            && (Advance(chain, c, n).cur == |chain| <==> p + n > total || c.cur == |chain|)
    decreases |chain| - c.cur, n
  {
    PositionInStream(chain, c);
    if n > 0 {
      CurrentBytes(chain, c);
      if c.left == 0 {
        NextBuffer(chain, c.cur);
        if c.cur + 1 < |chain| {
          AdvancePosition(chain, Cursor(c.cur + 1, |chain[c.cur + 1]|), n);
        } else {
          PositionInStream(chain, Cursor(|chain|, 0));
        }
      } else if c.left < n {
        AdvancePosition(chain, Cursor(c.cur, 0), n - c.left);
      }
    }
  }

  class GBufferReader {
    const chain: seq<seq<byte>>
    var cur: nat   // current_buffer
    var left: nat  // left_in_buffer

    function At(): Cursor reads this { Cursor(cur, left) }

    ghost predicate Valid() reads this { InChain(chain, At()) }

    ghost function Pos(): nat
      requires Valid()
      reads this
    {
      Position(chain, At())
    }

    constructor (bodies: seq<seq<byte>>)
      requires bodies != []
      ensures chain == bodies && Valid() && cur < |chain| && Pos() == 0
    {
      chain, cur, left := bodies, 0, |bodies[0]|;
      new;
      assert chain[..0] == [];
    }

    /** Leaves an exhausted buffer for its successor, or for null. */
    method Refill(ghost n: nat)
      requires Valid() && cur < |chain| && n > 0
      modifies this
      ensures Valid() && Pos() == old(Pos())
      ensures if old(left) > 0 then At() == old(At()) else cur == old(cur) + 1
      ensures if cur < |chain| then Advance(chain, old(At()), n) == Advance(chain, At(), n)
              else Advance(chain, old(At()), n) == At()
    {
      if left == 0 {
        NextBuffer(chain, cur);
        cur := cur + 1;
        if cur < |chain| {
          left := |chain[cur]|;
        }
      }
    }

    /** Copies out of the current buffer. */
    method Take(toCopy: nat) returns (data: seq<byte>)
      requires Valid() && cur < |chain| && toCopy > 0
      modifies this
      ensures Valid() && cur == old(cur) && |data| == Min(old(left), toCopy)
      ensures old(Pos()) <= Pos() <= |Concat(chain)| && data == Concat(chain)[old(Pos())..Pos()]
      ensures Advance(chain, old(At()), toCopy) == Advance(chain, At(), toCopy - |data|)
    {
      var b := chain[cur];
      var n := Min(left, toCopy);
      TakeChunk(chain, At(), n, Pos());
      data := b[|b| - left..|b| - left + n];
      left := left - n;
    }

    /** The next bytes out of one buffer, or none at the end of the chain. */
    method Chunk(toCopy: nat) returns (data: seq<byte>)
      requires Valid() && cur < |chain| && toCopy > 0
      modifies this
      ensures Valid() && |data| <= toCopy && old(Pos()) <= Pos() <= |Concat(chain)|
      ensures data == Concat(chain)[old(Pos())..Pos()]
      ensures cur < |chain| || toCopy - |data| == 0 ==>
                Advance(chain, old(At()), toCopy) == Advance(chain, At(), toCopy - |data|)
      ensures cur == |chain| ==> data == [] && Advance(chain, old(At()), toCopy) == At()
      ensures cur > old(cur) || (cur == old(cur) && |data| > 0)
    {
      PositionInStream(chain, At());
      Refill(toCopy);
      PositionInStream(chain, At());
      data := [];
      if cur < |chain| {
        data := Take(toCopy);
      }
    }

    /** Returns the next bytes of the stream; a null current buffer must not be read from again. */
    method Read(size: nat) returns (dst: seq<byte>)
      requires Valid() && (cur < |chain| || size == 0)
      modifies this
      ensures Valid() && At() == Advance(chain, old(At()), size)
      ensures old(Pos()) <= Pos() == Min(old(Pos()) + size, |Concat(chain)|)
      ensures dst == Concat(chain)[old(Pos())..Pos()]
      ensures cur == |chain| <==> |dst| < size || old(cur) == |chain|
    {
      var toCopy: nat := size;
      dst := [];
      AdvancePosition(chain, At(), size);
      while toCopy > 0
        invariant Valid() && |dst| + toCopy == size && (cur < |chain| || toCopy == 0)
        invariant Advance(chain, At(), toCopy) == Advance(chain, old(At()), size)
        invariant old(Pos()) <= Pos() <= |Concat(chain)| && dst == Concat(chain)[old(Pos())..Pos()]
        decreases |chain| - cur, toCopy
      {
        ghost var mid := Pos();
        var data := Chunk(toCopy);
        if cur == |chain| { break; }
        Adjacent(Concat(chain), old(Pos()), mid, Pos());
        dst := dst + data;
        toCopy := toCopy - |data|;
      }
    }

    /** Skipping reaches the same reader state as a read whose bytes are thrown away. */
    method Skip(size: nat) returns (skipped: nat)
      requires Valid() && (cur < |chain| || size == 0)
      modifies this
      ensures Valid() && At() == Advance(chain, old(At()), size)
      ensures Pos() == old(Pos()) + skipped == Min(old(Pos()) + size, |Concat(chain)|)
    {
      var toSkip: nat := size;
      AdvancePosition(chain, At(), size);
      while toSkip > 0
        invariant Valid() && toSkip <= size && (cur < |chain| || toSkip == 0)
        invariant Advance(chain, At(), toSkip) == Advance(chain, old(At()), size)
        invariant Pos() == old(Pos()) + (size - toSkip)
        decreases |chain| - cur, toSkip
      {
        Refill(toSkip);
        if cur == |chain| { break; }
        if left < toSkip {
          toSkip := toSkip - left;
          left := 0;
        } else {
          left := left - toSkip;
          toSkip := 0;
        }
      }
      return size - toSkip;
    }
  }
}
