/**
  The byte ring of the host tool, ForgeTool/RingBuffer.hpp: free-running 64-bit counters
  and a mask, every slot usable, and copies in at most two chunks.

  `contents` is what it means; `Push` appends the longest prefix that fits, `Pop` takes
  the longest that exists, whatever the counters have wrapped to.
*/
module HostRing {
  import opened Words
  import opened BoundedQueue
  import Ring

  const SIZE := 0x1_0000_0000_0000_0000

  predicate PowerOfTwo(n: nat) {
    n == 1 || (n > 1 && n % 2 == 0 && PowerOfTwo(n / 2))
  }

  /** Of two powers of two the smaller divides the larger. */
  lemma {:induction false} Divides(n: nat, m: nat) returns (k: nat)
    requires PowerOfTwo(n) && PowerOfTwo(m) && n <= m
    ensures m == k * n && 0 < n
    decreases n
  {
    if n == 1 {
      k := m;
    } else {
      k := Divides(n / 2, m / 2);
      assert m == 2 * (k * (n / 2)) == k * n;
    }
  }

  lemma Twofold(n: nat)
    requires PowerOfTwo(n)
    ensures PowerOfTwo(2 * n)
  {
    assert 2 * n / 2 == n && 2 * n % 2 == 0;
  }

  lemma TimesSixteen(n: nat)
    requires PowerOfTwo(n)
    ensures PowerOfTwo(16 * n)
  {
    Twofold(n);
    Twofold(2 * n);
    Twofold(4 * n);
    Twofold(8 * n);
  }

  lemma SizeIsPower()
    ensures PowerOfTwo(SIZE)
  {
    TimesSixteen(0x1);
    TimesSixteen(0x10);
    TimesSixteen(0x100);
    TimesSixteen(0x1000);
    TimesSixteen(0x1_0000);
    TimesSixteen(0x10_0000);
    TimesSixteen(0x100_0000);
    TimesSixteen(0x1000_0000);
    TimesSixteen(0x1_0000_0000);
    TimesSixteen(0x10_0000_0000);
    TimesSixteen(0x100_0000_0000);
    TimesSixteen(0x1000_0000_0000);
    TimesSixteen(0x1_0000_0000_0000);
    TimesSixteen(0x10_0000_0000_0000);
    TimesSixteen(0x100_0000_0000_0000);
    TimesSixteen(0x1000_0000_0000_0000);
  }

  lemma SameRemainder(x: int, y: int, q: int, n: nat)
    requires 0 < n && x == y + q * n
    ensures x % n == y % n
  {
    assert x == (y / n + q) * n + y % n by {
      assert y == (y / n) * n + y % n;
      assert (y / n + q) * n == (y / n) * n + q * n;
    }
    ModUnique(x, y / n + q, y % n, n);
  }

  /** A counter moved on by n, wrapping at 64 bits. */
  function Advance(p: nat, n: nat): (r: nat)
    requires p < SIZE && n <= SIZE
    ensures r < SIZE
  {
    if p + n < SIZE then p + n else p + n - SIZE
  }

  lemma Shifted(p: nat, n: nat, cap: nat, k: nat)
    requires 0 < cap
    ensures (p + n - k * cap) % cap == (p % cap + n) % cap
  {
    assert p == (p / cap) * cap + p % cap;
    assert (p / cap - k) * cap == (p / cap) * cap - k * cap;
    SameRemainder(p + n - k * cap, p % cap + n, p / cap - k, cap);
  }

  /** Masking a counter survives its wrap: the position moves on around the ring. */
  lemma MaskedAdvance(p: nat, n: nat, cap: nat)
    requires PowerOfTwo(cap) && cap <= 0x8000_0000_0000_0000 && p < SIZE && n <= cap
    ensures 0 < cap && p % cap < cap && Advance(p, n) % cap == Ring.And(p % cap + n, cap)
  {
    SizeIsPower();
    var k := Divides(cap, SIZE);
    Shifted(p, n, cap, if p + n < SIZE then 0 else k);
    Ring.AndIsModulo(p % cap + n, cap);
  }

  /** The byte at place i of the ring's contents is at this index of its buffer. */
  function Index(start: nat, i: nat, cap: nat): (k: nat)
    requires start < cap && i <= cap
    ensures k < cap
  {
    Ring.And(start + i, cap)
  }

  /** The contents, of length n, read from index `start` on. */
  ghost predicate Holds(buf: seq<byte>, start: nat, items: seq<byte>) {
    && start < |buf| && |items| <= |buf|
    && forall i :: 0 <= i < |items| ==> buf[Index(start, i, |buf|)] == items[i]
  }

  class RingBuffer {
    const buf: array<byte>
    const capacity: nat
    var head: nat
    var tail: nat
    ghost var contents: seq<byte>

    ghost predicate Valid()
      reads this, buf
    {
      && PowerOfTwo(capacity) && capacity <= 0x8000_0000_0000_0000 && buf.Length == capacity
      && head < SIZE && |contents| <= capacity && tail == Advance(head, |contents|)
      && head % capacity < capacity && Holds(buf[..], head % capacity, contents)
    }

    /** A power of two not below the capacity asked for, and by `LeastPower` the least. */
    constructor (asked: nat)
      requires asked <= 0x8000_0000_0000_0000
      ensures Valid() && fresh(buf) && contents == []
      ensures asked <= capacity && PowerOfTwo(capacity) && (capacity == 1 || capacity < 2 * asked)
    {
      var c := 1;
      while c < asked
        invariant PowerOfTwo(c) && c <= 0x8000_0000_0000_0000 && (c == 1 || c < 2 * asked)
        decreases asked - c
      {
        DoubleFits(c);
        c := c * 2;
      }
      capacity := c;
      buf := new byte[c];
      head, tail, contents := 0, 0, [];
    }

    /** The counters' difference, wrapped to 64 bits. */
    function Available(): (n: nat)
      requires Valid()
      reads this, buf
      ensures n == |contents|
    {
      if tail >= head then tail - head else tail - head + SIZE
    }

    /** Appends the longest prefix of the first `len` bytes that fits; a null pointer appends nothing. */
    method Push(data: array?<byte>, len: nat) returns (written: nat)
      requires Valid() && data != buf && (data != null ==> len <= data.Length)
      modifies this`tail, this`contents, buf
      ensures Valid() && written == if data == null then 0 else Min(len, capacity - |old(contents)|)
      ensures contents == old(contents) + (if data == null then [] else data[..written])
    {
      if data == null || len == 0 {
        return 0;
      }
      var free := capacity - Available();
      written := Min(len, free);
      MaskedAdvance(head, |contents|, capacity);
      MaskedAdvance(tail, written, capacity);
      var pos := tail % capacity;
      var first := Min(written, capacity - pos);
      ghost var was := buf[..];
      CopyIn(data, 0, pos, first);
      if written > first {
        CopyIn(data, first, 0, written - first);
      }
      AdvanceTwice(head, |contents|, written);
      tail := Advance(tail, written);
      HoldsMore(was, buf[..], head % capacity, contents, data[..written], first);
      contents := contents + data[..written];
    }

    /** memcpy into the buffer. */
    method CopyIn(data: array<byte>, from: nat, to: nat, n: nat)
      requires data != buf && from + n <= data.Length && to + n <= buf.Length
      modifies buf
      ensures forall i :: 0 <= i < buf.Length ==>
        buf[i] == if to <= i < to + n then data[from + (i - to)] else old(buf[i])
    {
      forall i | 0 <= i < n {
        buf[to + i] := data[from + i];
      }
    }

    /** Takes the longest prefix of the contents of at most `len` bytes; a null pointer takes nothing. */
    method Pop(dst: array?<byte>, len: nat) returns (taken: nat)
      requires Valid() && dst != buf && (dst != null ==> len <= dst.Length)
      modifies this`head, this`contents, dst
      ensures Valid() && taken == if dst == null then 0 else Min(len, |old(contents)|)
      ensures contents == old(contents)[taken..]
      ensures dst != null ==> forall i :: 0 <= i < dst.Length ==>
        dst[i] == if i < taken then old(contents)[i] else old(dst[i])
    {
      if dst == null || len == 0 {
        return 0;
      }
      taken := Min(len, Available());
      MaskedAdvance(head, taken, capacity);
      var pos := head % capacity;
      var first := Min(taken, capacity - pos);
      CopyOut(dst, 0, pos, first);
      if taken > first {
        CopyOut(dst, first, 0, taken - first);
      }
      AdvanceTwice(head, taken, |contents| - taken);
      head := Advance(head, taken);
      HoldsLess(buf[..], pos, contents, taken);
      contents := contents[taken..];
    }

    /** memcpy out of the buffer. */
    method CopyOut(dst: array<byte>, to: nat, from: nat, n: nat)
      requires dst != buf && from + n <= buf.Length && to + n <= dst.Length
      modifies dst
      ensures forall i :: 0 <= i < dst.Length ==>
        dst[i] == if to <= i < to + n then buf[from + (i - to)] else old(dst[i])
    {
      forall i | 0 <= i < n {
        dst[to + i] := buf[from + i];
      }
    }

    method Clear()
      requires Valid()
      modifies this`head, this`tail, this`contents
      ensures Valid() && contents == []
    {
      head := 0;
      tail := 0;
      contents := [];
    }
  }

  lemma AdvanceTwice(p: nat, n: nat, m: nat)
    requires p < SIZE && n + m <= SIZE
    ensures Advance(Advance(p, n), m) == Advance(p, n + m)
  {
  }

  /** Byte i after the first chunk was written at pos and the rest at 0. */
  function Written(was: seq<byte>, pos: nat, more: seq<byte>, first: nat, i: nat): byte
    requires i < |was| && first <= |more|
  {
    if i < |more| - first then more[first + i] else if pos <= i < pos + first then more[i - pos] else was[i]
  }

  /** The two chunks written from the end of the contents hold the appended bytes. */
  lemma HoldsMore(was: seq<byte>, now: seq<byte>, start: nat, items: seq<byte>, more: seq<byte>, first: nat)
    requires |was| == |now| && Holds(was, start, items) && |items| + |more| <= |was|
    requires first == Min(|more|, |was| - Index(start, |items|, |was|))
    requires forall i :: 0 <= i < |now| ==> now[i] == Written(was, Index(start, |items|, |was|), more, first, i)
    ensures Holds(now, start, items + more)
  {
  }

  lemma HoldsLess(buf: seq<byte>, start: nat, items: seq<byte>, n: nat)
    requires Holds(buf, start, items) && n <= |items|
    ensures Holds(buf, Index(start, n, |buf|), items[n..])
  {
  }

  lemma DoubleFits(c: nat)
    requires PowerOfTwo(c) && c < 0x8000_0000_0000_0000
    ensures PowerOfTwo(2 * c) && 2 * c <= 0x8000_0000_0000_0000
  {
    SizeIsPower();
    Twice(c, 0x8000_0000_0000_0000);
  }

  /** No power of two lies between one and its double. */
  lemma Twice(c: nat, n: nat)
    requires PowerOfTwo(c) && PowerOfTwo(n) && c < n
    ensures 2 * c <= n
  {
    var k := Divides(c, n);
    assert k <= 0 ==> k * c <= 0;
    assert k >= 2 ==> k * c >= 2 * c;
  }

  /** The capacity chosen by the constructor is the least power of two that is enough. */
  lemma LeastPower(c: nat, asked: nat, n: nat)
    requires PowerOfTwo(c) && (c == 1 || c < 2 * asked) && PowerOfTwo(n) && asked <= n
    ensures c <= n
  {
    if n < c {
      Twice(n, c);
    }
  }

  // ---------- whole runs ----------

  /** One call on the ring, and the same on the queue. */
  method Perform(ring: RingBuffer, op: Op<byte>, ghost t: Traffic<byte>) returns (got: seq<byte>)
    requires ring.Valid() && t.queue == Queue(ring.capacity, ring.contents)
    modifies ring, ring.buf
    ensures ring.Valid() && After(t, op).queue == Queue(ring.capacity, ring.contents)
    ensures After(t, op).delivered == if op.ClearOp? then [] else t.delivered + got
  {
    got := [];
    match op {
      case PutOp(xs) =>
        PushBytes(ring, xs);
        EmptyRight(t.delivered);
      case GetOp(n) =>
        got := PopBytes(ring, n);
      case ClearOp =>
        ring.Clear();
    }
  }

  method PushBytes(ring: RingBuffer, xs: seq<byte>)
    requires ring.Valid()
    modifies ring, ring.buf
    ensures ring.Valid() && Queue(ring.capacity, ring.contents) == Queue(ring.capacity, old(ring.contents)).Put(xs)
  {
    var data := new byte[|xs|](i requires 0 <= i < |xs| => xs[i]);
    assert data[..] == xs;
    var written := ring.Push(data, |xs|);
    assert data[..written] == xs[..written];
  }

  method PopBytes(ring: RingBuffer, n: nat) returns (got: seq<byte>)
    requires ring.Valid()
    modifies ring, ring.buf
    ensures ring.Valid() && Queue(ring.capacity, ring.contents) == Queue(ring.capacity, old(ring.contents)).Get(n)
    ensures got == old(ring.contents)[..Min(n, |old(ring.contents)|)]
  {
    var dst := new byte[n];
    ghost var before := ring.contents;
    var taken := ring.Pop(dst, n);
    got := dst[..taken];
    assert got == before[..taken];
  }

  /**
    Any calls on an empty ring, one after another: it stays the queue, and what came out
    since the last clear is what that delivered.
  */
  method Drive(ring: RingBuffer, ops: seq<Op<byte>>) returns (out: seq<byte>)
    requires ring.Valid() && ring.contents == []
    modifies ring, ring.buf
    ensures ring.Valid() && Run(ring.capacity, ops).queue == Queue(ring.capacity, ring.contents)
    ensures out == Run(ring.capacity, ops).delivered
    ensures Run(ring.capacity, ops).accepted == out + ring.contents
  {
    out := [];
    var i := 0;
    while i < |ops|
      invariant 0 <= i <= |ops| && ring.Valid()
      invariant Run(ring.capacity, ops[..i]).queue == Queue(ring.capacity, ring.contents)
      invariant out == Run(ring.capacity, ops[..i]).delivered
    {
      assert ops[..i + 1][..i] == ops[..i];
      var got := Perform(ring, ops[i], Run(ring.capacity, ops[..i]));
      out := if ops[i].ClearOp? then [] else out + got;
      i := i + 1;
    }
    assert ops[..i] == ops;
    InOrder(ring.capacity, ops);
  }
}
