/**
  The ring under the codec, `el::ring_fast` (fdlib/fd/ring.h).

  `Fifo` is what the ring means: its capacity, the index of its oldest element and
  the elements themselves. `RingFast` is the ring as written, and every method is
  proved to do to `View()` what the corresponding `Fifo` function says, including
  what `PushFast` does to a full ring.
*/
module Ring {
  import opened Words
  import opened BoundedQueue

  datatype Fifo<T> = Fifo(cap: nat, tail: nat, items: seq<T>)
  {
    predicate WellFormed() {
      tail < cap <= 0x8000 && |items| < cap
    }

    function Head(): nat
      requires WellFormed()
    {
      And(tail + |items|, cap)
    }

    function Free(): nat
      requires WellFormed()
    {
      cap - 1 - |items|
    }

    /** `push`: refused when full. */
    function Push(x: T): (Fifo<T>, bool)
      requires WellFormed()
    {
      if |items| == cap - 1 then (this, false) else (this.(items := items + [x]), true)
    }

    /** `pushFast`: on a full ring the head catches up with the tail and everything unread is lost. */
    function PushFast(x: T): Fifo<T>
      requires WellFormed()
    {
      this.(items := if |items| == cap - 1 then [] else items + [x])
    }

    function PushAll(xs: seq<T>): (f: Fifo<T>)
      requires WellFormed()
      ensures f.WellFormed() && f.cap == cap && f.tail == tail
      decreases |xs|
    {
      if xs == [] then this else PushFast(xs[0]).PushAll(xs[1..])
    }

    function Drop(n: nat): (f: Fifo<T>)
      requires WellFormed() && n <= |items|
      ensures f.WellFormed()
    {
      Fifo(cap, And(tail + n, cap), items[n..])
    }

    /** `(idx - tail) & mask`, meaningful when it names an unread element. */
    function Distance(idx: nat): nat
      requires WellFormed() && idx < cap
    {
      And(idx - tail, cap)
    }
  }

  /** The elements as a queue that leaves one slot free. */
  function Queued<T>(f: Fifo<T>): Queue<T>
    requires f.WellFormed()
  {
    Queue(f.cap - 1, f.items)
  }

  /** `push` puts one element, if there is room. */
  lemma PushIsPut<T>(f: Fifo<T>, x: T)
    requires f.WellFormed()
    ensures f.Push(x).0.WellFormed() && Queued(f.Push(x).0) == Queued(f).Put([x])
      && f.Push(x).1 == (Queued(f).Room() > 0)
  {
    assert [x][..1] == [x];
    EmptyRight(f.items);
  }

  /** Dropping elements gets them from the front. */
  lemma DropIsGet<T>(f: Fifo<T>, n: nat)
    requires f.WellFormed() && n <= |f.items|
    ensures Queued(f.Drop(n)) == Queued(f).Get(n)
  {
  }

  lemma {:induction false} PushAllSnoc<T>(f: Fifo<T>, xs: seq<T>, x: T)
    requires f.WellFormed()
    ensures f.PushAll(xs + [x]) == f.PushAll(xs).PushFast(x)
    decreases |xs|
  {
    if xs == [] {
      assert xs + [x] == [x] && [x][1..] == [];
    } else {
      assert (xs + [x])[0] == xs[0] && (xs + [x])[1..] == xs[1..] + [x];
      PushAllSnoc(f.PushFast(xs[0]), xs[1..], x);
    }
  }

  lemma {:induction false} PushAllConcat<T>(f: Fifo<T>, xs: seq<T>, ys: seq<T>)
    requires f.WellFormed()
    ensures f.PushAll(xs + ys) == f.PushAll(xs).PushAll(ys)
    decreases |xs|
  {
    if xs == [] {
      assert xs + ys == ys;
    } else {
      assert (xs + ys)[0] == xs[0] && (xs + ys)[1..] == xs[1..] + ys;
      PushAllConcat(f.PushFast(xs[0]), xs[1..], ys);
    }
  }

  /** With room for all of them, unchecked pushes lose nothing. */
  lemma {:induction false} PushAllFits<T>(f: Fifo<T>, xs: seq<T>)
    requires f.WellFormed() && |xs| <= f.Free()
    ensures f.PushAll(xs) == f.(items := f.items + xs)
    decreases |xs|
  {
    if xs == [] {
      assert f.items + xs == f.items;
    } else {
      var g := f.PushFast(xs[0]);
      PushAllFits(g, xs[1..]);
      assert g.items + xs[1..] == f.items + xs;
    }
  }

  /**
    `x & mask_` for the arguments the ring gives it: an index that may have run past
    the end once, or a difference of two indices.
  */
  function And(x: int, cap: nat): (r: nat)
    requires -(cap as int) <= x < 2 * cap
    ensures r < cap
  {
    if x < 0 then x + cap else if x < cap then x else x - cap
  }

  /** That is the remainder modulo the capacity: the bit mask of a power of two. */
  lemma AndIsModulo(x: int, cap: nat)
    requires -(cap as int) <= x < 2 * cap
    ensures And(x, cap) == x % cap
  {
    var q := if x < 0 then -1 else if x < cap then 0 else 1;
    assert x == q * cap + And(x, cap);
    assert x / cap == q;
  }

  class RingFast<T> {
    const buffer: array<T>
    const capacity: nat
    const mask: nat
    var head: u16
    var tail: u16

    ghost predicate Valid()
      reads this
    {
      && buffer.Length == capacity
      && 0 < capacity <= 0x8000
      && mask == capacity - 1
      && head < capacity && tail < capacity
    }

    ghost function View(): (f: Fifo<T>)
      requires Valid()
      reads this, buffer
      ensures f.WellFormed()
    {
      Fifo(capacity, tail, if tail <= head then buffer[tail..head] else buffer[tail..] + buffer[..head])
    }

    /** The source asserts that the size is a power of two, at most 32768. */
    constructor (storage: array<T>)
      requires 0 < storage.Length <= 0x8000
      ensures Valid() && buffer == storage && View() == Fifo(storage.Length, 0, [])
    {
      buffer := storage;
      capacity := storage.Length;
      mask := storage.Length - 1;
      head, tail := 0, 0;
    }

    function Size(): (n: u16)
      requires Valid()
      reads this, buffer
      ensures n == |View().items|
    {
      And(head - tail, mask + 1)
    }

    function Free(): (n: u16)
      requires Valid()
      reads this, buffer
      ensures n == View().Free()
    {
      capacity - 1 - Size()
    }

    lemma HeadOfView()
      requires Valid()
      ensures head == View().Head()
    {
    }

    method Push(item: T) returns (ok: bool)
      requires Valid()
      modifies this, buffer
      ensures Valid()
      ensures (View(), ok) == old(View()).Push(item)
    {
      var next := And(head + 1, mask + 1);
      if next == tail { return false; }
      ghost var was := View().items;
      buffer[head] := item;
      head := next;
      assert View().items == was + [item];
      return true;
    }

    method PushFast(item: T)
      requires Valid()
      modifies this, buffer
      ensures Valid()
      ensures View() == old(View()).PushFast(item)
    {
      buffer[head] := item;
      head := And(head + 1, mask + 1);
    }

    method Pop() returns (item: Option<T>)
      requires Valid()
      modifies this
      ensures Valid()
      ensures if old(View()).items == [] then item == None && View() == old(View())
              else item == Some(old(View()).items[0]) && View() == old(View()).Drop(1)
    {
      if head == tail { return None; }
      item := Some(buffer[tail]);
      tail := And(tail + 1, mask + 1);
    }

    method Peek() returns (item: Option<T>)
      requires Valid()
      ensures item == if View().items == [] then None else Some(View().items[0])
    {
      if head == tail { return None; }
      return Some(buffer[tail]);
    }

    /** None stands for the `false` return, which leaves the out-parameter as it was. */
    method DistanceFromTail(idx: u16) returns (distance: Option<u16>)
      requires Valid()
      ensures distance == if idx < capacity && View().Distance(idx) < |View().items|
                          then Some(View().Distance(idx)) else None
    {
      if idx >= capacity { return None; }
      var d := And(idx - tail, mask + 1);
      if d >= Size() { return None; }
      return Some(d);
    }

    /** The two contiguous runs of unread elements: where each starts and how long it is. */
    method ReadReserve() returns (ok: bool, at1: u16, cont1: u16, at2: u16, cont2: u16)
      requires Valid()
      ensures ok == (View().items != [])
      ensures at1 + cont1 <= buffer.Length && at2 + cont2 <= buffer.Length
      ensures cont1 + cont2 == |View().items|
      ensures forall i :: 0 <= i < cont1 + cont2 ==>
        View().items[i] == buffer[if i < cont1 then at1 + i else at2 + (i - cont1)]
    {
      var cnt := Size();
      if cnt == 0 { return false, 0, 0, 0, 0; }
      var contSpace := if tail >= head then capacity - tail else head - tail;
      if contSpace >= cnt {
        return true, tail, cnt, 0, 0;
      } else {
        return true, tail, contSpace, 0, cnt - contSpace;
      }
    }

    method ReadCommit(count: u16)
      requires Valid() && count <= |View().items|
      modifies this
      ensures Valid() && View() == old(View()).Drop(count)
    {
      tail := And(tail + count, mask + 1);
    }

    method Clear()
      requires Valid()
      modifies this
      ensures Valid() && View() == Fifo(capacity, 0, [])
    {
      head, tail := 0, 0;
    }
  }
}
