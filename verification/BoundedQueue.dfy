/**
  First in, first out, with a limit: what the three rings of the repository have in common.

  `Put` accepts the longest prefix that fits and `Get` takes the longest prefix there is.
  `InOrder` is the law of any run of them; the modules of the rings show that theirs are
  such queues (`Ring.PushIsPut`, `FdRing.StepIsQueue`, `HostRing.Drive`).
*/
module BoundedQueue {
  import opened Words

  datatype Queue<T> = Queue(limit: nat, items: seq<T>)
  {
    predicate WellFormed() {
      |items| <= limit
    }

    function Room(): nat
      requires WellFormed()
    {
      limit - |items|
    }

    function Put(xs: seq<T>): (q: Queue<T>)
      requires WellFormed()
      ensures q.WellFormed() && q.limit == limit
    {
      Queue(limit, items + xs[..Min(|xs|, Room())])
    }

    function Get(n: nat): (q: Queue<T>)
      requires WellFormed()
      ensures q.WellFormed() && q.limit == limit
    {
      Queue(limit, items[Min(n, |items|)..])
    }
  }

  datatype Op<T> = PutOp(xs: seq<T>) | GetOp(n: nat) | ClearOp

  /** The queue, and what was accepted and delivered since it was last cleared. */
  datatype Traffic<T> = Traffic(queue: Queue<T>, accepted: seq<T>, delivered: seq<T>)

  function After<T>(t: Traffic<T>, op: Op<T>): (u: Traffic<T>)
    requires t.queue.WellFormed()
    ensures u.queue.WellFormed() && u.queue.limit == t.queue.limit
  {
    match op
    case PutOp(xs) => Traffic(t.queue.Put(xs), t.accepted + xs[..Min(|xs|, t.queue.Room())], t.delivered)
    case GetOp(n) => Traffic(t.queue.Get(n), t.accepted, t.delivered + t.queue.items[..Min(n, |t.queue.items|)])
    case ClearOp => Traffic(Queue(t.queue.limit, []), [], [])
  }

  function Run<T>(limit: nat, ops: seq<Op<T>>): (t: Traffic<T>)
    ensures t.queue.WellFormed() && t.queue.limit == limit
    decreases |ops|
  {
    if ops == [] then Traffic(Queue(limit, []), [], []) else After(Run(limit, ops[..|ops| - 1]), ops[|ops| - 1])
  }

  ghost predicate Conserved<T>(t: Traffic<T>) {
    t.accepted == t.delivered + t.queue.items
  }

  lemma AfterConserved<T>(t: Traffic<T>, op: Op<T>)
    requires t.queue.WellFormed() && Conserved(t)
    ensures Conserved(After(t, op))
  {
    var items := t.queue.items;
    match op
    case PutOp(xs) => Associate(t.delivered, items, xs[..Min(|xs|, t.queue.Room())]);
    case GetOp(n) =>
      var k := Min(n, |items|);
      assert items == items[..k] + items[k..];
      Associate(t.delivered, items[..k], items[k..]);
    case ClearOp =>
  }

  /** In every run what was delivered, followed by what is still held, is what was accepted, in order. */
  lemma {:induction false} InOrder<T>(limit: nat, ops: seq<Op<T>>)
    ensures Conserved(Run(limit, ops))
    decreases |ops|
  {
    if ops != [] {
      InOrder(limit, ops[..|ops| - 1]);
      AfterConserved(Run(limit, ops[..|ops| - 1]), ops[|ops| - 1]);
    } else {
      assert Run<T>(limit, []) == Traffic(Queue(limit, []), [], []);
    }
  }
}
