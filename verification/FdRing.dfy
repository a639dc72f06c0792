/**
  `fd_ring_t` (fdlib/fd/fd_ring.h) between one producer and one consumer.

  The indices are volatile and re-read several times inside one call, so the two sides
  interleave access by access: every read or write of `head` or `tail`, every byte
  stored and every byte loaded is one step of `Step`. The free-standing arithmetic of
  the calls happens within those steps, in the widths of the source, so that
  `tail - head - 1` and `head - tail` may wrap in `uint16_t`.

  `Always` is the safety of every interleaving: granted spans lie in the buffer, are
  disjoint, total the count requested (or measured, by the reader), the producer's never touch an unread byte, the
  consumer's are unread bytes only, and what is received is what was sent, in order.
*/
module FdRing {
  import opened Words
  import opened BoundedQueue

  function ToU16(x: int): u16 {
    x % 0x1_0000
  }

  /** One index step around the ring, as the commits compute it. */
  function Forward(p: nat, n: nat, cap: nat): (q: nat)
    requires p < cap && n <= cap
    ensures q < cap || cap == 0
  {
    p + n - (if p + n >= cap then cap else 0)
  }

  /** fd_ring_size on the two values it read. */
  function SizeOf(head: nat, tail: nat, cap: nat): int {
    if head >= tail then head - tail else cap - tail + head
  }

  /** The two spans a reserve call returns; the second is empty when `at2` is NULL. */
  datatype Spans = Spans(at1: nat, cont1: nat, at2: nat, cont2: nat)
  {
    function Total(): nat {
      cont1 + cont2
    }

    /** The buffer index of byte k. */
    function At(k: nat): nat {
      if k < cont1 then at1 + k else at2 + (k - cont1)
    }
  }

  /** The tail of both reserve calls, once the contiguous space is known. */
  function MakeSpans(at: nat, space: u16, count: u16): Spans {
    if space >= count then Spans(at, count, 0, 0) else Spans(at, space, 0, count - space)
  }

  /** Where the producer stands; the name says which access comes next. */
  datatype Producer =
    | PIdle
    | PSizeHead(count: u16)                            // fd_ring_free: head
    | PSizeTail(count: u16, h: u16)                    //               tail, and the test of count
    | PCompareHead(count: u16)                         // head >= tail: head
    | PCompareTail(count: u16, h: u16)                 //               tail
    | PSpaceHead(count: u16, ge: bool)                 // cont_space:   head
    | PSpaceTail(count: u16, ge: bool, h: u16)         //               tail
    | PPointer(count: u16, space: u16)                 // writeptr1:    head
    | PGranted(count: u16, spans: Spans, written: seq<byte>) // storing bytes into the spans
    | PCommitRead(n: u16, written: seq<byte>)          // write_commit: head
    | PCommitWrite(n: u16, h: u16, written: seq<byte>) //               head = ...

  datatype Consumer =
    | CIdle
    | CSizeHead(again: bool)
    | CSizeTail(again: bool, h: u16)
    | CCompareTail(count: u16)
    | CCompareHead(count: u16, t: u16)
    | CSpaceFirst(count: u16, ge: bool)
    | CSpaceTail(count: u16, h: u16)
    | CPointer(count: u16, space: u16)
    | CGranted(count: u16, spans: Spans, got: seq<byte>)
    | CCommitRead(n: u16, got: seq<byte>)
    | CCommitWrite(n: u16, t: u16, got: seq<byte>)

  /** The ring, the two sides, and three histories: bytes committed, bytes released, and those in between. */
  datatype State = State(
    cap: u16, buf: seq<byte>, head: u16, tail: u16, prod: Producer, cons: Consumer,
    sent: seq<byte>, received: seq<byte>, unread: seq<byte>)

  datatype Action =
    | Reserve(count: u16)   // producer calls write_reserve
    | Store(b: byte)        // producer stores the next byte of its spans
    | Commit(n: u16)        // producer calls write_commit
    | PNext                 // producer's next access
    | Acquire               // consumer calls read_reserve
    | Load                  // consumer loads the next byte of its spans
    | Release(n: u16)       // consumer calls read_commit
    | CNext                 // consumer's next access

  /** The producer's next access when it only reads. */
  function ProducerReads(s: State): Producer
    requires s.cap > 0
  {
    match s.prod
    case PSizeHead(count) => PSizeTail(count, s.head)
    case PSizeTail(count, h) =>
      var free := ToU16(s.cap - ToU16(SizeOf(h, s.tail, s.cap)) - 1);
      if count > free then PIdle else PCompareHead(count)
    case PCompareHead(count) => PCompareTail(count, s.head)
    case PCompareTail(count, h) => PSpaceHead(count, h >= s.tail)
    case PSpaceHead(count, ge) => PSpaceTail(count, ge, s.head)
    case PSpaceTail(count, ge, h) =>
      PPointer(count, if ge then ToU16(s.cap - h - (if s.tail == 0 then 1 else 0)) else ToU16(s.tail - h - 1))
    case PPointer(count, space) => PGranted(count, MakeSpans(s.head, space, count), [])
    case PCommitRead(n, written) => PCommitWrite(n, s.head, written)
    case _ => s.prod
  }

  function ProducerStep(s: State): State
    requires s.cap > 0
  {
    match s.prod
    case PCommitWrite(n, h, written) =>
      if n <= |written| && n <= s.cap && h < s.cap then
        s.(prod := PIdle, head := Forward(h, n, s.cap), sent := s.sent + written[..n],
          unread := s.unread + written[..n])
      else s
    case _ => s.(prod := ProducerReads(s))
  }

  /** The consumer's next access when it only reads. */
  function ConsumerReads(s: State): Consumer
    requires s.cap > 0 && s.tail < s.cap
  {
    match s.cons
    case CSizeHead(again) => CSizeTail(again, s.head)
    case CSizeTail(again, h) =>
      var size := ToU16(SizeOf(h, s.tail, s.cap));
      if again then CCompareTail(size) else if size == 0 then CIdle else CSizeHead(true)
    case CCompareTail(count) => CCompareHead(count, s.tail)
    case CCompareHead(count, t) => CSpaceFirst(count, t >= s.head)
    case CSpaceFirst(count, ge) => if ge then CPointer(count, s.cap - s.tail) else CSpaceTail(count, s.head)
    case CSpaceTail(count, h) => CPointer(count, ToU16(h - s.tail))
    case CPointer(count, space) => CGranted(count, MakeSpans(s.tail, space, count), [])
    case CCommitRead(n, got) => CCommitWrite(n, s.tail, got)
    case _ => s.cons
  }

  function ConsumerStep(s: State): State
    requires s.cap > 0 && s.tail < s.cap
  {
    match s.cons
    case CCommitWrite(n, t, got) =>
      if n <= |got| && n <= |s.unread| && n <= s.cap && t < s.cap then
        s.(cons := CIdle, tail := Forward(t, n, s.cap), received := s.received + got[..n], unread := s.unread[n..])
      else s
    case _ => s.(cons := ConsumerReads(s))
  }

  /** An action that is not enabled leaves the state alone. */
  function Step(s: State, a: Action): State
    requires s.cap > 0 && s.head < s.cap && s.tail < s.cap && |s.buf| == s.cap
  {
    match a
    case Reserve(count) => if s.prod.PIdle? then s.(prod := PSizeHead(count)) else s
    case Store(b) =>
      if s.prod.PGranted? && |s.prod.written| < s.prod.spans.Total() && s.prod.spans.At(|s.prod.written|) < |s.buf| then
        s.(buf := s.buf[s.prod.spans.At(|s.prod.written|) := b],
           prod := PGranted(s.prod.count, s.prod.spans, s.prod.written + [b]))
      else s
    case Commit(n) =>
      if s.prod.PGranted? && n <= |s.prod.written| then s.(prod := PCommitRead(n, s.prod.written)) else s
    case PNext => ProducerStep(s)
    case Acquire => if s.cons.CIdle? then s.(cons := CSizeHead(false)) else s
    case Load =>
      if s.cons.CGranted? && |s.cons.got| < s.cons.spans.Total() && s.cons.spans.At(|s.cons.got|) < |s.buf| then
        s.(cons := CGranted(s.cons.count, s.cons.spans, s.cons.got + [s.buf[s.cons.spans.At(|s.cons.got|)]]))
      else s
    case Release(n) =>
      if s.cons.CGranted? && n <= |s.cons.got| then s.(cons := CCommitRead(n, s.cons.got)) else s
    case CNext => ConsumerStep(s)
  }

  // ---------- the invariant ----------

  /** Both indices in range, `unread` bytes between them, and those bytes in the buffer. */
  ghost predicate RingOk(s: State) {
    && s.cap > 0 && |s.buf| == s.cap && s.head < s.cap && s.tail < s.cap
    && |s.unread| < s.cap
    && s.head == Forward(s.tail, |s.unread|, s.cap)
    && (forall i :: 0 <= i < |s.unread| ==> s.buf[Forward(s.tail, i, s.cap)] == s.unread[i])
    && s.sent == s.received + s.unread
  }

  /** Spans that run around the ring from `from` for `count` bytes. */
  ghost predicate SpansFrom(p: Spans, from: nat, count: nat, cap: nat) {
    && p.at1 == from && p.at2 == 0 && p.Total() == count && from + p.cont1 <= cap
    && (p.cont2 > 0 ==> p.cont1 == cap - from)
  }

  /** Bytes already stored ahead of `head`, out of the way of the unread ones. */
  ghost predicate Ahead(s: State, written: seq<byte>)
    requires RingOk(s)
  {
    && |written| + |s.unread| < s.cap
    && forall k :: 0 <= k < |written| ==> s.buf[Forward(s.head, k, s.cap)] == written[k]
  }

  ghost predicate Space(s: State, count: u16, space: u16)
    requires RingOk(s)
  {
    if space >= count then s.head + count <= s.cap else space == s.cap - s.head
  }

  ghost predicate ProducerOk(s: State)
    requires RingOk(s)
  {
    match s.prod
    case PIdle => true
    case PSizeHead(_) => true
    case PSizeTail(_, h) => h == s.head
    case PCompareHead(count) => count + |s.unread| < s.cap
    case PCompareTail(count, h) => h == s.head && count + |s.unread| < s.cap
    case PSpaceHead(count, ge) => SpaceBranch(s, count, ge)
    case PSpaceTail(count, ge, h) => h == s.head && SpaceBranch(s, count, ge)
    case PPointer(count, space) => count + |s.unread| < s.cap && Space(s, count, space)
    case PGranted(count, spans, written) =>
      && SpansFrom(spans, s.head, count, s.cap) && count + |s.unread| < s.cap
      && |written| <= spans.Total() && Ahead(s, written)
    case PCommitRead(n, written) => n <= |written| && Ahead(s, written)
    case PCommitWrite(n, h, written) => h == s.head && n <= |written| && Ahead(s, written)
  }

  /** What the comparison established stays true while the consumer moves `tail` towards `head`. */
  ghost predicate SpaceBranch(s: State, count: u16, ge: bool)
    requires RingOk(s)
  {
    && count + |s.unread| < s.cap
    && if ge then |s.unread| <= s.head else s.head + count < s.cap - 1
  }

  ghost predicate ConsumerOk(s: State)
    requires RingOk(s)
  {
    match s.cons
    case CIdle => true
    case CSizeHead(again) => again ==> 1 <= |s.unread|
    case CSizeTail(again, h) =>
      && h < s.cap && SizeOf(h, s.tail, s.cap) <= |s.unread|
      && (again ==> 1 <= SizeOf(h, s.tail, s.cap))
    case CCompareTail(count) => 1 <= count <= |s.unread|
    case CCompareHead(count, t) => t == s.tail && 1 <= count <= |s.unread|
    case CSpaceFirst(count, ge) => 1 <= count <= |s.unread| && (!ge ==> s.tail + count < s.cap)
    case CSpaceTail(count, h) =>
      1 <= count <= |s.unread| && s.tail + count < s.cap && h < s.cap && count <= SizeOf(h, s.tail, s.cap)
    case CPointer(count, space) =>
      1 <= count <= |s.unread| && if space >= count then s.tail + count <= s.cap else space == s.cap - s.tail
    case CGranted(count, spans, got) =>
      && SpansFrom(spans, s.tail, count, s.cap) && 1 <= count <= |s.unread|
      && |got| <= spans.Total() && got <= s.unread
    case CCommitRead(n, got) => n <= |got| && got <= s.unread
    case CCommitWrite(n, t, got) => t == s.tail && n <= |got| && got <= s.unread
  }

  ghost predicate Inv(s: State) {
    RingOk(s) && ProducerOk(s) && ConsumerOk(s)
  }

  // ---------- what the invariant promises ----------

  /** Buffer index i is one of the unread bytes. */
  ghost predicate IsUnread(s: State, i: nat)
    requires RingOk(s)
  {
    exists k :: 0 <= k < |s.unread| && Forward(s.tail, k, s.cap) == i
  }

  ghost predicate Within(p: Spans, i: nat) {
    p.at1 <= i < p.at1 + p.cont1 || p.at2 <= i < p.at2 + p.cont2
  }

  ghost predicate InBuffer(p: Spans, cap: nat) {
    p.at1 + p.cont1 <= cap && p.at2 + p.cont2 <= cap
  }

  ghost predicate Disjoint(p: Spans) {
    p.cont1 == 0 || p.cont2 == 0 || p.at1 + p.cont1 <= p.at2 || p.at2 + p.cont2 <= p.at1
  }

  ghost predicate Safe(s: State) {
    && RingOk(s)
    && (s.prod.PGranted? ==>
          && InBuffer(s.prod.spans, s.cap) && Disjoint(s.prod.spans) && s.prod.spans.Total() == s.prod.count
          && forall i :: 0 <= i < s.cap && Within(s.prod.spans, i) ==> !IsUnread(s, i))
    && (s.cons.CGranted? ==>
          && InBuffer(s.cons.spans, s.cap) && Disjoint(s.cons.spans) && s.cons.spans.Total() == s.cons.count >= 1
          && (forall i :: 0 <= i < s.cap && Within(s.cons.spans, i) ==> IsUnread(s, i))
          && s.cons.got <= s.unread)
    && s.sent == s.received + s.unread
  }

  /** Byte k of spans that run around the ring is k steps from their start, and every index in them is such a byte. */
  lemma SpansAt(p: Spans, from: nat, count: nat, cap: nat, k: nat)
    requires SpansFrom(p, from, count, cap) && from < cap && count < cap && k < count
    ensures p.At(k) == Forward(from, k, cap)
  {
  }

  lemma SpansIndex(p: Spans, from: nat, count: nat, cap: nat, i: nat) returns (k: nat)
    requires SpansFrom(p, from, count, cap) && from < cap && count < cap && Within(p, i)
    ensures k < count && Forward(from, k, cap) == i
  {
    k := if p.at1 <= i < p.at1 + p.cont1 then i - p.at1 else i + p.cont1;
  }

  lemma ForwardDisjoint(tail: nat, n: nat, k: nat, j: nat, cap: nat)
    requires tail < cap && n < cap && k < n && n + j < cap
    ensures Forward(tail, k, cap) != Forward(Forward(tail, n, cap), j, cap)
  {
  }

  lemma InvIsSafe(s: State)
    requires Inv(s)
    ensures Safe(s)
  {
    if s.prod.PGranted? {
      var p := s.prod.spans;
      forall i | 0 <= i < s.cap && Within(p, i)
        ensures !IsUnread(s, i)
      {
        var j := SpansIndex(p, s.head, p.Total(), s.cap, i);
        forall k | 0 <= k < |s.unread|
          ensures Forward(s.tail, k, s.cap) != i
        {
          ForwardDisjoint(s.tail, |s.unread|, k, j, s.cap);
        }
      }
    }
    if s.cons.CGranted? {
      var p := s.cons.spans;
      forall i | 0 <= i < s.cap && Within(p, i)
        ensures IsUnread(s, i)
      {
        var k := SpansIndex(p, s.tail, p.Total(), s.cap, i);
      }
    }
  }

  // ---------- every step keeps the invariant ----------

  /** A side that only moves on in its own code disturbs neither the ring nor the other side. */
  lemma ProducerMoves(s: State, p: Producer)
    requires Inv(s)
    ensures RingOk(s.(prod := p)) && ConsumerOk(s.(prod := p))
  {
  }

  lemma ConsumerMoves(s: State, c: Consumer)
    requires Inv(s)
    ensures RingOk(s.(cons := c)) && ProducerOk(s.(cons := c))
  {
  }

  /** fd_ring_free: what was free when `tail` was read is free. */
  lemma FreeIsFree(s: State, count: u16)
    requires RingOk(s)
    ensures SizeOf(s.head, s.tail, s.cap) == |s.unread|
    ensures ToU16(s.cap - ToU16(SizeOf(s.head, s.tail, s.cap)) - 1) == s.cap - 1 - |s.unread|
  {
  }

  lemma BranchTaken(s: State, count: u16)
    requires RingOk(s) && count + |s.unread| < s.cap
    ensures SpaceBranch(s, count, s.head >= s.tail)
  {
  }

  /** The contiguous space, although `tail` has moved since the comparison, and although the difference may wrap. */
  lemma SpaceComputed(s: State, count: u16, ge: bool)
    requires RingOk(s) && SpaceBranch(s, count, ge)
    ensures Space(s, count,
      if ge then ToU16(s.cap - s.head - (if s.tail == 0 then 1 else 0)) else ToU16(s.tail - s.head - 1))
  {
    if !ge && s.tail < s.head + 1 {
      assert ToU16(s.tail - s.head - 1) == s.tail - s.head - 1 + 0x1_0000;
    }
  }

  lemma PointerOk(s: State)
    requires RingOk(s) && ProducerOk(s) && s.prod.PPointer?
    ensures ProducerOk(s.(prod := ProducerReads(s)))
  {
    SpansGranted(s.head, s.prod.space, s.prod.count, s.cap);
  }

  lemma MeasureOk(s: State)
    requires RingOk(s) && ProducerOk(s)
      && (s.prod.PSizeHead? || s.prod.PSizeTail? || s.prod.PCompareHead? || s.prod.PCompareTail?)
    ensures ProducerOk(s.(prod := ProducerReads(s)))
  {
    if s.prod.PSizeTail? {
      FreeIsFree(s, s.prod.count);
    } else if s.prod.PCompareTail? {
      BranchTaken(s, s.prod.count);
    }
  }

  lemma SpaceOk(s: State)
    requires RingOk(s) && ProducerOk(s) && (s.prod.PSpaceHead? || s.prod.PSpaceTail?)
    ensures ProducerOk(s.(prod := ProducerReads(s)))
  {
    if s.prod.PSpaceTail? {
      SpaceComputed(s, s.prod.count, s.prod.ge);
    }
  }

  lemma ProducerReadsOk(s: State)
    requires Inv(s) && RingOk(s.(prod := ProducerReads(s)))
    ensures !s.prod.PCommitWrite? ==> ProducerOk(s.(prod := ProducerReads(s)))
  {
    if s.prod.PSizeHead? || s.prod.PSizeTail? || s.prod.PCompareHead? || s.prod.PCompareTail? {
      MeasureOk(s);
    } else if s.prod.PSpaceHead? || s.prod.PSpaceTail? {
      SpaceOk(s);
    } else if s.prod.PPointer? {
      PointerOk(s);
    }
  }

  lemma SpansGranted(at: nat, space: u16, count: u16, cap: u16)
    requires at < cap && if space >= count then at + count <= cap else space == cap - at
    ensures SpansFrom(MakeSpans(at, space, count), at, count, cap)
  {
  }

  /** fd_ring_size as the consumer computes it from a `head` it read earlier. */
  lemma SizeIsThere(s: State)
    requires RingOk(s)
    ensures SizeOf(s.head, s.tail, s.cap) == |s.unread|
  {
  }

  lemma ConsumerBranch(s: State, count: u16)
    requires RingOk(s) && 1 <= count <= |s.unread|
    ensures s.tail < s.head ==> s.tail + count < s.cap
  {
  }

  lemma ConsumerSpace(tail: u16, h: u16, count: u16, cap: u16)
    requires tail < cap && h < cap && 1 <= count && tail + count < cap && count <= SizeOf(h, tail, cap)
    ensures ToU16(h - tail) >= count
  {
    if h < tail {
      assert ToU16(h - tail) == h - tail + 0x1_0000;
    }
  }

  lemma ReadPointerOk(s: State)
    requires RingOk(s) && ConsumerOk(s) && s.cons.CPointer?
    ensures ConsumerOk(s.(cons := ConsumerReads(s)))
  {
    SpansGranted(s.tail, s.cons.space, s.cons.count, s.cap);
  }

  lemma CountOk(s: State)
    requires RingOk(s) && ConsumerOk(s)
      && (s.cons.CSizeHead? || s.cons.CSizeTail? || s.cons.CCompareTail? || s.cons.CCompareHead?)
    ensures ConsumerOk(s.(cons := ConsumerReads(s)))
  {
    if s.cons.CSizeHead? {
      SizeIsThere(s);
    } else if s.cons.CCompareHead? {
      ConsumerBranch(s, s.cons.count);
    }
  }

  lemma RunOk(s: State)
    requires RingOk(s) && ConsumerOk(s) && (s.cons.CSpaceFirst? || s.cons.CSpaceTail?)
    ensures ConsumerOk(s.(cons := ConsumerReads(s)))
  {
    if s.cons.CSpaceFirst? {
      SizeIsThere(s);
    } else {
      ConsumerSpace(s.tail, s.cons.h, s.cons.count, s.cap);
    }
  }

  lemma ConsumerReadsOk(s: State)
    requires Inv(s) && RingOk(s.(cons := ConsumerReads(s)))
    ensures !s.cons.CCommitWrite? ==> ConsumerOk(s.(cons := ConsumerReads(s)))
  {
    if s.cons.CSizeHead? || s.cons.CSizeTail? || s.cons.CCompareTail? || s.cons.CCompareHead? {
      CountOk(s);
    } else if s.cons.CSpaceFirst? || s.cons.CSpaceTail? {
      RunOk(s);
    } else if s.cons.CPointer? {
      ReadPointerOk(s);
    }
  }

  // ---------- bytes stored, indices published ----------

  /** A store lands ahead of head: no unread byte and no earlier stored byte changes. */
  lemma StoreKeeps(s: State, b: byte)
    requires Inv(s) && s.prod.PGranted? && |s.prod.written| < s.prod.spans.Total()
    ensures s.prod.spans.At(|s.prod.written|) < |s.buf|
    ensures Inv(Step(s, Store(b)))
  {
    var p, k := s.prod.spans, |s.prod.written|;
    SpansAt(p, s.head, p.Total(), s.cap, k);
    var t := Step(s, Store(b));
    forall i | 0 <= i < |s.unread|
      ensures t.buf[Forward(s.tail, i, s.cap)] == s.unread[i]
    {
      ForwardDisjoint(s.tail, |s.unread|, i, k, s.cap);
    }
    forall j | 0 <= j < |t.prod.written|
      ensures t.buf[Forward(s.head, j, s.cap)] == t.prod.written[j]
    {
      if j < k { ForwardInjective(s.head, j, k, s.cap); }
    }
    ConsumerMoves(s, s.cons);
  }

  lemma ForwardInjective(p: nat, j: nat, k: nat, cap: nat)
    requires p < cap && j < k < cap
    ensures Forward(p, j, cap) != Forward(p, k, cap)
  {
  }

  lemma ForwardTwice(p: nat, m: nat, n: nat, cap: nat)
    requires p < cap && m + n < cap
    ensures Forward(Forward(p, m, cap), n, cap) == Forward(p, m + n, cap)
  {
  }

  /** A load returns the unread byte it stands for. */
  lemma LoadKeeps(s: State)
    requires Inv(s) && s.cons.CGranted? && |s.cons.got| < s.cons.spans.Total()
    ensures s.cons.spans.At(|s.cons.got|) < |s.buf|
    ensures Inv(Step(s, Load))
  {
    var p, k := s.cons.spans, |s.cons.got|;
    SpansAt(p, s.tail, p.Total(), s.cap, k);
    var c := Step(s, Load).cons;
    assert c.got == s.cons.got + [s.unread[k]] <= s.unread;
    ConsumerMoves(s, c);
  }

  /** Publishing `head`: the bytes stored become unread. */
  lemma CommitKeeps(s: State)
    requires Inv(s) && s.prod.PCommitWrite?
    ensures Inv(ProducerStep(s))
  {
    var (n, written) := (s.prod.n, s.prod.written);
    var t := ProducerStep(s);
    ForwardTwice(s.tail, |s.unread|, n, s.cap);
    forall i | 0 <= i < |t.unread|
      ensures t.buf[Forward(t.tail, i, t.cap)] == t.unread[i]
    {
      if i >= |s.unread| {
        ForwardTwice(s.tail, |s.unread|, i - |s.unread|, s.cap);
      }
    }
    Associate(s.received, s.unread, written[..n]);
    CommitSeenByConsumer(s, t);
  }

  /** A head that moves on, with more unread bytes, leaves every consumer state right. */
  lemma CommitSeenByConsumer(s: State, t: State)
    requires Inv(s) && RingOk(t) && t.cons == s.cons && t.tail == s.tail && t.cap == s.cap && s.unread <= t.unread
    ensures ConsumerOk(t)
  {
  }

  /** Publishing `tail`: the bytes loaded are received. */
  lemma ReleaseKeeps(s: State)
    requires Inv(s) && s.cons.CCommitWrite?
    ensures Inv(ConsumerStep(s))
  {
    var (n, got) := (s.cons.n, s.cons.got);
    var t := ConsumerStep(s);
    ForwardTwice(s.tail, n, |s.unread| - n, s.cap);
    forall i | 0 <= i < |t.unread|
      ensures t.buf[Forward(t.tail, i, t.cap)] == t.unread[i]
    {
      ForwardTwice(s.tail, n, i, s.cap);
    }
    assert s.unread == got[..n] + s.unread[n..];
    Associate(s.received, got[..n], s.unread[n..]);
    ReleaseSeenByProducer(s, t);
  }

  /** A tail that moves on, with fewer unread bytes, leaves every producer state right. */
  lemma ReleaseSeenByProducer(s: State, t: State)
    requires Inv(s) && RingOk(t) && t.prod == s.prod && t.head == s.head && t.cap == s.cap && t.buf == s.buf
      && |t.unread| <= |s.unread|
    ensures ProducerOk(t)
  {
  }

  lemma StepKeeps(s: State, a: Action)
    requires Inv(s)
    ensures Inv(Step(s, a))
  {
    match a {
      case Reserve(_) => ProducerMoves(s, Step(s, a).prod);
      case Store(b) => if s.prod.PGranted? && |s.prod.written| < s.prod.spans.Total() { StoreKeeps(s, b); }
      case Commit(_) => ProducerMoves(s, Step(s, a).prod);
      case PNext =>
        if s.prod.PCommitWrite? {
          CommitKeeps(s);
        } else {
          ProducerMoves(s, ProducerReads(s));
          ProducerReadsOk(s);
        }
      case Acquire => ConsumerMoves(s, Step(s, a).cons);
      case Load => if s.cons.CGranted? && |s.cons.got| < s.cons.spans.Total() { LoadKeeps(s); }
      case Release(_) => ConsumerMoves(s, Step(s, a).cons);
      case CNext =>
        if s.cons.CCommitWrite? {
          ReleaseKeeps(s);
        } else {
          ConsumerMoves(s, ConsumerReads(s));
          ConsumerReadsOk(s);
        }
    }
  }

  // ---------- whole runs ----------

  /** fd_ring_init on `capacity` bytes of storage. */
  function Init(storage: seq<byte>): State
    requires 0 < |storage| < 0x1_0000
  {
    State(|storage|, storage, 0, 0, PIdle, CIdle, [], [], [])
  }

  function Run(s: State, actions: seq<Action>): (t: State)
    requires s.cap > 0 && s.head < s.cap && s.tail < s.cap && |s.buf| == s.cap
    decreases |actions|
  {
    if actions == [] then s
    else
      var t := Step(s, actions[0]);
      if t.cap > 0 && t.head < t.cap && t.tail < t.cap && |t.buf| == t.cap then Run(t, actions[1..]) else t
  }

  lemma {:induction false} RunKeeps(s: State, actions: seq<Action>)
    requires Inv(s)
    ensures Inv(Run(s, actions))
    decreases |actions|
  {
    if actions != [] {
      StepKeeps(s, actions[0]);
      RunKeeps(Step(s, actions[0]), actions[1..]);
    }
  }

  /** The count a call of write_reserve was made with, from the call to the commit. */
  function Requested(p: Producer): Option<u16> {
    match p
    case PIdle => None
    case PSizeHead(count) => Some(count)
    case PSizeTail(count, _) => Some(count)
    case PCompareHead(count) => Some(count)
    case PCompareTail(count, _) => Some(count)
    case PSpaceHead(count, _) => Some(count)
    case PSpaceTail(count, _, _) => Some(count)
    case PPointer(count, _) => Some(count)
    case PGranted(count, _, _) => Some(count)
    case PCommitRead(_, _) => None
    case PCommitWrite(_, _, _) => None
  }

  /** Whatever the consumer does meanwhile, the spans granted are for the count requested. */
  lemma RequestKept(s: State, a: Action)
    requires Inv(s)
    ensures a.Reserve? && s.prod.PIdle? ==> Requested(Step(s, a).prod) == Some(a.count)
    ensures Requested(s.prod).Some? && Requested(Step(s, a).prod).Some? ==>
      Requested(Step(s, a).prod) == Requested(s.prod)
  {
  }

  /** The unread bytes as a queue of at most cap - 1. */
  ghost function Queued(s: State): Queue<byte>
    requires RingOk(s)
  {
    Queue(s.cap - 1, s.unread)
  }

  /**
    Publishing an index puts bytes in the queue, all of them accepted, or gets bytes out; no
    other access changes it.
  */
  lemma StepIsQueue(s: State, a: Action)
    requires Inv(s)
    ensures Inv(Step(s, a))
    ensures var q := Queued(Step(s, a));
      if a.PNext? && s.prod.PCommitWrite? then
        var more := s.prod.written[..s.prod.n]; |more| <= Queued(s).Room() && q == Queued(s).Put(more)
      else if a.CNext? && s.cons.CCommitWrite? then
        s.cons.n <= |s.unread| && s.cons.got[..s.cons.n] == s.unread[..s.cons.n] && q == Queued(s).Get(s.cons.n)
      else q == Queued(s)
  {
    StepKeeps(s, a);
    if a.PNext? && s.prod.PCommitWrite? {
      var more := s.prod.written[..s.prod.n];
      assert more[..|more|] == more;
    }
  }

  /** Safety of every interleaving of any calls, from fd_ring_init. */
  lemma Always(storage: seq<byte>, actions: seq<Action>)
    requires 0 < |storage| < 0x1_0000
    ensures Safe(Run(Init(storage), actions))
  {
    assert Inv(Init(storage));
    RunKeeps(Init(storage), actions);
    InvIsSafe(Run(Init(storage), actions));
  }

  // ---------- calls that are not interleaved ----------

  function ProducerRank(p: Producer): nat {
    match p
    case PSizeHead(_) => 7
    case PSizeTail(_, _) => 6
    case PCompareHead(_) => 5
    case PCompareTail(_, _) => 4
    case PSpaceHead(_, _) => 3
    case PSpaceTail(_, _, _) => 2
    case PPointer(_, _) => 1
    case _ => 0
  }

  /** write_reserve run from p to its return, the consumer standing still. */
  function FinishReserve(s: State, p: Producer): Producer
    requires s.cap > 0
    decreases ProducerRank(p)
  {
    if ProducerRank(p) == 0 then p else FinishReserve(s, ProducerReads(s.(prod := p)))
  }

  lemma ReserveStep(s: State, p: Producer, q: Producer)
    requires s.cap > 0 && ProducerRank(p) > 0 && q == ProducerReads(s.(prod := p))
    ensures FinishReserve(s, p) == FinishReserve(s, q)
  {
  }

  function ConsumerRank(c: Consumer): nat {
    match c
    case CSizeHead(again) => if again then 7 else 9
    case CSizeTail(again, _) => if again then 6 else 8
    case CCompareTail(_) => 5
    case CCompareHead(_, _) => 4
    case CSpaceFirst(_, _) => 3
    case CSpaceTail(_, _) => 2
    case CPointer(_, _) => 1
    case _ => 0
  }

  /** read_reserve run from c to its return, the producer standing still. */
  function FinishAcquire(s: State, c: Consumer): Consumer
    requires s.cap > 0 && s.tail < s.cap
    decreases ConsumerRank(c)
  {
    if ConsumerRank(c) == 0 then c else FinishAcquire(s, ConsumerReads(s.(cons := c)))
  }

  lemma AcquireStep(s: State, c: Consumer, d: Consumer)
    requires s.cap > 0 && s.tail < s.cap && ConsumerRank(c) > 0 && d == ConsumerReads(s.(cons := c))
    ensures FinishAcquire(s, c) == FinishAcquire(s, d)
  {
  }

  /** The contiguous space write_reserve computes when nothing moves. */
  function FreeRun(s: State): u16 {
    if s.head >= s.tail then ToU16(s.cap - s.head - (if s.tail == 0 then 1 else 0)) else ToU16(s.tail - s.head - 1)
  }

  lemma ReserveRuns(s: State, count: u16)
    requires s.cap > 0
    ensures FinishReserve(s, PCompareHead(count)) == PGranted(count, MakeSpans(s.head, FreeRun(s), count), [])
  {
    var ge := s.head >= s.tail;
    ReserveStep(s, PCompareHead(count), PCompareTail(count, s.head));
    ReserveStep(s, PCompareTail(count, s.head), PSpaceHead(count, ge));
    ReserveStep(s, PSpaceHead(count, ge), PSpaceTail(count, ge, s.head));
    ReserveStep(s, PSpaceTail(count, ge, s.head), PPointer(count, FreeRun(s)));
    ReserveStep(s, PPointer(count, FreeRun(s)), PGranted(count, MakeSpans(s.head, FreeRun(s), count), []));
  }

  /** The second half of write_reserve, once the request is known to fit. */
  lemma ReserveFits(s: State, count: u16)
    requires RingOk(s) && count + |s.unread| < s.cap
    ensures SpansFrom(MakeSpans(s.head, FreeRun(s), count), s.head, count, s.cap)
  {
    BranchTaken(s, count);
    SpaceComputed(s, count, s.head >= s.tail);
    SpansGranted(s.head, FreeRun(s), count, s.cap);
  }

  /** write_reserve on its own grants exactly the requests that fit, in full, starting at head. */
  lemma ReserveAlone(s: State, count: u16)
    requires Inv(s)
    ensures var t := FinishReserve(s, PSizeHead(count));
            if count + |s.unread| < s.cap then t.PGranted? && SpansFrom(t.spans, s.head, count, s.cap) else t == PIdle
  {
    FreeIsFree(s, count);
    var fits := count + |s.unread| < s.cap;
    ReserveStep(s, PSizeHead(count), PSizeTail(count, s.head));
    ReserveStep(s, PSizeTail(count, s.head), if fits then PCompareHead(count) else PIdle);
    if fits {
      ReserveRuns(s, count);
      ReserveFits(s, count);
    }
  }

  /** The contiguous run read_reserve computes when nothing moves. */
  function FullRun(s: State): u16
    requires s.tail < s.cap
  {
    if s.tail >= s.head then s.cap - s.tail else ToU16(s.head - s.tail)
  }

  lemma AcquireRuns(s: State, n: u16)
    requires s.cap > 0 && s.tail < s.cap
    ensures FinishAcquire(s, CCompareTail(n)) == CGranted(n, MakeSpans(s.tail, FullRun(s), n), [])
  {
    var ge := s.tail >= s.head;
    AcquireStep(s, CCompareTail(n), CCompareHead(n, s.tail));
    AcquireStep(s, CCompareHead(n, s.tail), CSpaceFirst(n, ge));
    if ge {
      AcquireStep(s, CSpaceFirst(n, ge), CPointer(n, FullRun(s)));
    } else {
      AcquireStep(s, CSpaceFirst(n, ge), CSpaceTail(n, s.head));
      AcquireStep(s, CSpaceTail(n, s.head), CPointer(n, FullRun(s)));
    }
    AcquireStep(s, CPointer(n, FullRun(s)), CGranted(n, MakeSpans(s.tail, FullRun(s), n), []));
  }

  /** The second half of read_reserve, once there is known to be something. */
  lemma AcquireFits(s: State, n: u16)
    requires RingOk(s) && 0 < n == |s.unread|
    ensures SpansFrom(MakeSpans(s.tail, FullRun(s), n), s.tail, n, s.cap)
  {
    ConsumerBranch(s, n);
    SizeIsThere(s);
    if s.tail < s.head {
      ConsumerSpace(s.tail, s.head, n, s.cap);
    }
    SpansGranted(s.tail, FullRun(s), n, s.cap);
  }

  /** read_reserve on its own returns everything unread, or refuses when there is nothing. */
  lemma AcquireAlone(s: State)
    requires Inv(s)
    ensures var t := FinishAcquire(s, CSizeHead(false));
            if s.unread == [] then t == CIdle else t.CGranted? && SpansFrom(t.spans, s.tail, |s.unread|, s.cap)
  {
    SizeIsThere(s);
    var n := |s.unread|;
    AcquireStep(s, CSizeHead(false), CSizeTail(false, s.head));
    AcquireStep(s, CSizeTail(false, s.head), if n == 0 then CIdle else CSizeHead(true));
    if n > 0 {
      AcquireStep(s, CSizeHead(true), CSizeTail(true, s.head));
      AcquireStep(s, CSizeTail(true, s.head), CCompareTail(n));
      AcquireRuns(s, n);
      AcquireFits(s, n);
    }
  }
}
