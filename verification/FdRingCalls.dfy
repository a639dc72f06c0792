/**
  Whole calls on `fd_ring_t` (fdlib/fd/fd_ring.h), whatever the other side does meanwhile.

  `WriteGoesThrough`: a write that fits when write_reserve is called is granted and, when
  its commit returns, exactly its bytes have been sent and `head` has moved on by as many.
  `ReadGoesThrough` is the same of a read of bytes unread when read_reserve is called.
  `CommitPublishes` and `ReleaseFrees` are the commits alone, of as much as was stored or
  loaded or less.
*/
module FdRingCalls {
  import opened Words
  import opened FdRing

  predicate ByProducer(a: Action) {
    a.Reserve? || a.Store? || a.Commit? || a.PNext?
  }

  /** What the producer does in an interleaving, and what the consumer does. */
  function Producers(actions: seq<Action>): seq<Action> {
    if actions == [] then []
    else (if ByProducer(actions[0]) then [actions[0]] else []) + Producers(actions[1..])
  }

  function Consumers(actions: seq<Action>): seq<Action> {
    if actions == [] then []
    else (if ByProducer(actions[0]) then [] else [actions[0]]) + Consumers(actions[1..])
  }

  /** What is unread at the end, behind what was received since: what was unread before, and what was sent since. */
  ghost predicate Conserved(s: State, t: State) {
    && s.sent <= t.sent && s.received <= t.received
    && t.received[|s.received|..] + t.unread == s.unread + t.sent[|s.sent|..]
  }

  lemma StepGrows(s: State, a: Action)
    requires Inv(s)
    ensures Inv(Step(s, a)) && s.sent <= Step(s, a).sent && s.received <= Step(s, a).received
  {
    StepKeeps(s, a);
  }

  lemma {:induction false} HistoriesGrow(s: State, actions: seq<Action>)
    requires Inv(s)
    ensures Inv(Run(s, actions)) && s.sent <= Run(s, actions).sent && s.received <= Run(s, actions).received
    decreases |actions|
  {
    if actions != [] {
      StepGrows(s, actions[0]);
      HistoriesGrow(Step(s, actions[0]), actions[1..]);
    }
  }

  lemma RunConserves(s: State, actions: seq<Action>)
    requires Inv(s)
    ensures Conserved(s, Run(s, actions))
  {
    HistoriesGrow(s, actions);
    Accounted(s, Run(s, actions));
  }

  lemma Accounted(s: State, t: State)
    requires RingOk(s) && RingOk(t) && s.sent <= t.sent && s.received <= t.received
    ensures Conserved(s, t)
  {
    var all, k := t.received + t.unread, |s.received|;
    assert all[k..] == t.received[k..] + t.unread;
    assert t.sent == s.sent + t.sent[|s.sent|..];
    Associate(s.received, s.unread, t.sent[|s.sent|..]);
    assert all[k..] == s.unread + t.sent[|s.sent|..];
  }

  /** What one side's actions leave to the other: the bytes, the indices and the histories it owns. */
  lemma ConsumerLeaves(s: State, a: Action)
    requires Inv(s) && !ByProducer(a)
    ensures var t := Step(s, a);
      && Inv(t) && t.prod == s.prod && t.head == s.head && t.cap == s.cap && t.sent == s.sent
      && |t.unread| <= |s.unread|
  {
    StepKeeps(s, a);
  }

  lemma ProducerLeaves(s: State, a: Action)
    requires Inv(s) && ByProducer(a)
    ensures var t := Step(s, a);
      && Inv(t) && t.cons == s.cons && t.tail == s.tail && t.cap == s.cap && t.received == s.received
      && s.unread <= t.unread
  {
    StepKeeps(s, a);
  }

  // ---------- writing ----------

  /** One whole write: reserve, its seven accesses, the stores, and the commit with its two. */
  function WriteCall(bytes: seq<byte>): (calls: seq<Action>)
    requires |bytes| < 0x1_0000
    ensures |calls| == 11 + |bytes|
  {
    seq(11 + |bytes|, j requires 0 <= j < 11 + |bytes| =>
      if j == 0 then Reserve(|bytes|)
      else if 8 <= j < 8 + |bytes| then Store(bytes[j - 8])
      else if j == 8 + |bytes| then Commit(|bytes|)
      else PNext)
  }

  /** Where the producer stands after j of these actions. */
  predicate WritePhase(p: Producer, bytes: seq<byte>, j: nat) {
    var n := |bytes|;
    match p
    case PIdle => j == 0 || j == 11 + n
    case PSizeHead(count) => count == n && j == 1
    case PSizeTail(count, _) => count == n && j == 2
    case PCompareHead(count) => count == n && j == 3
    case PCompareTail(count, _) => count == n && j == 4
    case PSpaceHead(count, _) => count == n && j == 5
    case PSpaceTail(count, _, _) => count == n && j == 6
    case PPointer(count, _) => count == n && j == 7
    case PGranted(count, _, written) => count == n && j == 8 + |written| && written <= bytes
    case PCommitRead(m, written) => m == n <= |written| && written[..n] == bytes && j == 9 + n
    case PCommitWrite(m, _, written) => m == n <= |written| && written[..n] == bytes && j == 10 + n
  }

  /** After j of the actions of a write that began at `s0`. */
  ghost predicate Writing(s0: State, s: State, bytes: seq<byte>, j: nat) {
    && Inv(s) && s.cap == s0.cap && WritePhase(s.prod, bytes, j) && s0.head < s0.cap && |bytes| < s0.cap
    && if j == 11 + |bytes| then s.sent == s0.sent + bytes && s.head == Forward(s0.head, |bytes|, s0.cap)
       else s.sent == s0.sent && s.head == s0.head && (j <= 2 ==> |bytes| + |s.unread| < s.cap)
  }

  lemma WriteStep(s0: State, s: State, bytes: seq<byte>, j: nat)
    requires |bytes| < 0x1_0000 && j < 11 + |bytes| && Writing(s0, s, bytes, j)
    ensures Writing(s0, Step(s, WriteCall(bytes)[j]), bytes, j + 1)
  {
    StepKeeps(s, WriteCall(bytes)[j]);
    if j == 2 {
      FreeIsFree(s, |bytes|);
    } else if 8 <= j < 8 + |bytes| {
      StoreKeeps(s, bytes[j - 8]);
    } else if j == 8 + |bytes| {
      assert s.prod.written == bytes;
    }
  }

  lemma {:induction false} WriteRuns(s0: State, s: State, bytes: seq<byte>, j: nat, actions: seq<Action>)
    requires |bytes| < 0x1_0000 && j <= 11 + |bytes| && Writing(s0, s, bytes, j)
    requires Producers(actions) == WriteCall(bytes)[j..]
    ensures Writing(s0, Run(s, actions), bytes, 11 + |bytes|)
    decreases |actions|
  {
    if actions != [] {
      var a := actions[0];
      if ByProducer(a) {
        assert Producers(actions)[1..] == Producers(actions[1..]);
        WriteStep(s0, s, bytes, j);
        WriteRuns(s0, Step(s, a), bytes, j + 1, actions[1..]);
      } else {
        assert Producers(actions) == Producers(actions[1..]);
        ConsumerLeaves(s, a);
        WriteRuns(s0, Step(s, a), bytes, j, actions[1..]);
      }
    }
  }

  /** What fits when it is called is written, in any interleaving with the consumer. */
  lemma WriteGoesThrough(s: State, bytes: seq<byte>, actions: seq<Action>)
    requires Inv(s) && s.prod.PIdle? && |bytes| + |s.unread| < s.cap
    requires Producers(actions) == WriteCall(bytes)
    ensures var t := Run(s, actions);
      && Inv(t) && t.prod.PIdle? && t.sent == s.sent + bytes && t.head == Forward(s.head, |bytes|, s.cap)
      && Conserved(s, t)
  {
    RunConserves(s, actions);
    assert WriteCall(bytes)[0..] == WriteCall(bytes);
    WriteRuns(s, s, bytes, 0, actions);
  }

  /** A commit of n publishes the first n bytes stored, and no others. */
  lemma CommitPublishes(s: State, n: u16, actions: seq<Action>)
    requires Inv(s) && s.prod.PGranted? && n <= |s.prod.written|
    requires Producers(actions) == [PNext, PNext]
    ensures var t := Run(Step(s, Commit(n)), actions);
      && Inv(t) && t.prod.PIdle? && t.sent == s.sent + s.prod.written[..n] && t.head == Forward(s.head, n, s.cap)
      && Conserved(s, t)
  {
    var bytes := s.prod.written[..n];
    StepKeeps(s, Commit(n));
    RunConserves(Step(s, Commit(n)), actions);
    assert WriteCall(bytes)[9 + n..] == [PNext, PNext];
    WriteRuns(s, Step(s, Commit(n)), bytes, 9 + n, actions);
  }

  // ---------- reading ----------

  /** One whole read of n bytes: reserve, as many accesses as it may take, the loads, and the commit with its two. */
  function ReadCall(n: u16): (calls: seq<Action>)
    ensures |calls| == 13 + n
  {
    seq(13 + n, j requires 0 <= j < 13 + n =>
      if j == 0 then Acquire
      else if 10 <= j < 10 + n then Load
      else if j == 10 + n then Release(n)
      else CNext)
  }

  /** At least n bytes are known to be there. */
  ghost predicate Sees(s: State, n: nat) {
    match s.cons
    case CIdle => false
    case CSizeHead(_) => n <= |s.unread|
    case CSizeTail(_, h) => n <= SizeOf(h, s.tail, s.cap)
    case CCompareTail(count) => n <= count
    case CCompareHead(count, _) => n <= count
    case CSpaceFirst(count, _) => n <= count
    case CSpaceTail(count, _) => n <= count
    case CPointer(count, _) => n <= count
    case CGranted(count, _, _) => n <= count
    case CCommitRead(_, _) => false
    case CCommitWrite(_, _, _) => false
  }

  /**
    Where the consumer stands after j of these actions; the accesses of read_reserve may be
    done before the last of them.
  */
  ghost predicate ReadPhase(s: State, n: nat, bytes: seq<byte>, j: nat) {
    if j == 0 || j == 13 + n then s.cons.CIdle?
    else if j <= 10 then Sees(s, n) && ConsumerRank(s.cons) + j <= 10 && (s.cons.CGranted? ==> s.cons.got == [])
    else if j <= 10 + n then Sees(s, n) && s.cons.CGranted? && |s.cons.got| == j - 10
    else if j == 11 + n then s.cons.CCommitRead? && s.cons.n == n <= |s.cons.got| && s.cons.got[..n] == bytes
    else s.cons.CCommitWrite? && s.cons.n == n <= |s.cons.got| && s.cons.got[..n] == bytes
  }

  /** After j of the actions of a read of n bytes that began at `s0`. */
  ghost predicate Reading(s0: State, s: State, n: nat, bytes: seq<byte>, j: nat) {
    && Inv(s) && s.cap == s0.cap && |bytes| == n < s0.cap && s0.tail < s0.cap && ReadPhase(s, n, bytes, j)
    && if j == 13 + n then s.received == s0.received + bytes && s.tail == Forward(s0.tail, n, s0.cap)
       else s.received == s0.received && s.tail == s0.tail && bytes <= s.unread
  }

  /** A step of the producer meanwhile. */
  lemma ReadWaits(s0: State, s: State, n: nat, bytes: seq<byte>, j: nat, a: Action)
    requires Reading(s0, s, n, bytes, j) && ByProducer(a)
    ensures Reading(s0, Step(s, a), n, bytes, j)
  {
    ProducerLeaves(s, a);
  }

  /** The accesses of read_reserve: as many are left as before or fewer, and n bytes are still seen. */
  lemma AccessesSee(s: State, n: nat, j: nat)
    requires Inv(s) && 1 <= n <= |s.unread| && 1 <= j < 10 && Sees(s, n) && ConsumerRank(s.cons) + j <= 10
    requires s.cons.CGranted? ==> s.cons.got == []
    ensures var c := ConsumerReads(s);
      && Sees(s.(cons := c), n) && ConsumerRank(c) + j + 1 <= 10 && (c.CGranted? ==> c.got == [])
  {
    SizeIsThere(s);
  }

  lemma ReadStep(s0: State, s: State, n: u16, bytes: seq<byte>, j: nat)
    requires (1 <= n || 10 + n < j) && j < 13 + n && Reading(s0, s, n, bytes, j)
    ensures Reading(s0, Step(s, ReadCall(n)[j]), n, bytes, j + 1)
  {
    StepKeeps(s, ReadCall(n)[j]);
    if 1 <= j < 10 {
      AccessesSee(s, n, j);
    } else if 10 <= j < 10 + n {
      LoadKeeps(s);
    } else if j == 10 + n {
      assert s.cons.got == s.unread[..n];
    }
  }

  lemma {:induction false} ReadRuns(s0: State, s: State, n: u16, bytes: seq<byte>, j: nat, actions: seq<Action>)
    requires (1 <= n || 10 + n < j) && j <= 13 + n && Reading(s0, s, n, bytes, j)
    requires Consumers(actions) == ReadCall(n)[j..]
    ensures Reading(s0, Run(s, actions), n, bytes, 13 + n)
    decreases |actions|
  {
    if actions != [] {
      var a := actions[0];
      if ByProducer(a) {
        assert Consumers(actions) == Consumers(actions[1..]);
        ReadWaits(s0, s, n, bytes, j, a);
        ReadRuns(s0, Step(s, a), n, bytes, j, actions[1..]);
      } else {
        assert Consumers(actions)[1..] == Consumers(actions[1..]);
        ReadStep(s0, s, n, bytes, j);
        ReadRuns(s0, Step(s, a), n, bytes, j + 1, actions[1..]);
      }
    }
  }

  /** What is unread when it is called is read, in order, in any interleaving with the producer. */
  lemma ReadGoesThrough(s: State, n: u16, actions: seq<Action>)
    requires Inv(s) && s.cons.CIdle? && 1 <= n <= |s.unread|
    requires Consumers(actions) == ReadCall(n)
    ensures var t := Run(s, actions);
      && Inv(t) && t.cons.CIdle? && t.received == s.received + s.unread[..n] && t.tail == Forward(s.tail, n, s.cap)
      && Conserved(s, t)
  {
    RunConserves(s, actions);
    assert ReadCall(n)[0..] == ReadCall(n);
    ReadRuns(s, s, n, s.unread[..n], 0, actions);
  }

  /** A commit of n frees the first n bytes loaded, and no others. */
  lemma ReleaseFrees(s: State, n: u16, actions: seq<Action>)
    requires Inv(s) && s.cons.CGranted? && n <= |s.cons.got|
    requires Consumers(actions) == [CNext, CNext]
    ensures var t := Run(Step(s, Release(n)), actions);
      && Inv(t) && t.cons.CIdle? && t.received == s.received + s.cons.got[..n] && t.tail == Forward(s.tail, n, s.cap)
      && Conserved(s, t)
  {
    StepKeeps(s, Release(n));
    RunConserves(Step(s, Release(n)), actions);
    assert ReadCall(n)[11 + n..] == [CNext, CNext];
    ReadRuns(s, Step(s, Release(n)), n, s.cons.got[..n], 11 + n, actions);
  }
}
