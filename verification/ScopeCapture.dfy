/**
  The scope trigger of fdlib/middleware/ScopeStream.h: decimation, a trigger with
  hysteresis, and a linear buffer that is frozen once full.

  The ghost history keeps every decimated sample looked at and where the triggers were.
  `Since` is what the buffer holds: the samples from the last trigger on, in order.
  Samples are integers; T is any signed type in which level plus and minus hysteresis fit.
*/
module ScopeCapture {
  import opened Words


  type Sample = seq<int>

  /** Every n-th of the samples written, the n-th first. */
  function Every(raw: seq<Sample>, n: nat): seq<Sample>
    requires 0 < n
    decreases |raw|
  {
    if |raw| < n then [] else [raw[n - 1]] + Every(raw[n..], n)
  }

  /** How many more samples until the next one that counts. */
  function Left(raw: seq<Sample>, n: nat): (k: nat)
    requires 0 < n
    ensures 0 < k <= n
    decreases |raw|
  {
    if |raw| < n then n - |raw| else Left(raw[n..], n)
  }

  lemma {:induction false} EverySnoc(raw: seq<Sample>, n: nat, x: Sample)
    requires 0 < n
    ensures Every(raw + [x], n) == Every(raw, n) + if Left(raw, n) == 1 then [x] else []
    ensures Left(raw + [x], n) == if Left(raw, n) == 1 then n else Left(raw, n) - 1
    decreases |raw|
  {
    if |raw| >= n {
      EverySnoc(raw[n..], n, x);
      assert (raw + [x])[n..] == raw[n..] + [x];
    } else if |raw| == n - 1 {
      assert (raw + [x])[n..] == [];
    }
  }

  /** The samples laid out one after another. */
  function Flatten(samples: seq<Sample>): seq<int> {
    if samples == [] then [] else Flatten(samples[..|samples| - 1]) + samples[|samples| - 1]
  }

  ghost predicate Wide(samples: seq<Sample>, channels: nat) {
    forall i :: 0 <= i < |samples| ==> |samples[i]| == channels
  }

  lemma {:induction false} FlattenLength(samples: seq<Sample>, channels: nat)
    requires Wide(samples, channels)
    ensures |Flatten(samples)| == |samples| * channels
    decreases |samples|
  {
    if samples != [] {
      FlattenLength(samples[..|samples| - 1], channels);
      assert (|samples| - 1) * channels + channels == |samples| * channels;
    }
  }

  /** As many samples as the buffer is deep fill it. */
  lemma FillsBuffer(samples: seq<Sample>, channels: nat, depth: nat, buf: seq<int>)
    requires Wide(samples, channels) && |samples| == depth && |buf| == depth * channels && Flatten(samples) <= buf
    ensures buf == Flatten(samples)
  {
    FlattenLength(samples, channels);
  }

  lemma FlattenSnoc(samples: seq<Sample>, x: Sample)
    ensures Flatten(samples + [x]) == Flatten(samples) + x
  {
    assert (samples + [x])[..|samples|] == samples;
  }

  lemma Below(i: nat, n: nat, channels: nat)
    requires i < n
    ensures i * channels + channels <= n * channels
  {
    assert (n - (i + 1)) * channels >= 0;
    assert (n - (i + 1)) * channels == n * channels - (i + 1) * channels == n * channels - (i * channels + channels);
  }

  lemma {:induction false} FlattenAt(samples: seq<Sample>, channels: nat, i: nat, c: nat)
    requires Wide(samples, channels) && i < |samples| && c < channels
    ensures 0 <= i * channels + c < |Flatten(samples)| && Flatten(samples)[i * channels + c] == samples[i][c]
    decreases |samples|
  {
    var init := samples[..|samples| - 1];
    FlattenLength(samples, channels);
    FlattenLength(init, channels);
    Below(i, |samples|, channels);
    if i < |init| {
      FlattenAt(init, channels, i, c);
    }
  }

  /** One channel of one sample, in a buffer that starts with the samples. */
  lemma CellAt(samples: seq<Sample>, channels: nat, i: nat, c: nat, buf: seq<int>)
    requires Wide(samples, channels) && i < |samples| && c < channels && Flatten(samples) <= buf
    ensures 0 <= i * channels + c < |buf| && buf[i * channels + c] == samples[i][c]
  {
    FlattenAt(samples, channels, i, c);
    PrefixAt(Flatten(samples), buf, i * channels + c);
  }

  lemma PrefixAt(a: seq<int>, b: seq<int>, k: nat)
    requires a <= b && k < |a|
    ensures k < |b| && b[k] == a[k]
  {
  }

  // ---------- the trigger ----------

  datatype Levels = Levels(level: int, hysteresis: int)
  {
    predicate Above(x: Sample)
      requires |x| > 0
    {
      x[0] > level + hysteresis
    }

    predicate Dips(x: Sample)
      requires |x| > 0
    {
      x[0] < level - hysteresis
    }
  }

  /** All decimated samples looked at so far, and the indices of those that triggered. */
  datatype History = History(samples: seq<Sample>, triggers: seq<nat>)

  predicate Dipped(lv: Levels, samples: seq<Sample>, from: int, to: int)
    requires forall i :: 0 <= i < |samples| ==> |samples[i]| > 0
  {
    exists k :: 0 <= k < |samples| && from < k < to && lv.Dips(samples[k])
  }

  /**
    Every trigger is on a sample above level plus hysteresis, and between two triggers the
    signal went below level minus hysteresis.
  */
  ghost predicate Separated(lv: Levels, h: History, channels: nat) {
    && 0 < channels && Wide(h.samples, channels)
    && (forall n :: 0 <= n < |h.triggers| ==> h.triggers[n] < |h.samples| && lv.Above(h.samples[h.triggers[n]]))
    && (forall n :: 0 < n < |h.triggers| ==> Dipped(lv, h.samples, h.triggers[n - 1], h.triggers[n]))
  }

  /** Armed again only after such a dip. */
  ghost predicate Rearmed(lv: Levels, h: History, channels: nat, hystTrig: bool)
    requires Separated(lv, h, channels)
  {
    if h.triggers == [] then !hystTrig else hystTrig || Dipped(lv, h.samples, h.triggers[|h.triggers| - 1], |h.samples|)
  }

  lemma DippedMore(lv: Levels, samples: seq<Sample>, x: Sample, channels: nat, from: int, to: int)
    requires 0 < channels && Wide(samples, channels) && |x| == channels && Dipped(lv, samples, from, to)
    ensures Wide(samples + [x], channels) && Dipped(lv, samples + [x], from, to)
      && Dipped(lv, samples + [x], from, to + 1)
  {
    var k :| 0 <= k < |samples| && from < k < to && lv.Dips(samples[k]);
    assert (samples + [x])[k] == samples[k];
  }

  lemma SeparatedMore(lv: Levels, h: History, channels: nat, x: Sample)
    requires Separated(lv, h, channels) && |x| == channels
    ensures Separated(lv, h.(samples := h.samples + [x]), channels)
  {
    forall n | 0 < n < |h.triggers|
      ensures Dipped(lv, h.samples + [x], h.triggers[n - 1], h.triggers[n])
    {
      DippedMore(lv, h.samples, x, channels, h.triggers[n - 1], h.triggers[n]);
    }
  }

  /** One decimated sample while waiting for the trigger. */
  function Look(lv: Levels, h: History, hystTrig: bool, x: Sample): (r: (History, bool, bool))
    requires |x| > 0
  {
    var more := h.samples + [x];
    if lv.Above(x) && !hystTrig then (History(more, h.triggers + [|h.samples|]), true, true)
    else (History(more, h.triggers), if lv.Dips(x) then false else hystTrig, false)
  }

  /** The first of the samples looked at that triggers. */
  function FirstTrigger(lv: Levels, h: History, hystTrig: bool, xs: seq<Sample>): Option<nat>
    requires forall i :: 0 <= i < |xs| ==> |xs[i]| > 0
    decreases |xs|
  {
    if xs == [] then None
    else
      var (g, armed, fired) := Look(lv, h, hystTrig, xs[0]);
      if fired then Some(0)
      else match FirstTrigger(lv, g, armed, xs[1..]) case None => None case Some(j) => Some(j + 1)
  }

  /** Sample j is above the hysteresis band, and the trigger was armed at first or a sample before it was below. */
  predicate Ready(lv: Levels, hystTrig: bool, xs: seq<Sample>, j: nat)
    requires (forall i :: 0 <= i < |xs| ==> |xs[i]| > 0) && j < |xs|
  {
    && xs[j][0] > lv.level + lv.hysteresis
    && (!hystTrig || exists k :: 0 <= k < j && xs[k][0] < lv.level - lv.hysteresis)
  }

  lemma ReadyLater(lv: Levels, hystTrig: bool, xs: seq<Sample>, j: nat)
    requires (forall i :: 0 <= i < |xs| ==> |xs[i]| > 0) && 0 < j < |xs|
    ensures Ready(lv, hystTrig, xs, j) <==> Ready(lv, hystTrig && !lv.Dips(xs[0]), xs[1..], j - 1)
  {
    if k :| 0 <= k < j && xs[k][0] < lv.level - lv.hysteresis {
      assert k > 0 ==> xs[1..][k - 1] == xs[k];
    }
  }

  /** Waiting, the scope triggers on the first sample that is ready, and on no other. */
  lemma {:induction false} TriggersExactly(lv: Levels, h: History, hystTrig: bool, xs: seq<Sample>)
    requires forall i :: 0 <= i < |xs| ==> |xs[i]| > 0
    ensures match FirstTrigger(lv, h, hystTrig, xs)
      case None => forall j :: 0 <= j < |xs| ==> !Ready(lv, hystTrig, xs, j)
      case Some(n) => n < |xs| && Ready(lv, hystTrig, xs, n) && forall j :: 0 <= j < n ==> !Ready(lv, hystTrig, xs, j)
    decreases |xs|
  {
    if xs != [] && !Look(lv, h, hystTrig, xs[0]).2 {
      TriggersExactly(lv, Look(lv, h, hystTrig, xs[0]).0, Look(lv, h, hystTrig, xs[0]).1, xs[1..]);
      forall j | 0 < j < |xs|
        ensures Ready(lv, hystTrig, xs, j) <==> Ready(lv, hystTrig && !lv.Dips(xs[0]), xs[1..], j - 1)
      {
        ReadyLater(lv, hystTrig, xs, j);
      }
    }
  }

  lemma LookKeeps(lv: Levels, h: History, channels: nat, hystTrig: bool, x: Sample)
    requires Separated(lv, h, channels) && Rearmed(lv, h, channels, hystTrig) && |x| == channels
    ensures var (g, armed, fired) := Look(lv, h, hystTrig, x);
      Separated(lv, g, channels) && Rearmed(lv, g, channels, armed)
  {
    SeparatedMore(lv, h, channels, x);
    var more := h.samples + [x];
    if h.triggers != [] && !hystTrig {
      DippedMore(lv, h.samples, x, channels, h.triggers[|h.triggers| - 1], |h.samples|);
    }
    if h.triggers != [] && lv.Dips(x) && !(lv.Above(x) && !hystTrig) {
      assert more[|h.samples|] == x && lv.Dips(more[|h.samples|]);
    }
  }

  lemma CaptureKeeps(lv: Levels, h: History, channels: nat, hystTrig: bool, x: Sample)
    requires Separated(lv, h, channels) && Rearmed(lv, h, channels, hystTrig) && |x| == channels && h.triggers != []
    ensures Separated(lv, h.(samples := h.samples + [x]), channels)
    ensures Rearmed(lv, h.(samples := h.samples + [x]), channels, hystTrig)
  {
    SeparatedMore(lv, h, channels, x);
    if !hystTrig {
      DippedMore(lv, h.samples, x, channels, h.triggers[|h.triggers| - 1], |h.samples|);
    }
  }

  /** What the buffer should hold: the samples from the last trigger on. */
  ghost function Since(h: History, triggered: bool): seq<Sample>
    requires triggered ==> h.triggers != [] && h.triggers[|h.triggers| - 1] <= |h.samples|
  {
    if triggered then h.samples[h.triggers[|h.triggers| - 1]..] else []
  }

  /** The samples looked at since the last reset are every n-th of those written. */
  ghost predicate Timing(samples: seq<Sample>, base: nat, raw: seq<Sample>, decimation: nat, counter: nat) {
    && 0 < decimation < 0x100 && counter == Left(raw, decimation)
    && base <= |samples| && samples[base..] == Every(raw, decimation)
  }

  /** The buffer holds the samples since the trigger, and is frozen exactly when it is full. */
  ghost predicate Capturing(lv: Levels, h: History, channels: nat, hystTrig: bool, triggered: bool,
                            depth: nat, writeIdx: nat, frozen: bool, buf: seq<int>) {
    && Separated(lv, h, channels) && Rearmed(lv, h, channels, hystTrig) && (triggered ==> h.triggers != [])
    && writeIdx == |Since(h, triggered)| <= depth && (frozen <==> writeIdx == depth)
    && Flatten(Since(h, triggered)) <= buf
  }

  lemma TimingOn(samples: seq<Sample>, base: nat, raw: seq<Sample>, decimation: nat, counter: nat, data: Sample)
    requires Timing(samples, base, raw, decimation, counter)
    ensures var due := Left(raw, decimation) == 1;
      Timing(if due then samples + [data] else samples, base, raw + [data], decimation,
        if due then decimation else counter - 1)
  {
    EverySnoc(raw, decimation, data);
    SuffixSnoc(samples, data, base);
  }

  /** Decimation starts over. */
  lemma TimingAnew(samples: seq<Sample>, decimation: nat)
    requires 0 < decimation < 0x100
    ensures Timing(samples, |samples|, [], decimation, decimation)
  {
  }

  /** Waiting for the next trigger, the buffer is to hold nothing. */
  lemma CapturingAnew(lv: Levels, h: History, channels: nat, hystTrig: bool, triggered: bool,
                      depth: nat, writeIdx: nat, frozen: bool, buf: seq<int>)
    requires 0 < depth && Capturing(lv, h, channels, hystTrig, triggered, depth, writeIdx, frozen, buf)
    ensures Capturing(lv, h, channels, hystTrig, false, depth, 0, false, buf)
  {
  }

  class ScopeStream {
    const buf: array<int>
    const channels: nat
    const depth: nat
    const lv: Levels
    var hystTrig: bool
    var decimation: nat
    var counter: nat
    var writeIdx: nat
    var triggered: bool
    var frozen: bool
    ghost var h: History
    ghost var raw: seq<Sample>
    ghost var base: nat

    ghost predicate Valid()
      reads this, buf
    {
      && 0 < depth < 0x1_0000 && buf.Length == depth * channels
      && Timing(h.samples, base, raw, decimation, counter)
      && Capturing(lv, h, channels, hystTrig, triggered, depth, writeIdx, frozen, buf[..])
    }

    /** The source leaves `hyst_trig` as it finds it; it is taken to be false. */
    constructor (buf: array<int>, channels: nat, depth: nat, level: int, hysteresis: int)
      requires 0 < channels && 0 < depth < 0x1_0000 && buf.Length == depth * channels
      ensures Valid() && this.buf == buf && this.channels == channels && this.depth == depth
        && lv == Levels(level, hysteresis)
      ensures h == History([], []) && raw == [] && !triggered
    {
      this.buf, this.channels, this.depth, lv := buf, channels, depth, Levels(level, hysteresis);
      decimation, counter, writeIdx, triggered, frozen, hystTrig := 1, 1, 0, false, false, false;
      h, raw, base := History([], []), [], 0;
    }

    /** memcpy of one sample to its place. */
    method Store(data: Sample, ghost captured: seq<Sample>)
      requires Wide(captured, channels) && |data| == channels && buf.Length == depth * channels
      requires writeIdx == |captured| < depth && Flatten(captured) <= buf[..]
      modifies buf, this`writeIdx
      ensures writeIdx == |captured| + 1 && Flatten(captured + [data]) <= buf[..]
    {
      ghost var was := buf[..];
      Below(writeIdx, depth, channels);
      FlattenLength(captured, channels);
      FlattenSnoc(captured, data);
      var n := writeIdx * channels;
      forall c | 0 <= c < channels {
        buf[n + c] := data[c];
      }
      Appended(Flatten(captured), was, buf[..], data);
      writeIdx := writeIdx + 1;
    }

    /** The trigger logic on one decimated sample. */
    method Trigger(data: Sample)
      requires Separated(lv, h, channels) && Rearmed(lv, h, channels, hystTrig) && |data| == channels
      requires triggered ==> h.triggers != []
      modifies this`hystTrig, this`triggered, this`writeIdx, this`h
      ensures Separated(lv, h, channels) && Rearmed(lv, h, channels, hystTrig)
      ensures (h, hystTrig, triggered) == Turn(lv, old(h), old(hystTrig), old(triggered), data)
      ensures writeIdx == if triggered && !old(triggered) then 0 else old(writeIdx)
    {
      if !triggered {
        LookKeeps(lv, h, channels, hystTrig, data);
        h := Look(lv, h, hystTrig, data).0;
        if lv.Above(data) && !hystTrig {
          hystTrig := true;
          triggered := true;
          writeIdx := 0;
        } else if lv.Dips(data) && hystTrig {
          hystTrig := false;
        }
      } else {
        CaptureKeeps(lv, h, channels, hystTrig, data);
        h := h.(samples := h.samples + [data]);
      }
    }

    /** The sequential fill. */
    method Keep(data: Sample, ghost captured: seq<Sample>)
      requires Wide(captured, channels) && |data| == channels && buf.Length == depth * channels && !frozen
      requires writeIdx == |captured| < depth && Flatten(captured) <= buf[..] && (!triggered ==> captured == [])
      modifies buf, this`writeIdx, this`frozen
      ensures var next := if triggered then captured + [data] else [];
        writeIdx == |next| <= depth && Flatten(next) <= buf[..] && (frozen <==> writeIdx == depth)
    {
      if triggered {
        Store(data, captured);
        if writeIdx >= depth {
          frozen := true;
        }
      }
    }

    /** The part of `write` after decimation. */
    method Fill(data: Sample)
      requires Capturing(lv, h, channels, hystTrig, triggered, depth, writeIdx, frozen, buf[..]) && 0 < depth
      requires |data| == channels && buf.Length == depth * channels && !frozen
      modifies this`hystTrig, this`writeIdx, this`triggered, this`frozen, this`h, buf
      ensures (h, hystTrig, triggered) == Turn(lv, old(h), old(hystTrig), old(triggered), data)
        && h.samples == old(h.samples) + [data]
      ensures Capturing(lv, h, channels, hystTrig, triggered, depth, writeIdx, frozen, buf[..])
    {
      ghost var captured := Since(h, triggered);
      WideSince(lv, h, channels, triggered);
      TurnCaptures(lv, h, channels, hystTrig, triggered, data);
      Trigger(data);
      Keep(data, captured);
    }

    /** `reset`: waits for the next trigger; the hysteresis state is kept, so it must re-arm first. */
    method Reset()
      requires Valid()
      modifies this`writeIdx, this`triggered, this`frozen, this`counter, this`raw, this`base
      ensures Valid() && !triggered && !frozen && raw == [] && base == |h.samples|
    {
      CapturingAnew(lv, h, channels, hystTrig, triggered, depth, writeIdx, frozen, buf[..]);
      TimingAnew(h.samples, decimation);
      writeIdx := 0;
      triggered := false;
      frozen := false;
      counter := decimation;
      raw := [];
      base := |h.samples|;
    }

    method UpdateDecimation(decimation: nat)
      requires Valid() && 0 < decimation < 0x100
      modifies this`decimation, this`counter, this`raw, this`base
      ensures Valid() && this.decimation == decimation && raw == [] && base == |h.samples|
    {
      TimingAnew(h.samples, decimation);
      this.decimation := decimation;
      counter := decimation;
      raw := [];
      base := |h.samples|;
    }

    /** `read`: the whole capture, once frozen, into a buffer big enough; sizes in bytes. */
    method Read(out: array<int>, bufferSize: nat, sizeOfT: nat) returns (ok: bool)
      requires Valid() && out != buf && out.Length >= buf.Length
      modifies out
      ensures ok <==> frozen && bufferSize >= depth * channels * sizeOfT
      ensures ok ==> out[..depth * channels] == Flatten(Since(h, triggered))
      ensures !ok ==> out[..] == old(out[..])
    {
      if !frozen {
        return false;
      }
      if bufferSize < depth * channels * sizeOfT {
        return false;
      }
      WideSince(lv, h, channels, triggered);
      FlattenLength(Since(h, triggered), channels);
      forall i | 0 <= i < buf.Length {
        out[i] := buf[i];
      }
      return true;
    }

    method CopyChannel(channel: nat, out: array<int>, ghost samples: seq<Sample>)
      requires Wide(samples, channels) && |samples| == depth <= out.Length && channel < channels && out != buf
        && Flatten(samples) <= buf[..]
      modifies out
      ensures forall i :: 0 <= i < depth ==> out[i] == samples[i][channel]
    {
      var i := 0;
      while i < depth
        invariant 0 <= i <= depth && Flatten(samples) <= buf[..]
        invariant forall j :: 0 <= j < i ==> out[j] == samples[j][channel]
      {
        CellAt(samples, channels, i, channel, buf[..]);
        out[i] := buf[i * channels + channel];
        i := i + 1;
      }
    }

    /** `read` of one channel. */
    method ReadChannel(channel: nat, out: array<int>, bufferSize: nat, sizeOfT: nat) returns (ok: bool)
      requires Valid() && out != buf && out.Length >= depth && channel < channels
      modifies out
      ensures ok <==> frozen && bufferSize >= depth * sizeOfT
      ensures ok ==> forall i :: 0 <= i < depth ==>
        i < |Since(h, triggered)| && channel < |Since(h, triggered)[i]| && out[i] == Since(h, triggered)[i][channel]
    {
      if !frozen {
        return false;
      }
      if bufferSize < depth * sizeOfT {
        return false;
      }
      WideSince(lv, h, channels, triggered);
      CopyChannel(channel, out, Since(h, triggered));
      return true;
    }

    /** One call of `write`. */
    method Write(data: Sample)
      requires Valid() && |data| == channels
      modifies this`hystTrig, this`counter, this`writeIdx, this`triggered, this`frozen, this`h, this`raw, buf
      ensures Valid()
      ensures old(frozen) ==> frozen && h == old(h) && raw == old(raw) && buf[..] == old(buf[..])
      ensures !old(frozen) ==> raw == old(raw) + [data]
      ensures !old(frozen) && Left(old(raw), decimation) == 1 ==>
        (h, hystTrig, triggered) == Turn(lv, old(h), old(hystTrig), old(triggered), data)
      ensures !old(frozen) && Left(old(raw), decimation) != 1 ==>
        (h, hystTrig, triggered) == (old(h), old(hystTrig), old(triggered)) && buf[..] == old(buf[..])
    {
      if !frozen {
        TimingOn(h.samples, base, raw, decimation, counter, data);
        var due := CountDown(data);
        if due {
          Fill(data);
        }
      }
    }

    /**
      A frozen scope has triggered, and its buffer is exactly the `depth` consecutive
      decimated samples beginning with the one that triggered, which is above the level.
    */
    lemma FullCapture()
      requires Valid() && frozen
      ensures triggered && h.triggers != []
      ensures var t := h.triggers[|h.triggers| - 1];
        && t + depth == |h.samples| && |h.samples[t]| == channels > 0 && lv.Above(h.samples[t])
        && buf[..] == Flatten(h.samples[t..t + depth])
    {
      WideSince(lv, h, channels, triggered);
      FillsBuffer(Since(h, triggered), channels, depth, buf[..]);
      var t := h.triggers[|h.triggers| - 1];
      assert Since(h, triggered) == h.samples[t..t + depth];
      assert lv.Above(h.samples[t]);
    }

    /** The decimation step: whether this sample counts. */
    method CountDown(data: Sample) returns (due: bool)
      requires 0 < decimation && counter == Left(raw, decimation)
      modifies this`counter, this`raw
      ensures raw == old(raw) + [data] && counter == if due then decimation else old(counter) - 1
      ensures due <==> Left(old(raw), decimation) == 1
    {
      raw := raw + [data];
      counter := counter - 1;
      due := counter == 0;
      if due {
        counter := decimation;
      }
    }
  }

  lemma Appended(a: seq<int>, was: seq<int>, now: seq<int>, data: seq<int>)
    requires a <= was && |now| == |was| && |a| + |data| <= |now|
    requires forall i :: 0 <= i < |was| ==> now[i] == if |a| <= i < |a| + |data| then data[i - |a|] else was[i]
    ensures a + data <= now
  {
  }

  /** One decimated sample: looked at while waiting, only kept while capturing. */
  function Turn(lv: Levels, h: History, hystTrig: bool, triggered: bool, x: Sample): (History, bool, bool)
    requires |x| > 0
  {
    if triggered then (h.(samples := h.samples + [x]), hystTrig, true) else Look(lv, h, hystTrig, x)
  }

  lemma TurnCaptures(lv: Levels, h: History, channels: nat, hystTrig: bool, triggered: bool, x: Sample)
    requires Separated(lv, h, channels) && |x| == channels && (triggered ==> h.triggers != [])
    ensures var (g, armed, fired) := Turn(lv, h, hystTrig, triggered, x);
      g.samples == h.samples + [x] && (fired ==> g.triggers != [] && g.triggers[|g.triggers| - 1] <= |g.samples|)
      && Since(g, fired) == if fired then Since(h, triggered) + [x] else []
  {
  }

  lemma WideSince(lv: Levels, h: History, channels: nat, triggered: bool)
    requires Separated(lv, h, channels) && (triggered ==> h.triggers != [])
    ensures triggered ==> h.triggers[|h.triggers| - 1] <= |h.samples|
    ensures Wide(Since(h, triggered), channels)
  {
  }

  lemma SuffixSnoc(samples: seq<Sample>, x: Sample, base: nat)
    requires base <= |samples|
    ensures (samples + [x])[base..] == samples[base..] + [x]
  {
  }
}
