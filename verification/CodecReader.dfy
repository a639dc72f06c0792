/**
  `daq::codec::Reader` and `SampleBlock` (fdlib/middleware/DAQCodec.h, lines 262-511).

  The reader is first described on values: `ReaderView` with the functions that
  `Decode` performs. They return None where the C++ has no defined behaviour, an
  out-of-bounds write to `dod_buf` or a `push_back` on a full vector. The class at the
  end is the reader as written, each method proved equal to its function.
*/
module CodecReader {
  import opened Words
  import opened DodCode

  datatype Err = OK | RESYNCDOD_BAD | NEED_SYNC | FAULT | BAD_BLOCK | BLOCK_FULL

  function RestoreAll(ccs: seq<ChannelState>, dods: seq<i16>): (r: seq<ChannelState>)
    requires |dods| == |ccs|
    ensures |r| == |ccs|
  {
    seq(|ccs|, i requires 0 <= i < |ccs| => Restore(ccs[i], dods[i]))
  }

  /** Four bytes of a resync record: a sample and a difference, each high byte first. */
  function StateAt(s: seq<byte>, at: nat): ChannelState
    requires at + 4 <= |s|
  {
    ChannelState(Join16(s[at], s[at + 1]), Join16(s[at + 2], s[at + 3]))
  }

  /** The channel states after the counter. */
  function StatesIn(s: seq<byte>, channels: nat): (ccs: seq<ChannelState>)
    requires 4 + 4 * channels <= |s|
    ensures |ccs| == channels
  {
    seq(channels, i requires 0 <= i < channels => StateAt(s, 4 + 4 * i))
  }

  /** The part of the reader that collects residuals and appends whole sample frames to the block. */
  datatype Assembler = Assembler(dod: seq<i16>, ccs: seq<ChannelState>, cur: nat, samples: seq<i16>, cap: nat)
  {
    function Channels(): nat {
      |dod|
    }

    predicate WellFormed() {
      && 1 <= |dod| <= 62
      && |ccs| == |dod|
      && cur <= |dod|
      && |samples| <= cap
    }

    predicate Full() {
      cap - |samples| < |dod|
    }

    /** emitSample: on a full block nothing happens, and `cur` stays where it is. */
    function Emit(): (a: Assembler)
      requires WellFormed()
      ensures a.WellFormed() && a.Channels() == Channels() && a.cap == cap
    {
      if Full() then this
      else
        var restored := RestoreAll(ccs, dod);
        this.(ccs := restored, samples := samples + SamplesOf(restored), cur := 0)
    }

    function EmitIfComplete(): (a: Assembler)
      requires WellFormed()
      ensures a.WellFormed() && a.Channels() == Channels() && a.cap == cap
    {
      if cur == |dod| then Emit() else this
    }

    /** Store one residual; None is the write past the end of `dod_buf`. */
    function Put(d: i16): (r: Option<Assembler>)
      requires WellFormed()
      ensures r.Some? ==> r.value.WellFormed() && r.value.Channels() == Channels() && r.value.cap == cap
    {
      if cur == |dod| then None
      else Some(this.(dod := dod[cur := d], cur := cur + 1).EmitIfComplete())
    }

    function PutAll(ds: seq<i16>): (r: Option<Assembler>)
      requires WellFormed()
      ensures r.Some? ==> r.value.WellFormed() && r.value.Channels() == Channels() && r.value.cap == cap
      decreases |ds|
    {
      if ds == [] then Some(this)
      else match Put(ds[0]) case None => None case Some(a) => a.PutAll(ds[1..])
    }
  }

  datatype ReaderView = ReaderView(parser: Parser, asm: Assembler, inSync: bool, ready: bool, counter: u32)
  {
    predicate WellFormed() {
      && parser.WellFormed()
      && asm.WellFormed()
      && (inSync ==> asm.Channels() <= 14)
    }

    /** One iteration of the loop in decodeSample. */
    function Feed(b: byte): (r: Option<ReaderView>)
      requires WellFormed()
      ensures r.Some? ==> r.value.WellFormed() && r.value.inSync == inSync
    {
      match parser.Parse(b)
      case (p, None) => Some(this.(parser := p, asm := asm.EmitIfComplete()))
      case (p, Some(d)) =>
        match asm.Put(d)
        case None => None
        case Some(a) => Some(this.(parser := p, asm := a))
    }

    function FeedAll(bytes: seq<byte>): (r: Option<ReaderView>)
      requires WellFormed()
      ensures r.Some? ==> r.value.WellFormed() && r.value.inSync == inSync
      decreases |bytes|
    {
      if bytes == [] then Some(this)
      else match Feed(bytes[0]) case None => None case Some(v) => v.FeedAll(bytes[1..])
    }

    /** The channel states a resync record in the scratch buffer carries. */
    function ScratchStates(): (ccs: seq<ChannelState>)
      requires WellFormed() && inSync
      ensures |ccs| == asm.Channels()
    {
      StatesIn(parser.scratch, asm.Channels())
    }

    /** syncUpdate; None is a push_back on a full vector. */
    function SyncUpdate(): (r: Option<ReaderView>)
      requires WellFormed() && inSync
      ensures r.Some? ==> r.value.WellFormed() && r.value.inSync
    {
      var s := parser.scratch;
      var counted := this.(counter := FromBigEndian32(s[0], s[1], s[2], s[3]));
      if asm.cap == 0 then Some(counted.(asm := asm.(samples := [])))
      else if asm.cap < asm.Channels() then None
      else Some(counted.(parser := parser.(state := DOD),
                         asm := asm.(samples := SamplesOf(ScratchStates()), ccs := ScratchStates()),
                         ready := false))
    }

    /** The update `decode` performs first when a resync record is waiting in the scratch buffer. */
    function Settle(): (r: Option<ReaderView>)
      requires WellFormed()
      ensures r.Some? ==> r.value.WellFormed() && r.value.inSync == inSync
    {
      if inSync && parser.state == Sample then SyncUpdate() else Some(this)
    }

    function ResyncSize(): byte
      requires WellFormed()
    {
      4 + 4 * asm.Channels() + 1
    }

    /**
      decodeControl. The copy in decodeResyncDod starts after the code byte and still
      takes as many bytes as the segment has, so its last byte is `past`, whatever
      follows the segment in memory.
    */
    function DecodeControl(seg: seq<byte>, past: byte): (r: (ReaderView, Err))
      requires WellFormed() && seg != []
      ensures r.0.WellFormed()
    {
      if seg[0] == RESYNCDOD then
        if |seg| != ResyncSize() || |seg| > 64 then (this, RESYNCDOD_BAD)
        else (this.(parser := parser.(scratch := seg[1..] + [past] + parser.scratch[|seg|..], state := Sample),
                    ready := ready || inSync,
                    inSync := true), OK)
      else if seg[0] == FLUSH then
        (this.(ready := ready || inSync), OK)
      else
        (this, FAULT)
    }

    function Decode(seg: seq<byte>, kind: StreamType, past: byte): (r: Option<(ReaderView, Err)>)
      requires WellFormed()
      ensures r.Some? ==> r.value.0.WellFormed()
    {
      if seg == [] then Some((this, OK))
      else match Settle()
        case None => None
        case Some(v) =>
          if kind == Control then Some(v.DecodeControl(seg, past))
          else if v.inSync then
            match v.FeedAll(seg) { case None => None case Some(u) => Some((u, OK)) }
          else Some((v, NEED_SYNC))
    }
  }

  class SampleBlock {
    var ready: bool
    const channels: byte
    var counter: u32
    var samples: seq<i16>
    const capacity: nat

    constructor (capacity: nat, channels: byte)
      ensures this.capacity == capacity && this.channels == channels
      ensures !ready && counter == 0 && samples == []
    {
      this.capacity, this.channels := capacity, channels;
      ready, counter, samples := false, 0, [];
    }

    /** The block's content once per `ready`; an empty span otherwise. */
    method GetSamples() returns (r: seq<i16>)
      modifies this`ready
      ensures r == (if old(ready) then samples else [])
      ensures !ready
    {
      if ready {
        ready := false;
        r := samples;
      } else {
        r := [];
      }
    }
  }

  class Reader {
    const scratchBuf: array<byte>
    const dodBuf: array<i16>
    const ccs: array<ChannelState>
    const channels: nat
    var currentChannel: nat
    var state: ReaderState
    var stateRem: byte
    var inSync: bool
    const block: SampleBlock
    var buf: seq<byte>
    var bufIdx: nat

    ghost const Repr: set<object> := {this, scratchBuf, dodBuf, ccs, block}

    ghost predicate Valid()
      reads Repr
    {
      && scratchBuf as object != dodBuf && scratchBuf as object != ccs && dodBuf as object != ccs
      && scratchBuf.Length == 64
      && channels == dodBuf.Length == ccs.Length
      && currentChannel <= channels
      && View().WellFormed()
    }

    ghost function View(): ReaderView
      reads Repr
    {
      ReaderView(Parser(state, stateRem, scratchBuf[..]),
                 Assembler(dodBuf[..], ccs[..], currentChannel, block.samples, block.capacity),
                 inSync, block.ready, block.counter)
    }

    constructor (ccs: array<ChannelState>, dodBuf: array<i16>, block: SampleBlock)
      requires ccs as object != dodBuf && 1 <= ccs.Length == dodBuf.Length <= 62
      requires |block.samples| <= block.capacity
      ensures Valid() && fresh(scratchBuf)
      ensures this.ccs == ccs && this.dodBuf == dodBuf && this.block == block
      ensures View().parser.state == DOD && View().asm.cur == 0 && !View().inSync
    {
      this.ccs, this.dodBuf, this.block := ccs, dodBuf, block;
      scratchBuf := new byte[64](_ => 0);
      channels := ccs.Length;
      currentChannel := 0;
      state := DOD;
      stateRem := 0;
      inSync := false;
      buf, bufIdx := [], 0;
    }

    method Decode(segment: seq<byte>, past: byte, kind: StreamType) returns (err: Err)
      requires Valid()
      requires View().Decode(segment, kind, past).Some?
      modifies Repr
      ensures Valid()
      ensures Some((View(), err)) == old(View()).Decode(segment, kind, past)
    {
      bufIdx := 0;
      buf := segment;
      if |buf| == 0 { return OK; }
      if inSync {
        if state == Sample {
          var _ := SyncUpdate();
        }
      }
      if kind == Control {
        err := DecodeControl(past);
      } else if inSync {
        err := DecodeSample();
      } else {
        err := NEED_SYNC;
      }
    }

    method DodDecode(channel: nat, dod: i16) returns (sample: i16)
      requires channel < ccs.Length
      modifies ccs
      ensures ccs[..] == old(ccs[..])[channel := Restore(old(ccs[channel]), dod)]
      ensures sample == ccs[channel].sample
    {
      var cs := ccs[channel];
      var delta := ToI16(dod + cs.delta);
      sample := ToI16(delta + cs.sample);
      assert ChannelState(sample, delta) == Restore(cs, dod);
      ccs[channel] := ChannelState(sample, delta);
    }

    method DecodeControl(past: byte) returns (err: Err)
      requires Valid() && buf != [] && bufIdx == 0
      modifies this, scratchBuf, block
      ensures Valid()
      ensures (View(), err) == old(View()).DecodeControl(old(buf), past)
    {
      var code := buf[bufIdx];
      bufIdx := bufIdx + 1;
      if code == RESYNCDOD {
        err := DecodeResyncDod(past);
      } else if code == FLUSH {
        err := DecodeFlush();
      } else {
        err := FAULT;
      }
    }

    method DecodeFlush() returns (err: Err)
      requires Valid()
      modifies block
      ensures Valid() && err == OK
      ensures View() == old(View()).(ready := old(block.ready) || inSync)
    {
      if inSync {
        block.ready := true;
      }
      err := OK;
    }

    method DecodeResyncDod(past: byte) returns (err: Err)
      requires Valid() && bufIdx == 1 && buf != [] && buf[0] == RESYNCDOD
      modifies this, scratchBuf, block
      ensures Valid()
      ensures (View(), err) == old(View()).DecodeControl(old(buf), past)
    {
      var expectedSize: byte := 4 + 4 * channels + 1;
      if |buf| != expectedSize || |buf| > 64 { return RESYNCDOD_BAD; }
      ghost var beyond, scratch := buf + [past], scratchBuf[..];
      var i := 0;
      while i < |buf|
        modifies this`bufIdx, scratchBuf
        invariant 0 <= i <= |buf| && bufIdx == i + 1
        invariant forall j :: 0 <= j < i ==> scratchBuf[j] == beyond[j + 1]
        invariant forall j :: i <= j < 64 ==> scratchBuf[j] == scratch[j]
      {
        scratchBuf[i] := if bufIdx < |buf| then buf[bufIdx] else past;
        bufIdx := bufIdx + 1;
        i := i + 1;
      }
      assert scratchBuf[..] == buf[1..] + [past] + scratch[|buf|..];
      if inSync {
        block.ready := true;
      }
      inSync := true;
      state := Sample;
      err := OK;
    }

    method DecodeSample() returns (err: Err)
      requires Valid() && bufIdx == 0
      requires View().FeedAll(buf).Some?
      modifies Repr
      ensures Valid() && err == OK
      ensures Some(View()) == old(View()).FeedAll(old(buf))
    {
      var i := 0;
      while i < |buf|
        modifies this`bufIdx, this`state, this`stateRem, this`currentChannel, scratchBuf, dodBuf, ccs, block`samples
        invariant 0 <= i <= |buf| && bufIdx == i
        invariant Valid()
        invariant View().FeedAll(buf[i..]) == old(View()).FeedAll(old(buf))
      {
        var b := buf[bufIdx];
        bufIdx := bufIdx + 1;
        assert buf[i..][0] == b && buf[i..][1..] == buf[i + 1..];
        DecodeByte(b);
        i := i + 1;
      }
      assert buf[i..] == [];
      err := OK;
    }

    method DecodeByte(b: byte)
      requires Valid() && View().Feed(b).Some?
      modifies this`state, this`stateRem, this`currentChannel, scratchBuf, dodBuf, ccs, block`samples
      ensures Valid()
      ensures Some(View()) == old(View()).Feed(b)
    {
      match state {
        case DOD => DecodeDod(b);
        case LARGE16 => DecodeLarge16(b);
        case VIRTUALBITS => DecodeVirtualBits(b);
        case Sample =>
      }
      if currentChannel == channels {
        var _ := EmitSample();
      }
    }

    method StoreResidual(d: i16)
      requires Valid() && currentChannel < channels
      modifies dodBuf, this`currentChannel
      ensures Valid()
      ensures View() == old(View()).(asm := old(View().asm).(dod := old(dodBuf[..])[old(currentChannel) := d],
        cur := old(currentChannel) + 1))
    {
      dodBuf[currentChannel] := d;
      currentChannel := currentChannel + 1;
    }

    /** The three byte handlers: what Parse does, and the residual stored but not yet emitted. */
    ghost predicate Stores(before: ReaderView, b: byte)
      requires Valid() && before.WellFormed()
      reads Repr
    {
      match before.parser.Parse(b)
      case (p, None) => View() == before.(parser := p)
      case (p, Some(d)) =>
        && before.asm.cur < before.asm.Channels()
        && View() == before.(parser := p,
          asm := before.asm.(dod := before.asm.dod[before.asm.cur := d], cur := before.asm.cur + 1))
    }

    method DecodeDod(b: byte)
      requires Valid() && state == DOD && View().Feed(b).Some?
      modifies this`state, this`stateRem, this`currentChannel, scratchBuf, dodBuf
      ensures Valid() && Stores(old(View()), b)
    {
      if b > VIRTUAL_BITS_END {
        if b == LARGE16_ESCAPE {
          state := LARGE16;
          stateRem := 2;
        }
      } else if b > VIRTUAL_BITS_START {
        state := VIRTUALBITS;
        stateRem := 1;
        scratchBuf[0] := b - VIRTUAL_BITS_START;
      } else {
        StoreResidual(Unzigzag(b));
      }
    }

    method DecodeLarge16(b: byte)
      requires Valid() && state == LARGE16 && View().Feed(b).Some?
      modifies this`state, this`stateRem, this`currentChannel, scratchBuf, dodBuf
      ensures Valid() && Stores(old(View()), b)
    {
      scratchBuf[2 - stateRem] := b;
      if stateRem == 1 {
        state, stateRem := DOD, 0;
        StoreResidual(Unzigzag(Word(scratchBuf[0], scratchBuf[1])));
      } else {
        stateRem := stateRem - 1;
      }
    }

    method DecodeVirtualBits(b: byte)
      requires Valid() && state == VIRTUALBITS && View().Feed(b).Some?
      modifies this`state, this`stateRem, this`currentChannel, scratchBuf, dodBuf
      ensures Valid() && Stores(old(View()), b)
    {
      scratchBuf[1] := b;
      state, stateRem := DOD, 0;
      StoreResidual(Unzigzag(Word(scratchBuf[0], scratchBuf[1])));
    }

    method ReadState(schIdx: nat) returns (cs: ChannelState)
      requires schIdx + 4 <= scratchBuf.Length
      ensures cs == StateAt(scratchBuf[..], schIdx)
    {
      var sample := Join16(scratchBuf[schIdx], scratchBuf[schIdx + 1]);
      var delta := Join16(scratchBuf[schIdx + 2], scratchBuf[schIdx + 3]);
      cs := ChannelState(sample, delta);
    }

    /** The loop of syncUpdate. */
    method LoadStates()
      requires Valid() && channels <= 14 && block.samples == []
      modifies ccs, block`samples
      ensures ccs[..] == StatesIn(scratchBuf[..], channels) && block.samples == SamplesOf(ccs[..])
    {
      ghost var carried := StatesIn(scratchBuf[..], channels);
      var schIdx := 4;
      var i := 0;
      while i < channels
        invariant 0 <= i <= channels && schIdx == 4 + 4 * i
        invariant block.samples == SamplesOf(carried)[..i]
        invariant forall j :: 0 <= j < i ==> ccs[j] == carried[j]
      {
        var cs := ReadState(schIdx);
        schIdx := schIdx + 4;
        block.samples := block.samples + [cs.sample];
        ccs[i] := cs;
        i := i + 1;
      }
      assert ccs[..] == carried;
    }

    method SyncUpdate() returns (err: Err)
      requires Valid() && inSync && View().SyncUpdate().Some?
      modifies this`state, ccs, block
      ensures Valid()
      ensures Some(View()) == old(View()).SyncUpdate()
      ensures err == if block.capacity == 0 then BAD_BLOCK else OK
    {
      block.counter := FromBigEndian32(scratchBuf[0], scratchBuf[1], scratchBuf[2], scratchBuf[3]);
      block.samples := [];
      if block.capacity == 0 { return BAD_BLOCK; }
      LoadStates();
      block.ready := false;
      state := DOD;
      err := OK;
    }

    method EmitSample() returns (err: Err)
      requires Valid()
      modifies this`currentChannel, ccs, block`samples
      ensures Valid()
      ensures View() == old(View()).(asm := old(View()).asm.Emit())
      ensures err == if old(View()).asm.Full() then BLOCK_FULL else OK
    {
      if block.capacity - |block.samples| < channels { return BLOCK_FULL; }
      ghost var before := View().asm;
      ghost var restored := RestoreAll(before.ccs, before.dod);
      var i := 0;
      while i < channels
        modifies ccs, block`samples
        invariant 0 <= i <= channels
        invariant block.samples == before.samples + SamplesOf(restored)[..i]
        invariant forall j :: 0 <= j < i ==> ccs[j] == restored[j]
        invariant forall j :: i <= j < channels ==> ccs[j] == before.ccs[j]
      {
        var sample := DodDecode(i, dodBuf[i]);
        assert sample == SamplesOf(restored)[i];
        block.samples := block.samples + [sample];
        i := i + 1;
      }
      assert ccs[..] == restored && block.samples == before.samples + SamplesOf(restored);
      currentChannel := 0;
      err := OK;
    }
  }
}
