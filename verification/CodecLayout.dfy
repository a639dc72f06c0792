/**
  What the bytes of the codec say, each by itself and without the functions that read
  them: the codes of a residual, the records, and the results of decode
  (fdlib/middleware/DAQCodec.h, lines 74-94, 153-176 and 323-399).
*/
module CodecLayout {
  import opened Words
  import opened DodCode
  import opened CodecReader
  import opened CodecWriter
  import opened CodecFollow

  /** Two bytes, high byte first. */
  function Pair(hi: int, lo: int): int {
    0x100 * hi + lo
  }

  /** A number in two's complement, high byte first. */
  predicate Bytes16(hi: byte, lo: byte, x: i16) {
    Pair(hi, lo) == if x < 0 then x + 0x1_0000 else x
  }

  /** Non-negative residuals are even and negative ones odd; the value is kept in one byte, 11 bits or 16 bits. */
  lemma CodeLayout(dod: i16)
    ensures var value := if dod < 0 then -2 * dod - 1 else 2 * dod; var code := Code(dod);
      && (|code| == 1 <==> -120 < dod < 120) && (|code| == 1 ==> code == [value])
      && (|code| == 2 <==> !(-120 < dod < 120) && value < 0x800)
      && (|code| == 2 ==> 240 <= code[0] <= 247 && Pair(code[0] as int - 240, code[1]) == value)
      && (|code| == 3 ==> code[0] == 0xFE && Pair(code[1], code[2]) == value)
  {
  }

  lemma HalvesLayout(x: i16)
    ensures Bytes16(Hi(x), Lo(x), x)
  {
  }

  lemma StatesLayout(ccs: seq<ChannelState>, i: nat)
    requires i < |ccs|
    ensures var b := StateBytes(ccs);
      Bytes16(b[4 * i], b[4 * i + 1], ccs[i].sample) && Bytes16(b[4 * i + 2], b[4 * i + 3], ccs[i].delta)
  {
    StateBytesAt(ccs, i);
    HalvesLayout(ccs[i].sample);
    HalvesLayout(ccs[i].delta);
  }

  /** A resync record: its code, the counter, and for each channel its last sample and difference. */
  lemma RecordLayout(counter: u32, ccs: seq<ChannelState>, i: nat)
    requires i < |ccs|
    ensures var r := ResyncRecord(counter, ccs);
      && |r| == 5 + 4 * |ccs| && r[0] == 0xFF
      && Pair(Pair(Pair(r[1], r[2]), r[3]), r[4]) == counter
      && Bytes16(r[5 + 4 * i], r[6 + 4 * i], ccs[i].sample) && Bytes16(r[7 + 4 * i], r[8 + 4 * i], ccs[i].delta)
  {
    StatesLayout(ccs, i);
    var b := StateBytes(ccs);
    assert ResyncRecord(counter, ccs)[5..] == b;
  }

  /** A control segment the reader takes: a resync record of its size that fits the scratch buffer, or a flush. */
  predicate Takes(seg: seq<byte>, channels: nat) {
    seg != [] && if seg[0] == 0xFF then |seg| == 5 + 4 * channels <= 64 else seg[0] == 0xFE
  }

  /** What decode refuses, with which result; a pending update aside, a refused segment changes nothing. */
  lemma RefusedExactly(r: ReaderView, seg: seq<byte>, kind: StreamType, past: byte)
    requires r.WellFormed() && r.Decode(seg, kind, past).Some?
    ensures var (v, err) := r.Decode(seg, kind, past).value;
      && (err == OK <==> seg == [] || if kind == Control then Takes(seg, r.asm.Channels()) else r.inSync)
      && (err == NEED_SYNC <==> seg != [] && kind == Samples && !r.inSync)
      && (err == RESYNCDOD_BAD <==> seg != [] && kind == Control && seg[0] == 0xFF && !Takes(seg, r.asm.Channels()))
      && (err != OK ==> r.Settle() == Some(v))
  {
  }
}
