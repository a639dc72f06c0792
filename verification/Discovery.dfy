/**
  The discovery handshake: a device numbers its session, streams and channels and sends
  one record for each (fdlib/middleware/DAQStream.cpp), and the host rebuilds the tree
  from the fields it reads (ForgeTool/DAQSessionAPP.h).

  `Entries` lists what a device has to say, in the order sent; `HostAll` is what the
  host's handlers do to its map of objects. module DiscoveryTree puts the two together.
*/
module Discovery {
  import opened Words
  import opened Idv

  const ID := 0
  const PARENT_ID := 1
  const META := 2
  const STREAM_COUNT := 3
  const CHANNEL_COUNT := 4
  const SAMPLETIME := 5
  const TICKS := 6
  const SCALE := 7
  const OFFSET := 8
  const MARKER := 0xff

  const DISCOVER_REP := 1
  const SESSION := 2
  const STREAM := 3
  const CHANNEL := 4

  // ---------- what a device says ----------

  /** Names of at most 255 bytes; numbers as the bytes copied out of memory. */
  datatype ChannelInfo = ChannelInfo(meta: seq<byte>, scale: seq<byte>, offset: seq<byte>)

  datatype StreamInfo = StreamInfo(meta: seq<byte>, ticks: seq<byte>, sampleTime: seq<byte>, channels: seq<ChannelInfo>)

  predicate ChannelOk(c: ChannelInfo) {
    |c.meta| < 0x100 && |c.scale| == 4 && |c.offset| == 4
  }

  ghost predicate StreamOk(s: StreamInfo) {
    |s.meta| < 0x100 && |s.ticks| == 4 && |s.sampleTime| == 4 && forall x :: 0 <= x < |s.channels| ==>
      ChannelOk(s.channels[x])
  }

  ghost predicate StreamsOk(ss: seq<StreamInfo>) {
    forall i :: 0 <= i < |ss| ==> StreamOk(ss[i])
  }

  /** What one byte keeps of a count. */
  function Wrap(n: nat): byte {
    if n < 0x100 then n else Wrap(n - 0x100)
  }

  /** A byte counted up by one. */
  function Next(b: byte): byte {
    if b == 0xff then 0 else b + 1
  }

  lemma {:induction false} WrapNext(n: nat)
    ensures Wrap(n + 1) == Next(Wrap(n))
    decreases n
  {
    if n >= 0x100 {
      WrapNext(n - 0x100);
    }
  }

  /** One node of the tree as sent: its marker, its own and its parent's id, its name and its other fields. */
  datatype Entry = Entry(marker: byte, id: byte, pid: byte, meta: seq<byte>, extras: seq<Field>)

  function SessionEntry(meta: seq<byte>, ss: seq<StreamInfo>): Entry {
    Entry(SESSION, 0, 0, meta, [Field(STREAM_COUNT, [Wrap(|ss|)])])
  }

  function StreamEntry(s: StreamInfo, id: byte): Entry {
    Entry(STREAM, id, 0, s.meta,
      [Field(CHANNEL_COUNT, [Wrap(|s.channels|)]), Field(SAMPLETIME, s.sampleTime), Field(TICKS, s.ticks)])
  }

  function ChannelEntry(c: ChannelInfo, id: byte, pid: byte): Entry {
    Entry(CHANNEL, id, pid, c.meta, [Field(SCALE, c.scale), Field(OFFSET, c.offset)])
  }

  /** The number of nodes before stream n. */
  function Before(ss: seq<StreamInfo>, n: nat): nat
    requires n <= |ss|
  {
    if n == 0 then 1 else Before(ss, n - 1) + 1 + |ss[n - 1].channels|
  }

  function ChannelEntries(cs: seq<ChannelInfo>, n: nat, first: nat, pid: byte): (es: seq<Entry>)
    requires n <= |cs|
    ensures |es| == n
  {
    if n == 0 then [] else ChannelEntries(cs, n - 1, first, pid) + [ChannelEntry(cs[n - 1], Wrap(first + n - 1), pid)]
  }

  /** A stream and its channels, numbered from `at`. */
  function Part(s: StreamInfo, at: nat): (es: seq<Entry>)
    ensures |es| == 1 + |s.channels|
  {
    [StreamEntry(s, Wrap(at))] + ChannelEntries(s.channels, |s.channels|, at + 1, Wrap(at))
  }

  function StreamEntries(ss: seq<StreamInfo>, n: nat): (es: seq<Entry>)
    requires n <= |ss|
    ensures |es| == Before(ss, n) - 1
  {
    if n == 0 then [] else StreamEntries(ss, n - 1) + Part(ss[n - 1], Before(ss, n - 1))
  }

  function Entries(meta: seq<byte>, ss: seq<StreamInfo>): (es: seq<Entry>)
    ensures |es| == Before(ss, |ss|)
  {
    [SessionEntry(meta, ss)] + StreamEntries(ss, |ss|)
  }

  /** Nothing a record may not hold: short fields, and other ids than those of the fixed part. */
  ghost predicate EntryOk(e: Entry) {
    && |e.meta| < 0x100 && e.marker < 0x80 && e.marker != DISCOVER_REP
    && forall i :: 0 <= i < |e.extras| ==> Short(e.extras[i]) && 2 < e.extras[i].id < MARKER
  }

  function Record(e: Entry): seq<Field> {
    [Field(MARKER, [e.marker]), Field(ID, [e.id]), Field(PARENT_ID, [e.pid]), Field(META, e.meta)] + e.extras
    + [Field(MARKER, [if e.marker < 0x80 then e.marker + 0x80 else e.marker])]
  }

  lemma RecordShort(e: Entry)
    requires EntryOk(e)
    ensures AllShort(Record(e))
  {
  }

  lemma {:induction false} ChannelNumbers(cs: seq<ChannelInfo>, n: nat, first: nat, pid: byte, x: nat)
    requires x < n <= |cs|
    ensures ChannelEntries(cs, n, first, pid)[x] == ChannelEntry(cs[x], Wrap(first + x), pid)
    decreases n
  {
    if x < n - 1 {
      ChannelNumbers(cs, n - 1, first, pid, x);
    }
  }

  /** Node x of stream i: the stream itself, or its channel x - 1. */
  function Node(ss: seq<StreamInfo>, i: nat, x: nat): Entry
    requires i < |ss| && x <= |ss[i].channels|
  {
    if x == 0 then StreamEntry(ss[i], Wrap(Before(ss, i)))
    else ChannelEntry(ss[i].channels[x - 1], Wrap(Before(ss, i) + x), Wrap(Before(ss, i)))
  }

  /** Which node comes at a place in the order sent. */
  lemma {:induction false} NodeAt(ss: seq<StreamInfo>, n: nat, k: nat) returns (i: nat, x: nat)
    requires n <= |ss| && k < Before(ss, n) - 1
    ensures i < n && x <= |ss[i].channels| && k + 1 == Before(ss, i) + x && StreamEntries(ss, n)[k] == Node(ss, i, x)
    decreases n
  {
    var at := Before(ss, n - 1);
    if k < at - 1 {
      i, x := NodeAt(ss, n - 1, k);
    } else {
      i, x := n - 1, k + 1 - at;
      if x > 0 {
        ChannelNumbers(ss[i].channels, |ss[i].channels|, at + 1, Wrap(at), x - 1);
      }
    }
  }

  /** Every node is numbered by its place in the order sent. */
  lemma Numbers(ss: seq<StreamInfo>, n: nat, k: nat)
    requires n <= |ss| && k < Before(ss, n) - 1
    ensures StreamEntries(ss, n)[k].id == Wrap(k + 1)
  {
    var i, x := NodeAt(ss, n, k);
  }

  lemma EntryNumbers(meta: seq<byte>, ss: seq<StreamInfo>, k: nat)
    requires k < Before(ss, |ss|)
    ensures Entries(meta, ss)[k].id == Wrap(k)
  {
    if k > 0 {
      Numbers(ss, |ss|, k - 1);
    }
  }

  lemma StreamEntriesOk(ss: seq<StreamInfo>, n: nat, k: nat)
    requires StreamsOk(ss) && n <= |ss| && k < Before(ss, n) - 1
    ensures EntryOk(StreamEntries(ss, n)[k])
  {
    var i, x := NodeAt(ss, n, k);
    assert StreamOk(ss[i]);
  }

  lemma EntriesOk(meta: seq<byte>, ss: seq<StreamInfo>)
    requires |meta| < 0x100 && StreamsOk(ss)
    ensures forall k :: 0 <= k < |Entries(meta, ss)| ==> EntryOk(Entries(meta, ss)[k])
  {
    forall k | 0 <= k < |Entries(meta, ss)|
      ensures EntryOk(Entries(meta, ss)[k])
    {
      if k > 0 {
        StreamEntriesOk(ss, |ss|, k - 1);
      }
    }
  }

  // ---------- what the host makes of it ----------

  datatype Object = Object(pid: byte, marker: byte, fields: map<byte, seq<byte>>)

  /** The map and the fields that follow the record being read. */
  datatype Host = Host(objects: map<byte, Object>, mark: byte, id: byte, pid: byte, hasId: bool)

  /** `objects[id]` makes an empty object where there is none. */
  function At(objects: map<byte, Object>, id: byte): Object {
    if id in objects then objects[id] else Object(0, 0, map[])
  }

  function OnMark(h: Host, marker: byte, entry: bool): Host {
    if marker == DISCOVER_REP then h
    else if entry then h.(mark := marker, hasId := false)
    else h.(hasId := false)
  }

  function Set(o: Object, id: byte, value: seq<byte>): Object {
    o.(fields := o.fields[id := value])
  }

  /** `as<uint8_t>` leaves its target alone unless the value is one byte. */
  function AsByte(f: Field, otherwise: byte): byte {
    if |f.value| == 1 then f.value[0] else otherwise
  }

  function OnField(h: Host, f: Field): Host {
    if f.id == ID then
      var id := AsByte(f, h.id);
      h.(hasId := true, id := id, objects := h.objects[id := Set(At(h.objects, id), ID, [id]).(marker := h.mark)])
    else if f.id == PARENT_ID then
      var pid := AsByte(f, h.pid);
      var g := h.(pid := pid);
      if h.hasId then
        g.(objects := h.objects[h.id := Set(At(h.objects, h.id), PARENT_ID, [pid]).(marker := h.mark, pid := pid)])
      else g
    else if h.hasId then
      h.(objects := h.objects[h.id := Set(At(h.objects, h.id), f.id, f.value)])
    else h
  }

  /** One turn of the loop in Session::process. */
  function HostStep(h: Host, f: Field): Host {
    if f.id == MARKER then
      var m := AsByte(f, 0xff);
      OnMark(h, if m < 0x80 then m else m - 0x80, m < 0x80)
    else OnField(h, f)
  }

  function HostAll(h: Host, fs: seq<Field>): Host
    decreases |fs|
  {
    if fs == [] then h else HostAll(HostStep(h, fs[0]), fs[1..])
  }

  lemma {:induction false} HostConcat(h: Host, a: seq<Field>, b: seq<Field>)
    ensures HostAll(h, a + b) == HostAll(HostAll(h, a), b)
    decreases |a|
  {
    if a == [] {
      assert a + b == b;
    } else {
      assert (a + b)[1..] == a[1..] + b;
      HostConcat(HostStep(h, a[0]), a[1..], b);
    }
  }

  function SetAll(o: Object, fs: seq<Field>): Object
    decreases |fs|
  {
    if fs == [] then o else SetAll(Set(o, fs[0].id, fs[0].value), fs[1..])
  }

  /** The object a record leaves behind. */
  function Rebuilt(o: Object, e: Entry): Object {
    SetAll(Set(Set(Set(o, ID, [e.id]), PARENT_ID, [e.pid]), META, e.meta).(marker := e.marker, pid := e.pid), e.extras)
  }

  lemma {:induction false} ExtrasSet(h: Host, fs: seq<Field>)
    requires h.hasId && h.id in h.objects
    requires forall i :: 0 <= i < |fs| ==> 2 < fs[i].id < MARKER
    ensures HostAll(h, fs) == h.(objects := h.objects[h.id := SetAll(h.objects[h.id], fs)])
    decreases |fs|
  {
    if fs == [] {
      assert h.objects == h.objects[h.id := h.objects[h.id]];
    } else {
      var g := HostStep(h, fs[0]);
      ExtrasSet(g, fs[1..]);
      assert g.objects[h.id := SetAll(g.objects[h.id], fs[1..])] == h.objects[h.id := SetAll(h.objects[h.id], fs)];
    }
  }

  /** The fixed part of a record, whatever the host was doing before. */
  lemma HeadSet(h: Host, e: Entry)
    requires EntryOk(e)
    ensures var g := HostAll(h,
      [Field(MARKER, [e.marker]), Field(ID, [e.id]), Field(PARENT_ID, [e.pid]), Field(META, e.meta)]);
      g == Host(h.objects[e.id := Set(Set(Set(At(h.objects, e.id), ID, [e.id]), PARENT_ID, [e.pid]), META, e.meta)
        .(marker := e.marker, pid := e.pid)],
                e.marker, e.id, e.pid, true)
  {
    var a, b, c, d := Field(MARKER, [e.marker]), Field(ID, [e.id]), Field(PARENT_ID, [e.pid]), Field(META, e.meta);
    var h1 := HostStep(h, a);
    var h2 := HostStep(h1, b);
    var h3 := HostStep(h2, c);
    var h4 := HostStep(h3, d);
    assert [a, b, c, d][1..] == [b, c, d] && [b, c, d][1..] == [c, d] && [c, d][1..] == [d] && [d][1..] == [];
    assert HostAll(h, [a, b, c, d]) == HostAll(h1, [b, c, d]) == HostAll(h2, [c, d]) == HostAll(h3, [d]) ==
      HostAll(h4, []) == h4;
    assert h4.objects == h.objects[e.id := h4.objects[e.id]];
  }

  /** A record changes the object with its id, and that object only. */
  lemma RecordRebuilds(h: Host, e: Entry)
    requires EntryOk(e)
    ensures HostAll(h, Record(e)) ==
      Host(h.objects[e.id := Rebuilt(At(h.objects, e.id), e)], e.marker, e.id, e.pid, false)
  {
    var head := [Field(MARKER, [e.marker]), Field(ID, [e.id]), Field(PARENT_ID, [e.pid]), Field(META, e.meta)];
    var tail := [Field(MARKER, [e.marker + 0x80])];
    var g := HostAll(h, head);
    HeadSet(h, e);
    ExtrasSet(g, e.extras);
    HostConcat(h, head, e.extras);
    HostConcat(h, head + e.extras, tail);
    assert tail[1..] == [];
    assert g.objects[e.id := Rebuilt(At(h.objects, e.id), e)] == h.objects[e.id := Rebuilt(At(h.objects, e.id), e)];
  }

  // ---------- the whole handshake ----------

  ghost predicate AllOk(es: seq<Entry>) {
    forall k :: 0 <= k < |es| ==> EntryOk(es[k])
  }

  /** One record of bytes for each entry. */
  ghost function Encoded(es: seq<Entry>): (rs: seq<seq<byte>>)
    requires AllOk(es)
    ensures |rs| == |es|
  {
    if es == [] then [] else
      RecordShort(es[|es| - 1]);
      Encoded(es[..|es| - 1]) + [EncodeAll(Record(es[|es| - 1]))]
  }

  function MarkRecord(marker: byte): seq<byte> {
    EncodeAll([Field(MARKER, [marker])])
  }

  /** Everything discovery_respond sends. */
  ghost function Response(meta: seq<byte>, ss: seq<StreamInfo>): seq<seq<byte>>
    requires |meta| < 0x100 && StreamsOk(ss)
  {
    EntriesOk(meta, ss);
    [MarkRecord(DISCOVER_REP)] + Encoded(Entries(meta, ss)) + [MarkRecord(DISCOVER_REP + 0x80)]
  }

  /** The host handles each record as it arrives. */
  function Receive(h: Host, records: seq<seq<byte>>): Host {
    if records == [] then h else HostAll(Receive(h, records[..|records| - 1]), Parse(records[|records| - 1], 0))
  }

  lemma ReceiveSnoc(h: Host, records: seq<seq<byte>>, r: seq<byte>)
    ensures Receive(h, records + [r]) == HostAll(Receive(h, records), Parse(r, 0))
  {
    assert (records + [r])[..|records|] == records;
  }

  lemma {:induction false} ReceiveConcat(h: Host, a: seq<seq<byte>>, b: seq<seq<byte>>)
    ensures Receive(h, a + b) == Receive(Receive(h, a), b)
    decreases |b|
  {
    if b == [] {
      assert a + b == a;
    } else {
      ReceiveConcat(h, a, b[..|b| - 1]);
      assert a + b == (a + b[..|b| - 1]) + [b[|b| - 1]];
      ReceiveSnoc(h, a + b[..|b| - 1], b[|b| - 1]);
    }
  }

  ghost predicate DistinctIds(es: seq<Entry>) {
    forall j, k :: 0 <= j < k < |es| ==> es[j].id != es[k].id
  }

  /** Each entry's object is rebuilt. */
  ghost predicate EachRebuilt(before: map<byte, Object>, after: map<byte, Object>, es: seq<Entry>) {
    forall k :: 0 <= k < |es| ==> es[k].id in after && after[es[k].id] == Rebuilt(At(before, es[k].id), es[k])
  }

  /** An object that is none of the entries' is as it was. */
  ghost predicate OthersKept(before: map<byte, Object>, after: map<byte, Object>, es: seq<Entry>) {
    forall id :: (forall k :: 0 <= k < |es| ==> es[k].id != id) ==>
      (id in after <==> id in before) && (id in after ==> after[id] == before[id])
  }

  ghost predicate RebuiltAll(before: map<byte, Object>, after: map<byte, Object>, es: seq<Entry>) {
    EachRebuilt(before, after, es) && OthersKept(before, after, es)
  }

  lemma LastIsNew(es: seq<Entry>, e: Entry)
    requires DistinctIds(es + [e])
    ensures forall k :: 0 <= k < |es| ==> es[k].id != e.id
  {
    var all := es + [e];
    assert forall k :: 0 <= k < |es| ==> all[k].id != all[|es|].id && all[k] == es[k];
  }

  lemma OneMore(before: map<byte, Object>, mid: map<byte, Object>, es: seq<Entry>, e: Entry)
    requires RebuiltAll(before, mid, es) && DistinctIds(es + [e])
    ensures RebuiltAll(before, mid[e.id := Rebuilt(At(mid, e.id), e)], es + [e])
  {
    LastIsNew(es, e);
    assert At(mid, e.id) == At(before, e.id);
    OneMoreRebuilt(before, mid, es, e);
    OneMoreKept(before, mid, es, e, Rebuilt(At(mid, e.id), e));
  }

  lemma OneMoreRebuilt(before: map<byte, Object>, mid: map<byte, Object>, es: seq<Entry>, e: Entry)
    requires EachRebuilt(before, mid, es) && forall k :: 0 <= k < |es| ==> es[k].id != e.id
    ensures EachRebuilt(before, mid[e.id := Rebuilt(At(before, e.id), e)], es + [e])
  {
  }

  lemma OneMoreKept(before: map<byte, Object>, mid: map<byte, Object>, es: seq<Entry>, e: Entry, o: Object)
    requires OthersKept(before, mid, es)
    ensures OthersKept(before, mid[e.id := o], es + [e])
  {
    forall id | forall k :: 0 <= k < |es + [e]| ==> (es + [e])[k].id != id
      ensures (id in mid[e.id := o] <==> id in before) && (id in mid[e.id := o] ==> mid[e.id := o][id] == before[id])
    {
      Untouched(es, e, id);
    }
  }

  lemma Untouched(es: seq<Entry>, e: Entry, id: byte)
    requires forall k :: 0 <= k < |es + [e]| ==> (es + [e])[k].id != id
    ensures id != e.id && forall k :: 0 <= k < |es| ==> es[k].id != id
  {
    assert (es + [e])[|es|] == e;
    assert forall k :: 0 <= k < |es| ==> es[k] == (es + [e])[k];
  }

  lemma {:induction false} EntriesRebuild(h: Host, es: seq<Entry>)
    requires AllOk(es) && DistinctIds(es)
    ensures RebuiltAll(h.objects, Receive(h, Encoded(es)).objects, es)
    decreases |es|
  {
    if es != [] {
      var init, e := es[..|es| - 1], es[|es| - 1];
      assert es == init + [e];
      EntriesRebuild(h, init);
      RecordShort(e);
      ParseEncode(Record(e));
      ReceiveSnoc(h, Encoded(init), EncodeAll(Record(e)));
      RecordRebuilds(Receive(h, Encoded(init)), e);
      OneMore(h.objects, Receive(h, Encoded(init)).objects, init, e);
    }
  }

  lemma MarkIgnored(h: Host, marker: byte)
    requires marker == DISCOVER_REP || marker == DISCOVER_REP + 0x80
    ensures HostAll(h, Parse(MarkRecord(marker), 0)) == h
  {
    ParseEncode([Field(MARKER, [marker])]);
    assert [Field(MARKER, [marker])][1..] == [];
  }

  // ---------- the host as written ----------

  class HostSession {
    var objects: map<byte, Object>
    var mark: byte
    var id: byte
    var pid: byte
    var hasId: bool

    function View(): Host
      reads this
    {
      Host(objects, mark, id, pid, hasId)
    }

    constructor ()
      ensures View() == Host(map[], 0, 0, 0, false)
    {
      objects, mark, id, pid, hasId := map[], 0, 0, 0, false;
    }

    method HandleMark(marker: byte, entry: bool)
      modifies this
      ensures View() == OnMark(old(View()), marker, entry)
    {
      if marker == DISCOVER_REP {
        return;
      }
      if entry {
        mark := marker;
      }
      hasId := false;
    }

    method HandleField(reader: Reader, ghost f: Field)
      requires reader.value + reader.len <= |reader.buf| && f == reader.Current() && f.id != MARKER
      modifies this
      ensures View() == OnField(old(View()), f)
    {
      var ok;
      if reader.id == ID {
        hasId := true;
        id, ok := reader.AsUint8(f, id);
        objects := objects[id := Set(At(objects, id), ID, [id]).(marker := mark)];
      } else if reader.id == PARENT_ID {
        pid, ok := reader.AsUint8(f, pid);
        if hasId {
          objects := objects[id := Set(At(objects, id), PARENT_ID, [pid]).(marker := mark, pid := pid)];
        }
      } else if hasId {
        objects := objects[id := Set(At(objects, id), reader.id, reader.buf[reader.value..reader.value + reader.len])];
      }
    }

    /** Session::process on one record. */
    method Process(record: seq<byte>)
      requires |record| < 0x1_0000
      modifies this
      ensures View() == HostAll(old(View()), Parse(record, 0))
    {
      var reader := new Reader(record);
      reader.Reset();
      ghost var fs := reader.Rest();
      var more := reader.Next();
      while more
        invariant fresh(reader) && reader.buf == record
        invariant HostAll(View(), fs) == HostAll(old(View()), Parse(record, 0))
        invariant more <==> fs != []
        invariant more ==> reader.value + reader.len <= |record| && fs == [reader.Current()] + reader.Rest()
        decreases |fs|
      {
        ghost var f := reader.Current();
        assert fs[0] == f && fs[1..] == reader.Rest();
        if reader.id == MARKER {
          var marker, ok := reader.AsUint8(f, 0xff);
          HandleMark(if marker < 0x80 then marker else marker - 0x80, marker < 0x80);
        } else {
          HandleField(reader, f);
        }
        fs := reader.Rest();
        more := reader.Next();
      }
    }
  }

  // ---------- the device as written ----------

  class Stream {
    const info: StreamInfo
    var id: byte
    const channelIds: array<byte>

    constructor (info: StreamInfo)
      ensures this.info == info && channelIds.Length == |info.channels| && fresh(channelIds)
    {
      this.info := info;
      id := 0;
      channelIds := new byte[|info.channels|];
    }
  }

  /** The writer holds these fields. */
  ghost predicate Wrote(w: Writer, fs: seq<Field>)
    reads w, w.buf
  {
    w.Valid() && AllShort(fs) && w.Contents() == EncodeAll(fs)
  }

  /** One `add` that fits. */
  method Put(w: Writer, id: byte, value: seq<byte>, ghost fs: seq<Field>)
    requires Wrote(w, fs) && |value| < 0x100 && w.idx + 2 + |value| <= w.buf.Length
    modifies w`idx, w.buf
    ensures Wrote(w, fs + [Field(id, value)]) && w.idx == old(w.idx) + 2 + |value|
  {
    var full := w.Add(id, value);
    EncodeSnoc(fs, Field(id, value));
  }

  method SerializeSession(w: Writer, meta: seq<byte>, count: byte, id: byte, parentId: byte, ghost e: Entry)
    requires Wrote(w, []) && |meta| < 0x100 && 17 + |meta| <= w.buf.Length
    requires e == Entry(SESSION, id, parentId, meta, [Field(STREAM_COUNT, [count])])
    modifies w`idx, w.buf
    ensures Wrote(w, Record(e))
  {
    ghost var fs := Head(e);
    PutHead(w, SESSION, id, parentId, meta, e);
    Put(w, STREAM_COUNT, [count], fs);
    fs := fs + [Field(STREAM_COUNT, [count])];
    Put(w, MARKER, [SESSION + 0x80], fs);
    assert fs + [Field(MARKER, [SESSION + 0x80])] == Record(e);
  }

  method SerializeStream(w: Writer, s: StreamInfo, id: byte, parentId: byte, ghost e: Entry)
    requires Wrote(w, []) && StreamOk(s) && 29 + |s.meta| <= w.buf.Length
    requires e == StreamEntry(s, id).(pid := parentId)
    modifies w`idx, w.buf
    ensures Wrote(w, Record(e))
  {
    ghost var fs := Head(e);
    PutHead(w, STREAM, id, parentId, s.meta, e);
    Put(w, CHANNEL_COUNT, [Wrap(|s.channels|)], fs);
    fs := fs + [Field(CHANNEL_COUNT, [Wrap(|s.channels|)])];
    Put(w, SAMPLETIME, s.sampleTime, fs);
    fs := fs + [Field(SAMPLETIME, s.sampleTime)];
    Put(w, TICKS, s.ticks, fs);
    fs := fs + [Field(TICKS, s.ticks)];
    Put(w, MARKER, [STREAM + 0x80], fs);
    assert fs + [Field(MARKER, [STREAM + 0x80])] == Record(e);
  }

  method SerializeChannel(w: Writer, c: ChannelInfo, id: byte, parentId: byte, ghost e: Entry)
    requires Wrote(w, []) && ChannelOk(c) && 26 + |c.meta| <= w.buf.Length
    requires e == ChannelEntry(c, id, parentId)
    modifies w`idx, w.buf
    ensures Wrote(w, Record(e))
  {
    ghost var fs := Head(e);
    PutHead(w, CHANNEL, id, parentId, c.meta, e);
    Put(w, SCALE, c.scale, fs);
    fs := fs + [Field(SCALE, c.scale)];
    Put(w, OFFSET, c.offset, fs);
    fs := fs + [Field(OFFSET, c.offset)];
    Put(w, MARKER, [CHANNEL + 0x80], fs);
    assert fs + [Field(MARKER, [CHANNEL + 0x80])] == Record(e);
  }

  /** The part every record starts with. */
  function Head(e: Entry): seq<Field> {
    [Field(MARKER, [e.marker]), Field(ID, [e.id]), Field(PARENT_ID, [e.pid]), Field(META, e.meta)]
  }

  method PutHead(w: Writer, marker: byte, id: byte, parentId: byte, meta: seq<byte>, ghost e: Entry)
    requires Wrote(w, []) && |meta| < 0x100 && 11 + |meta| <= w.buf.Length
    requires e.marker == marker && e.id == id && e.pid == parentId && e.meta == meta
    modifies w`idx, w.buf
    ensures Wrote(w, Head(e)) && w.idx == 11 + |meta|
  {
    ghost var fs := [];
    Put(w, MARKER, [marker], fs);
    fs := fs + [Field(MARKER, [marker])];
    Put(w, ID, [id], fs);
    fs := fs + [Field(ID, [id])];
    Put(w, PARENT_ID, [parentId], fs);
    fs := fs + [Field(PARENT_ID, [parentId])];
    Put(w, META, meta, fs);
    assert fs + [Field(META, meta)] == Head(e);
  }

  /** A stream and its channels have the numbers that follow `at`. */
  ghost predicate Numbered(s: Stream, at: nat)
    reads s, s.channelIds
  {
    s.id == Wrap(at) && forall x :: 0 <= x < s.channelIds.Length ==> s.channelIds[x] == Wrap(at + 1 + x)
  }

  /** The inner loop of annonate. */
  method NumberStream(s: Stream, cid0: byte, ghost at: nat) returns (cid: byte)
    requires cid0 == Wrap(at)
    modifies s`id, s.channelIds
    ensures Numbered(s, at) && cid == Wrap(at + 1 + s.channelIds.Length)
  {
    s.id := cid0;
    cid := Next(cid0);
    WrapNext(at);
    var x := 0;
    while x < s.channelIds.Length
      invariant 0 <= x <= s.channelIds.Length && cid == Wrap(at + 1 + x) && s.id == Wrap(at)
      invariant forall y :: 0 <= y < x ==> s.channelIds[y] == Wrap(at + 1 + y)
    {
      s.channelIds[x] := cid;
      cid := Next(cid);
      WrapNext(at + 1 + x);
      x := x + 1;
    }
  }

  predicate Pick(streams: seq<Stream>, i: int) {
    0 <= i < |streams|
  }

  ghost predicate Separate(streams: seq<Stream>) {
    forall i, j {:trigger Pick(streams, i), Pick(streams, j)} :: Pick(streams, i) && Pick(streams, j) && i != j ==>
      streams[i] != streams[j] && streams[i].channelIds != streams[j].channelIds
  }

  lemma SeparateFrom(streams: seq<Stream>, i: int)
    requires Separate(streams) && 0 <= i < |streams|
    ensures forall j :: 0 <= j < |streams| && j != i ==>
      streams[j] != streams[i] && streams[j].channelIds != streams[i].channelIds
  {
    forall j | 0 <= j < |streams| && j != i
      ensures streams[j] != streams[i] && streams[j].channelIds != streams[i].channelIds
    {
      assert Pick(streams, i) && Pick(streams, j);
    }
  }

  /** The stream described, with an id for each channel, and every record of it fits the buffer. */
  ghost predicate Described(s: Stream, info: StreamInfo, size: nat) {
    && s.info == info && s.channelIds.Length == |info.channels| && StreamOk(info) && 29 + |info.meta| <= size
    && forall x :: 0 <= x < |info.channels| ==> 26 + |info.channels[x].meta| <= size
  }

  /** The streams are those described, and no two share an object or a span of channels. */
  ghost predicate Device(streams: seq<Stream>, ss: seq<StreamInfo>, size: nat) {
    && |streams| == |ss| && Separate(streams)
    && forall i {:trigger Pick(streams, i)} :: Pick(streams, i) ==> Described(streams[i], ss[i], size)
  }

  /** What has been sent since `start` is the records of these entries. */
  ghost predicate Said(start: seq<seq<byte>>, sent: seq<seq<byte>>, es: seq<Entry>) {
    AllOk(es) && sent == start + Encoded(es)
  }

  /** The first n streams are numbered in the order of the tree. */
  ghost predicate NumberedTo(streams: seq<Stream>, ss: seq<StreamInfo>, n: nat)
    requires n <= |streams| && n <= |ss|
    reads streams, set s | s in streams :: s.channelIds
  {
    forall i: nat {:trigger Pick(streams, i)} :: Pick(streams, i) && i < n ==> Numbered(streams[i], Before(ss, i))
  }

  lemma EncodedSnoc(es: seq<Entry>, e: Entry)
    requires AllOk(es) && EntryOk(e)
    ensures AllOk(es + [e]) && AllShort(Record(e)) && Encoded(es + [e]) == Encoded(es) + [EncodeAll(Record(e))]
  {
    RecordShort(e);
    assert (es + [e])[..|es|] == es;
  }

  lemma ChannelEntryOk(c: ChannelInfo, id: byte, pid: byte)
    requires ChannelOk(c)
    ensures EntryOk(ChannelEntry(c, id, pid))
  {
  }

  lemma StreamEntryOk(s: StreamInfo, id: byte)
    requires StreamOk(s)
    ensures EntryOk(StreamEntry(s, id))
  {
  }

  lemma ResponseParts(before: seq<seq<byte>>, a: seq<byte>, es: seq<seq<byte>>, b: seq<byte>)
    ensures before + [a] + es + [b] == before + ([a] + es + [b])
  {
  }

  class Session {
    const writer: Writer
    const meta: seq<byte>
    const streams: seq<Stream>
    ghost const infos: seq<StreamInfo>
    ghost const spans: set<array<byte>>
    var id: byte
    ghost var sent: seq<seq<byte>>

    ghost predicate Valid()
      reads this, writer
    {
      writer.Valid() && |meta| < 0x100 && 17 + |meta| <= writer.buf.Length
      && StreamsOk(infos) && Device(streams, infos, writer.buf.Length)
      && (forall i {:trigger Pick(streams, i)} :: Pick(streams, i) ==> streams[i].channelIds in spans)
    }

    constructor (meta: seq<byte>, buf: array<byte>, streams: seq<Stream>, ghost infos: seq<StreamInfo>)
      requires |meta| < 0x100 && 17 + |meta| <= buf.Length < 0x1_0000 && StreamsOk(infos)
        && Device(streams, infos, buf.Length)
      ensures Valid() && this.meta == meta && this.streams == streams && this.infos == infos && writer.buf == buf
        && sent == []
    {
      writer := new Writer(buf);
      this.meta, this.streams, this.infos := meta, streams, infos;
      spans := set i | 0 <= i < |streams| :: streams[i].channelIds;
      id, sent := 0, [];
    }

    /** annonate: every node numbered in the order of the tree. */
    method Annotate()
      requires Valid()
      modifies this`id, streams, spans
      ensures id == 0 && NumberedTo(streams, infos, |streams|)
    {
      id := 0;
      var cid := 1;
      var i := 0;
      while i < |streams|
        invariant 0 <= i <= |streams| && cid == Wrap(Before(infos, i))
        invariant NumberedTo(streams, infos, i)
        modifies streams, spans
      {
        assert Pick(streams, i);
        cid := NumberNext(i, cid);
        i := i + 1;
      }
    }

    method NumberNext(i: nat, cid0: byte) returns (cid: byte)
      requires |streams| == |infos| && Separate(streams) && i < |streams|
        && streams[i].channelIds.Length == |infos[i].channels|
      requires cid0 == Wrap(Before(infos, i)) && NumberedTo(streams, infos, i)
      modifies streams[i], streams[i].channelIds
      ensures cid == Wrap(Before(infos, i + 1)) && NumberedTo(streams, infos, i + 1)
    {
      SeparateFrom(streams, i);
      cid := NumberStream(streams[i], cid0, Before(infos, i));
    }

    /** `send`, here a log of the records sent, and the reset that always follows. */
    method Send(ghost fs: seq<Field>)
      requires Wrote(writer, fs)
      modifies this`sent, writer`idx
      ensures sent == old(sent) + [EncodeAll(fs)] && Wrote(writer, [])
    {
      sent := sent + [writer.Contents()];
      writer.Reset();
    }

    method SendMark(marker: byte)
      requires Wrote(writer, []) && 3 <= writer.buf.Length
      modifies this`sent, writer`idx, writer.buf
      ensures sent == old(sent) + [MarkRecord(marker)] && Wrote(writer, [])
    {
      Put(writer, MARKER, [marker], []);
      assert [] + [Field(MARKER, [marker])] == [Field(MARKER, [marker])];
      Send([Field(MARKER, [marker])]);
    }

    /** A stream's record and those of its channels. */
    method SendStream(s: Stream, ghost info: StreamInfo, ghost at: nat, ghost start: seq<seq<byte>>,
      ghost es: seq<Entry>)
      requires Wrote(writer, []) && Described(s, info, writer.buf.Length) && Numbered(s, at) && id == 0
      requires Said(start, sent, es) && writer.buf != s.channelIds
      modifies this`sent, writer`idx, writer.buf
      ensures Wrote(writer, []) && Said(start, sent, es + Part(info, at))
    {
      ghost var e := StreamEntry(info, Wrap(at));
      StreamEntryOk(info, Wrap(at));
      SerializeStream(writer, s.info, s.id, id, e);
      EncodedSnoc(es, e);
      Send(Record(e));
      Associate(start, Encoded(es), [EncodeAll(Record(e))]);
      SendChannels(s, info, at, start, es + [e]);
      Associate(es, [e], ChannelEntries(info.channels, |info.channels|, at + 1, Wrap(at)));
    }

    method SendChannels(s: Stream, ghost info: StreamInfo, ghost at: nat, ghost start: seq<seq<byte>>,
      ghost es: seq<Entry>)
      requires Wrote(writer, []) && Described(s, info, writer.buf.Length) && Numbered(s, at)
      requires Said(start, sent, es) && writer.buf != s.channelIds
      modifies this`sent, writer`idx, writer.buf
      ensures var all := es + ChannelEntries(info.channels, |info.channels|, at + 1, Wrap(at));
        Wrote(writer, []) && Said(start, sent, all)
    {
      ghost var more := es;
      EmptyRight(es);
      var z := 0;
      while z < s.channelIds.Length
        invariant 0 <= z <= s.channelIds.Length && Wrote(writer, [])
        invariant more == es + ChannelEntries(info.channels, z, at + 1, Wrap(at))
        invariant Said(start, sent, more)
        modifies this`sent, writer`idx, writer.buf
      {
        ghost var c := SendChannel(s, z, info, at, start, more);
        Associate(es, ChannelEntries(info.channels, z, at + 1, Wrap(at)), [c]);
        more := more + [c];
        z := z + 1;
      }
    }

    method SendChannel(s: Stream, z: nat, ghost info: StreamInfo, ghost at: nat, ghost start: seq<seq<byte>>,
      ghost es: seq<Entry>)
      returns (ghost c: Entry)
      requires Wrote(writer, []) && Described(s, info, writer.buf.Length) && Numbered(s, at) && z < |info.channels|
      requires Said(start, sent, es) && writer.buf != s.channelIds
      modifies this`sent, writer`idx, writer.buf
      ensures c == ChannelEntry(info.channels[z], Wrap(at + 1 + z), Wrap(at))
      ensures Wrote(writer, []) && Said(start, sent, es + [c])
    {
      c := ChannelEntry(info.channels[z], Wrap(at + 1 + z), Wrap(at));
      ChannelEntryOk(info.channels[z], Wrap(at + 1 + z), Wrap(at));
      SerializeChannel(writer, s.info.channels[z], s.channelIds[z], s.id, c);
      EncodedSnoc(es, c);
      Send(Record(c));
      Associate(start, Encoded(es), [EncodeAll(Record(c))]);
    }

    /** The session's own record, after the mark that opens the response. */
    method Open(ghost e: Entry)
      requires Valid() && id == 0 && e == SessionEntry(meta, infos)
      modifies this`sent, writer`idx, writer.buf
      ensures Wrote(writer, []) && Said(old(sent) + [MarkRecord(DISCOVER_REP)], sent, [e])
    {
      writer.Reset();
      SendMark(DISCOVER_REP);
      SerializeSession(writer, meta, Wrap(|streams|), id, id, e);
      EncodedSnoc([], e);
      assert [] + [e] == [e];
      Send(Record(e));
    }

    method SendNth(i: nat, ghost start: seq<seq<byte>>, ghost e: Entry, ghost es: seq<Entry>)
      returns (ghost more: seq<Entry>)
      requires Wrote(writer, []) && id == 0 && i < |streams| && |infos| == |streams|
        && Described(streams[i], infos[i], writer.buf.Length)
      requires Numbered(streams[i], Before(infos, i)) && streams[i].channelIds != writer.buf
      requires Said(start, sent, es) && es == [e] + StreamEntries(infos, i)
      modifies this`sent, writer`idx, writer.buf
      ensures Wrote(writer, []) && Said(start, sent, more) && more == [e] + StreamEntries(infos, i + 1)
    {
      SendStream(streams[i], infos[i], Before(infos, i), start, es);
      Associate([e], StreamEntries(infos, i), Part(infos[i], Before(infos, i)));
      more := es + Part(infos[i], Before(infos, i));
    }

    /** The streams one after another. */
    method SendStreams(ghost start: seq<seq<byte>>, ghost e: Entry)
      requires Wrote(writer, []) && id == 0 && Device(streams, infos, writer.buf.Length) && Said(start, sent, [e])
      requires NumberedTo(streams, infos, |streams|)
      requires forall i {:trigger Pick(streams, i)} :: Pick(streams, i) ==> streams[i].channelIds != writer.buf
      modifies this`sent, writer`idx, writer.buf
      ensures var es := [e] + StreamEntries(infos, |infos|); Wrote(writer, []) && Said(start, sent, es)
    {
      ghost var es := [e];
      EmptyRight([e]);
      var i := 0;
      while i < |streams|
        invariant 0 <= i <= |streams| && Wrote(writer, [])
        invariant es == [e] + StreamEntries(infos, i)
        invariant Said(start, sent, es)
        modifies this`sent, writer`idx, writer.buf
      {
        assert Pick(streams, i);
        es := SendNth(i, start, e, es);
        i := i + 1;
      }
    }

    /** discovery_respond: sends exactly the response. */
    method DiscoveryRespond()
      requires Valid() && writer.buf !in spans
      modifies this`id, this`sent, streams, spans, writer`idx, writer.buf
      ensures sent == old(sent) + Response(meta, infos)
    {
      Annotate();
      ghost var before, e := sent, SessionEntry(meta, infos);
      Open(e);
      SendStreams(before + [MarkRecord(DISCOVER_REP)], e);
      SendMark(DISCOVER_REP + 0x80);
      ResponseParts(before, MarkRecord(DISCOVER_REP), Encoded([e] + StreamEntries(infos, |infos|)),
        MarkRecord(DISCOVER_REP + 0x80));
    }
  }
}
