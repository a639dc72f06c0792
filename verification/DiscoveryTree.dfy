/**
  What the host holds after the discovery handshake.

  `DiscoveryRebuilds` is the round trip: one object for each node, with everything the
  device said of it and nothing else. Ids are single bytes, and `DiscoveryExactly` says
  that the round trip holds if and only if there are at most 256 nodes.
*/
module DiscoveryTree {
  import opened Words
  import opened Idv
  import opened Discovery

  /** The object says what the entry said, and no more. */
  ghost predicate Faithful(o: Object, e: Entry) {
    && o.marker == e.marker && o.pid == e.pid
    && Says(o, ID, [e.id]) && Says(o, PARENT_ID, [e.pid]) && Says(o, META, e.meta)
    && (forall i :: 0 <= i < |e.extras| ==> Says(o, e.extras[i].id, e.extras[i].value))
    && (forall id :: id in o.fields ==>
      id in {ID, PARENT_ID, META} || exists i :: 0 <= i < |e.extras| && e.extras[i].id == id)
  }

  predicate Says(o: Object, id: byte, value: seq<byte>) {
    id in o.fields && o.fields[id] == value
  }

  ghost predicate DistinctFields(fs: seq<Field>) {
    forall j, k :: 0 <= j < k < |fs| ==> fs[j].id != fs[k].id
  }

  /** No two fields of an entry have the same id. */
  lemma StreamEntriesDistinct(ss: seq<StreamInfo>, n: nat, k: nat)
    requires n <= |ss| && k < Before(ss, n) - 1
    ensures DistinctFields(StreamEntries(ss, n)[k].extras) && StreamEntries(ss, n)[k].marker != SESSION
  {
    var i, x := NodeAt(ss, n, k);
  }

  lemma EntriesDistinct(meta: seq<byte>, ss: seq<StreamInfo>, k: nat)
    requires k < |Entries(meta, ss)|
    ensures DistinctFields(Entries(meta, ss)[k].extras) && (Entries(meta, ss)[k].marker == SESSION <==> k == 0)
  {
    if k > 0 {
      StreamEntriesDistinct(ss, |ss|, k - 1);
    }
  }

  lemma {:induction false} SetAllKeeps(o: Object, fs: seq<Field>, id: byte)
    requires forall i :: 0 <= i < |fs| ==> fs[i].id != id
    ensures SetAll(o, fs).marker == o.marker && SetAll(o, fs).pid == o.pid
    ensures id in o.fields ==> id in SetAll(o, fs).fields && SetAll(o, fs).fields[id] == o.fields[id]
    decreases |fs|
  {
    if fs != [] {
      SetAllKeeps(Set(o, fs[0].id, fs[0].value), fs[1..], id);
    }
  }

  lemma {:induction false} SetAllSets(o: Object, fs: seq<Field>, i: nat)
    requires i < |fs| && forall j, k :: 0 <= j < k < |fs| ==> fs[j].id != fs[k].id
    ensures fs[i].id in SetAll(o, fs).fields && SetAll(o, fs).fields[fs[i].id] == fs[i].value
    decreases |fs|
  {
    var o1 := Set(o, fs[0].id, fs[0].value);
    if i == 0 {
      SetAllKeeps(o1, fs[1..], fs[0].id);
    } else {
      SetAllSets(o1, fs[1..], i - 1);
    }
  }

  lemma {:induction false} SetAllOnly(o: Object, fs: seq<Field>, id: byte)
    requires id in SetAll(o, fs).fields && id !in o.fields
    ensures exists i :: 0 <= i < |fs| && fs[i].id == id
    decreases |fs|
  {
    if fs != [] && fs[0].id != id {
      SetAllOnly(Set(o, fs[0].id, fs[0].value), fs[1..], id);
      var i :| 0 <= i < |fs[1..]| && fs[1..][i].id == id;
      assert fs[i + 1].id == id;
    }
  }

  /** The fixed part of a record. */
  function Fixed(e: Entry): Object {
    Set(Set(Set(Object(0, 0, map[]), ID, [e.id]), PARENT_ID, [e.pid]), META, e.meta).(marker := e.marker, pid := e.pid)
  }

  /** An object made from nothing by one record is faithful to it. */
  lemma RebuiltIsFaithful(e: Entry)
    requires EntryOk(e) && DistinctFields(e.extras)
    ensures Faithful(Rebuilt(Object(0, 0, map[]), e), e)
  {
    var o, r := Fixed(e), Rebuilt(Object(0, 0, map[]), e);
    assert r == SetAll(o, e.extras);
    SetAllKeeps(o, e.extras, ID);
    SetAllKeeps(o, e.extras, PARENT_ID);
    SetAllKeeps(o, e.extras, META);
    forall i | 0 <= i < |e.extras|
      ensures Says(r, e.extras[i].id, e.extras[i].value)
    {
      SetAllSets(o, e.extras, i);
    }
    forall id | id in r.fields && id !in {ID, PARENT_ID, META}
      ensures exists i :: 0 <= i < |e.extras| && e.extras[i].id == id
    {
      SetAllOnly(o, e.extras, id);
    }
  }

  lemma OnlyNodes(before: map<byte, Object>, after: map<byte, Object>, es: seq<Entry>)
    requires before == map[] && RebuiltAll(before, after, es) && forall k :: 0 <= k < |es| ==> es[k].id == k
    ensures forall id :: id in after ==> id < |es|
  {
    forall id | id in after
      ensures id < |es|
    {
      assert id in before || exists k :: 0 <= k < |es| && es[k].id == id;
    }
  }

  /** A mark ends what came before: until the next id, fields belong to no object. */
  lemma MarkEndsRecord(h: Host, mark: byte, f: Field)
    requires mark != DISCOVER_REP && mark != DISCOVER_REP + 0x80 && f.id != ID && f.id != MARKER
    ensures HostAll(h, [Field(MARKER, [mark]), f]).objects == h.objects
  {
    var g := HostStep(h, Field(MARKER, [mark]));
    assert [Field(MARKER, [mark]), f][1..] == [f] && [f][1..] == [];
    assert HostAll(g, [f]) == HostAll(HostStep(g, f), []);
  }

  /** The two marks around the entries change nothing. */
  lemma OnlyEntriesCount(h: Host, meta: seq<byte>, ss: seq<StreamInfo>)
    requires |meta| < 0x100 && StreamsOk(ss)
    ensures AllOk(Entries(meta, ss)) && Receive(h, Response(meta, ss)) == Receive(h, Encoded(Entries(meta, ss)))
  {
    EntriesOk(meta, ss);
    var a, b, c := [MarkRecord(DISCOVER_REP)], Encoded(Entries(meta, ss)), [MarkRecord(DISCOVER_REP + 0x80)];
    ReceiveConcat(h, a + b, c);
    ReceiveConcat(h, a, b);
    MarkIgnored(h, DISCOVER_REP);
    assert a[..0] == [] && c[..0] == [];
    assert Receive(h, a) == h;
    MarkIgnored(Receive(h, b), DISCOVER_REP + 0x80);
    assert Receive(Receive(h, b), c) == Receive(h, b);
  }

  /**
    A host that starts with no objects and receives a device's whole response ends with
    exactly one object for each node, numbered 0, 1, 2, ... in the order sent, and each
    says exactly what its node's record said.
  */
  lemma DiscoveryRebuilds(h: Host, meta: seq<byte>, ss: seq<StreamInfo>)
    requires h.objects == map[] && |meta| < 0x100 && StreamsOk(ss) && Before(ss, |ss|) <= 0x100
    ensures var es, objects := Entries(meta, ss), Receive(h, Response(meta, ss)).objects;
      && (forall k :: 0 <= k < |es| ==> es[k].id == k && k in objects && Faithful(objects[k], es[k]))
      && (forall id :: id in objects ==> id < |es|)
  {
    var es := Entries(meta, ss);
    OnlyEntriesCount(h, meta, ss);
    forall k | 0 <= k < |es|
      ensures es[k].id == k
    {
      EntryNumbers(meta, ss, k);
    }
    EntriesRebuild(h, es);
    OnlyNodes(h.objects, Receive(h, Encoded(es)).objects, es);
    forall k | 0 <= k < |es|
      ensures k in Receive(h, Encoded(es)).objects && Faithful(Receive(h, Encoded(es)).objects[k], es[k])
    {
      EntriesDistinct(meta, ss, k);
      RebuiltIsFaithful(es[k]);
      assert es[k].id == k;
    }
  }

  // ---------- the tree itself ----------

  /** The objects a host should have for the nodes: marker, parent and fields. */
  function SessionObject(meta: seq<byte>, ss: seq<StreamInfo>): Object {
    Object(0, SESSION, map[ID := [0], PARENT_ID := [0], META := meta, STREAM_COUNT := [Wrap(|ss|)]])
  }

  function StreamObject(s: StreamInfo, at: byte): Object {
    Object(0, STREAM, map[ID := [at], PARENT_ID := [0], META := s.meta,
      CHANNEL_COUNT := [Wrap(|s.channels|)], SAMPLETIME := s.sampleTime, TICKS := s.ticks])
  }

  function ChannelObject(c: ChannelInfo, at: byte, stream: byte): Object {
    Object(stream, CHANNEL, map[ID := [at], PARENT_ID := [stream], META := c.meta, SCALE := c.scale,
      OFFSET := c.offset])
  }

  predicate Holds(objects: map<byte, Object>, id: nat, o: Object) {
    id < 0x100 && id in objects && objects[id] == o
  }

  lemma {:induction false} PartAt(ss: seq<StreamInfo>, i: nat, x: nat)
    requires i < |ss| && x <= |ss[i].channels|
    ensures Part(ss[i], Before(ss, i))[x] == Node(ss, i, x)
  {
    if x > 0 {
      ChannelNumbers(ss[i].channels, |ss[i].channels|, Before(ss, i) + 1, Wrap(Before(ss, i)), x - 1);
    }
  }

  /** Where in the order sent a node comes. */
  lemma {:induction false} PlaceOf(ss: seq<StreamInfo>, n: nat, i: nat, x: nat)
    requires i < n <= |ss| && x <= |ss[i].channels|
    ensures 0 < Before(ss, i) && Before(ss, i) + x < Before(ss, n)
    ensures StreamEntries(ss, n)[Before(ss, i) + x - 1] == Node(ss, i, x)
    decreases n
  {
    StreamsBefore(ss, i);
    var earlier, part := StreamEntries(ss, n - 1), Part(ss[n - 1], Before(ss, n - 1));
    if i < n - 1 {
      PlaceOf(ss, n - 1, i, x);
      assert (earlier + part)[Before(ss, i) + x - 1] == earlier[Before(ss, i) + x - 1];
    } else {
      PartAt(ss, i, x);
      assert (earlier + part)[|earlier| + x] == part[x];
    }
  }

  lemma {:induction false} StreamsBefore(ss: seq<StreamInfo>, n: nat)
    requires n <= |ss|
    ensures 0 < Before(ss, n)
    decreases n
  {
    if n > 0 {
      StreamsBefore(ss, n - 1);
    }
  }

  /** An object faithful to a record holds the fields of the record and no others. */
  lemma {:induction false} SameFields(o: Object, e: Entry, fields: map<byte, seq<byte>>)
    requires Faithful(o, e) && {ID, PARENT_ID, META} <= fields.Keys
    requires fields[ID] == [e.id] && fields[PARENT_ID] == [e.pid] && fields[META] == e.meta
    requires forall id :: id in fields ==>
      id in {ID, PARENT_ID, META} || exists i :: 0 <= i < |e.extras| && e.extras[i] == Field(id, fields[id])
    requires forall i :: 0 <= i < |e.extras| ==> e.extras[i].id in fields
    ensures o == Object(e.pid, e.marker, fields)
  {
    forall id | id in fields
      ensures id in o.fields && o.fields[id] == fields[id]
    {
      if i :| 0 <= i < |e.extras| && e.extras[i] == Field(id, fields[id]) {
        assert Says(o, e.extras[i].id, e.extras[i].value);
      }
    }
    assert o.fields == fields;
  }

  lemma {:induction false} StreamFaithful(o: Object, s: StreamInfo, at: byte)
    requires Faithful(o, StreamEntry(s, at))
    ensures o == StreamObject(s, at)
  {
    var e := StreamEntry(s, at);
    assert e.extras[0].id == CHANNEL_COUNT && e.extras[1].id == SAMPLETIME && e.extras[2].id == TICKS;
    SameFields(o, e, StreamObject(s, at).fields);
  }

  lemma {:induction false} ChannelFaithful(o: Object, c: ChannelInfo, at: byte, stream: byte)
    requires Faithful(o, ChannelEntry(c, at, stream))
    ensures o == ChannelObject(c, at, stream)
  {
    var e := ChannelEntry(c, at, stream);
    assert e.extras[0].id == SCALE && e.extras[1].id == OFFSET;
    SameFields(o, e, ChannelObject(c, at, stream).fields);
  }

  lemma {:induction false} SessionFaithful(o: Object, meta: seq<byte>, ss: seq<StreamInfo>)
    requires Faithful(o, SessionEntry(meta, ss))
    ensures o == SessionObject(meta, ss)
  {
    var e := SessionEntry(meta, ss);
    assert e.extras[0].id == STREAM_COUNT;
    SameFields(o, e, SessionObject(meta, ss).fields);
  }

  /** The session under id 0, stream i under its place in the order sent, and its channels after it. */
  ghost predicate HoldsTree(objects: map<byte, Object>, meta: seq<byte>, ss: seq<StreamInfo>) {
    && Holds(objects, 0, SessionObject(meta, ss))
    && forall i :: 0 <= i < |ss| ==> HoldsPart(objects, ss, i)
  }

  ghost predicate HoldsPart(objects: map<byte, Object>, ss: seq<StreamInfo>, i: nat)
    requires i < |ss|
  {
    var at := Before(ss, i);
    && at < 0x100 && Holds(objects, at, StreamObject(ss[i], at))
    && forall x :: 0 <= x < |ss[i].channels| ==> HoldsChannel(objects, ss, i, x)
  }

  ghost predicate HoldsChannel(objects: map<byte, Object>, ss: seq<StreamInfo>, i: nat, x: nat)
    requires i < |ss| && x < |ss[i].channels|
  {
    var at := Before(ss, i);
    at + 1 + x < 0x100 && Holds(objects, at + 1 + x, ChannelObject(ss[i].channels[x], at + 1 + x, at))
  }

  /** Every stream and channel sent has an object faithful to its record. */
  ghost predicate AllFaithful(objects: map<byte, Object>, ss: seq<StreamInfo>) {
    forall k :: 0 < k < Before(ss, |ss|) ==> k in objects && Faithful(objects[k], StreamEntries(ss, |ss|)[k - 1])
  }

  lemma {:induction false} StreamHeld(objects: map<byte, Object>, ss: seq<StreamInfo>, i: nat)
    requires i < |ss| && Before(ss, |ss|) <= 0x100 && AllFaithful(objects, ss)
    ensures Before(ss, i) < 0x100 && Holds(objects, Before(ss, i), StreamObject(ss[i], Before(ss, i)))
  {
    PlaceOf(ss, |ss|, i, 0);
    StreamFaithful(objects[Before(ss, i)], ss[i], Before(ss, i));
  }

  lemma {:induction false} ChannelAt(ss: seq<StreamInfo>, i: nat, x: nat)
    requires i < |ss| && x < |ss[i].channels| && Before(ss, |ss|) <= 0x100
    ensures var id := Before(ss, i) + 1 + x;
      && id < Before(ss, |ss|)
      && StreamEntries(ss, |ss|)[id - 1] == ChannelEntry(ss[i].channels[x], id, Before(ss, i))
  {
    PlaceOf(ss, |ss|, i, x + 1);
  }

  lemma {:induction false} ChannelHeld(objects: map<byte, Object>, ss: seq<StreamInfo>, i: nat, x: nat)
    requires i < |ss| && x < |ss[i].channels| && Before(ss, |ss|) <= 0x100 && AllFaithful(objects, ss)
    ensures HoldsChannel(objects, ss, i, x)
  {
    var at := Before(ss, i);
    ChannelAt(ss, i, x);
    ChannelFaithful(objects[at + 1 + x], ss[i].channels[x], at + 1 + x, at);
  }

  lemma {:induction false} PartHeld(objects: map<byte, Object>, ss: seq<StreamInfo>, i: nat)
    requires i < |ss| && Before(ss, |ss|) <= 0x100 && AllFaithful(objects, ss)
    ensures HoldsPart(objects, ss, i)
  {
    StreamHeld(objects, ss, i);
    forall x | 0 <= x < |ss[i].channels|
      ensures HoldsChannel(objects, ss, i, x)
    {
      ChannelHeld(objects, ss, i, x);
    }
  }

  /** The host ends with the device's tree, every field in its place and nothing else, if ids suffice. */
  lemma {:induction false} HostHoldsTree(h: Host, meta: seq<byte>, ss: seq<StreamInfo>)
    requires h.objects == map[] && |meta| < 0x100 && StreamsOk(ss) && Before(ss, |ss|) <= 0x100
    ensures var objects := Receive(h, Response(meta, ss)).objects;
      HoldsTree(objects, meta, ss) && forall id :: id in objects ==> id < Before(ss, |ss|)
  {
    var es, objects := Entries(meta, ss), Receive(h, Response(meta, ss)).objects;
    DiscoveryRebuilds(h, meta, ss);
    StreamsBefore(ss, |ss|);
    assert Faithful(objects[0], es[0]);
    SessionFaithful(objects[0], meta, ss);
    forall k | 0 < k < |es|
      ensures k in objects && Faithful(objects[k], StreamEntries(ss, |ss|)[k - 1])
    {
      assert es[k] == StreamEntries(ss, |ss|)[k - 1];
    }
    forall i | 0 <= i < |ss|
      ensures HoldsPart(objects, ss, i)
    {
      PartHeld(objects, ss, i);
    }
  }

  // ---------- more nodes than ids ----------

  lemma RecordReceived(h: Host, init: seq<Entry>, e: Entry)
    requires AllOk(init + [e]) && AllOk(init)
    ensures EntryOk(e)
    ensures var before := Receive(h, Encoded(init)).objects;
      Receive(h, Encoded(init + [e])).objects == before[e.id := Rebuilt(At(before, e.id), e)]
  {
    assert (init + [e])[|init|] == e && (init + [e])[..|init|] == init;
    RecordShort(e);
    ParseEncode(Record(e));
    ReceiveSnoc(h, Encoded(init), EncodeAll(Record(e)));
    RecordRebuilds(Receive(h, Encoded(init)), e);
  }

  lemma RebuiltMarker(o: Object, e: Entry)
    requires EntryOk(e)
    ensures Rebuilt(o, e).marker == e.marker
  {
    var base := Set(Set(Set(o, ID, [e.id]), PARENT_ID, [e.pid]), META, e.meta).(marker := e.marker, pid := e.pid);
    SetAllKeeps(base, e.extras, MARKER);
  }

  /** Once another node has come with the session's id, its object is no longer the session's. */
  lemma {:induction false} SessionLost(h: Host, es: seq<Entry>, n: nat)
    requires AllOk(es) && 0 < n < |es| && es[n].id == 0 && forall k :: 0 < k < |es| ==> es[k].marker != SESSION
    ensures var objects := Receive(h, Encoded(es)).objects; 0 in objects && objects[0].marker != SESSION
    decreases |es|
  {
    var init, e := es[..|es| - 1], es[|es| - 1];
    assert es == init + [e];
    RecordReceived(h, init, e);
    if e.id == 0 {
      RebuiltMarker(At(Receive(h, Encoded(init)).objects, 0), e);
    } else {
      SessionLost(h, init, n);
    }
  }

  lemma WrapAtLimit()
    ensures Wrap(0x100) == 0
  {
    assert Wrap(0) == 0;
  }

  /** Every node has an object that says what it said exactly when there are no more nodes than ids. */
  lemma DiscoveryExactly(h: Host, meta: seq<byte>, ss: seq<StreamInfo>)
    requires h.objects == map[] && |meta| < 0x100 && StreamsOk(ss)
    ensures var es, objects := Entries(meta, ss), Receive(h, Response(meta, ss)).objects;
      (forall k :: 0 <= k < |es| ==> es[k].id in objects && Faithful(objects[es[k].id], es[k])) <==>
        Before(ss, |ss|) <= 0x100
  {
    var es, objects := Entries(meta, ss), Receive(h, Response(meta, ss)).objects;
    if |es| <= 0x100 {
      DiscoveryRebuilds(h, meta, ss);
      assert forall k :: 0 <= k < |es| ==> es[k].id == k;
    } else {
      OnlyEntriesCount(h, meta, ss);
      WrapAtLimit();
      EntryNumbers(meta, ss, 0);
      EntryNumbers(meta, ss, 0x100);
      forall k | 0 < k < |es|
        ensures es[k].marker != SESSION
      {
        EntriesDistinct(meta, ss, k);
      }
      SessionLost(h, es, 0x100);
      EntriesDistinct(meta, ss, 0);
      assert es[0].id == 0 && !Faithful(objects[0], es[0]);
    }
  }
}
