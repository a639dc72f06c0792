/**
  The id-length-value records of fdlib/middleware/IDV.h: a writer that appends fields to
  a fixed buffer and a reader that steps through a record.

  The reader is modelled on a span that is the record itself; see README.md.
*/
module Idv {
  import opened Words

  datatype Field = Field(id: byte, value: seq<byte>)

  predicate Short(f: Field) {
    |f.value| < 0x100
  }

  function Encode(f: Field): seq<byte>
    requires Short(f)
  {
    [f.id, |f.value|] + f.value
  }

  ghost predicate AllShort(fs: seq<Field>) {
    forall i :: 0 <= i < |fs| ==> Short(fs[i])
  }

  function EncodeAll(fs: seq<Field>): seq<byte>
    requires AllShort(fs)
  {
    if fs == [] then [] else Encode(fs[0]) + EncodeAll(fs[1..])
  }

  /** What `next` finds at position i: a field, and where the one after it starts. */
  function FieldAt(bytes: seq<byte>, i: nat): (r: Option<(Field, nat)>)
    ensures r.Some? ==> i + 2 <= r.value.1 <= |bytes| && Short(r.value.0)
  {
    if i + 2 > |bytes| || i + 2 + bytes[i + 1] > |bytes| then None
    else Some((Field(bytes[i], bytes[i + 2..i + 2 + bytes[i + 1]]), i + 2 + bytes[i + 1]))
  }

  /** Every field `next` finds from position i on, until it finds none. */
  function Parse(bytes: seq<byte>, i: nat): seq<Field>
    decreases |bytes| - i
  {
    match FieldAt(bytes, i)
    case None => []
    case Some((f, j)) => [f] + Parse(bytes, j)
  }

  lemma FieldInPlace(a: seq<byte>, f: Field, b: seq<byte>)
    requires Short(f)
    ensures FieldAt(a + (Encode(f) + b), |a|) == Some((f, |a| + 2 + |f.value|))
  {
    var all := a + (Encode(f) + b);
    assert all[|a|] == f.id && all[|a| + 1] == |f.value|;
    assert all[|a| + 2..|a| + 2 + |f.value|] == f.value;
  }

  /** Reading a record gives back the fields written, wherever the record starts. */
  lemma {:induction false} ParseInPlace(a: seq<byte>, fs: seq<Field>)
    requires AllShort(fs)
    ensures Parse(a + EncodeAll(fs), |a|) == fs
    decreases |fs|
  {
    if fs == [] {
      assert a + [] == a;
    } else {
      var f, rest := fs[0], fs[1..];
      FieldInPlace(a, f, EncodeAll(rest));
      ParseInPlace(a + Encode(f), rest);
      Associate(a, Encode(f), EncodeAll(rest));
      assert |a + Encode(f)| == |a| + 2 + |f.value|;
    }
  }

  /** Round trip. */
  lemma ParseEncode(fs: seq<Field>)
    requires AllShort(fs)
    ensures Parse(EncodeAll(fs), 0) == fs
  {
    ParseInPlace([], fs);
    assert [] + EncodeAll(fs) == EncodeAll(fs);
  }

  lemma {:induction false} EncodeSnoc(fs: seq<Field>, f: Field)
    requires AllShort(fs) && Short(f)
    ensures AllShort(fs + [f]) && EncodeAll(fs + [f]) == EncodeAll(fs) + Encode(f)
    decreases |fs|
  {
    if fs == [] {
      assert fs + [f] == [f];
      assert EncodeAll([f][1..]) == [];
    } else {
      assert (fs + [f])[1..] == fs[1..] + [f];
      EncodeSnoc(fs[1..], f);
      Associate(Encode(fs[0]), EncodeAll(fs[1..]), Encode(f));
    }
  }

  class Writer {
    const buf: array<byte>
    var idx: nat

    predicate Valid()
      reads this
    {
      idx <= buf.Length < 0x1_0000
    }

    function Contents(): seq<byte>
      requires Valid()
      reads this, buf
    {
      buf[..idx]
    }

    constructor (buf: array<byte>)
      requires buf.Length < 0x1_0000
      ensures Valid() && this.buf == buf && Contents() == []
    {
      this.buf := buf;
      idx := 0;
    }

    /** addPrimitive and add_BINARY: appended whole, or not at all when it does not fit. */
    method Add(id: byte, value: seq<byte>) returns (full: bool)
      requires Valid() && |value| < 0x100
      modifies this`idx, buf
      ensures Valid() && full == (old(idx) + |value| + 2 > buf.Length)
      ensures Contents() == if full then old(Contents()) else old(Contents()) + Encode(Field(id, value))
    {
      full := idx + |value| + 2 > buf.Length;
      if full {
        return;
      }
      ghost var was := Contents();
      buf[idx] := id;
      buf[idx + 1] := |value|;
      forall i | 0 <= i < |value| {
        buf[idx + 2 + i] := value[i];
      }
      idx := idx + 2 + |value|;
      assert Contents() == was + [id, |value|] + value;
      Associate(was, [id, |value|], value);
    }

    method Reset()
      modifies this`idx
      ensures idx == 0
    {
      idx := 0;
    }
  }

  const NOWHERE := 0xffff

  class Reader {
    const buf: seq<byte>
    var idx: nat
    var id: byte
    var len: byte
    var value: nat

    /** The position `next` starts from; none once a field has been cut short. */
    function Rest(): seq<Field>
      reads this
    {
      if idx == NOWHERE then [] else Parse(buf, idx)
    }

    /** The field `next` found last. */
    function Current(): Field
      requires value + len <= |buf|
      reads this
    {
      Field(id, buf[value..value + len])
    }

    constructor (buf: seq<byte>)
      requires |buf| < 0x1_0000
      ensures this.buf == buf && Rest() == Parse(buf, 0)
    {
      this.buf := buf;
      idx, id, len, value := 0, 0, 0, 0;
    }

    method Reset()
      modifies this`idx
      ensures Rest() == Parse(buf, 0)
    {
      idx := 0;
    }

    /** Steps to the next field; false, and nothing left to find, when there is none. */
    method Next() returns (more: bool)
      requires |buf| < 0x1_0000
      modifies this
      ensures more <==> old(Rest()) != []
      ensures more ==> value + len <= |buf| && [Current()] + Rest() == old(Rest())
      ensures !more ==> Rest() == []
    {
      if idx == NOWHERE {
        return false;
      }
      if idx + 2 > |buf| {
        return false;
      }
      id := buf[idx];
      len := buf[idx + 1];
      idx := idx + 2;
      if idx + len > |buf| {
        idx := NOWHERE;
        return false;
      }
      value := idx;
      idx := idx + len;
      EndOfRecord(buf);
      return true;
    }

    /** `as<uint8_t>`: the value, if it is one byte. */
    method AsUint8(ghost f: Field, otherwise: byte) returns (v: byte, ok: bool)
      requires value + len <= |buf| && f == Current()
      ensures ok <==> |f.value| == 1
      ensures v == if |f.value| == 1 then f.value[0] else otherwise
    {
      ok := len == 1;
      v := if ok then buf[value] else otherwise;
    }
  }

  /** A record of 65535 bytes ends where the marker value says there is nothing left: also nothing to find there. */
  lemma EndOfRecord(buf: seq<byte>)
    requires |buf| < 0x1_0000
    ensures Parse(buf, NOWHERE) == []
  {
  }
}
