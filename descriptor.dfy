/** The two MultiPXD descriptor formats: the binary `*inf.bin` table with its
    trailing-magic end check, and the text `*.inf` file of twelve-line blocks. */
module Descriptor {
  import opened Base
  import opened Strings
  import opened Cursor

  /** `MultiPxdRecord`: one entry of a descriptor table. `length == 0`
      marks an entry that is never extracted. */
  datatype Record = Record(id: int, group: int, name: string, offset: int, length: int,
                           sampleRateByte: int, typeId: int)

  /** The trailing magic `00 00 00 00 00 00 FF FF` read as a little-endian `ulong`. */
  const EndMagic: nat := 0xFFFF_0000_0000_0000

  /** The two magic values that mark a record as real rather than trailing trash. */
  predicate IsEndMagic(m: nat) { m == EndMagic || m == 0 }

  /** The signed 16-bit field at `p`. */
  function Int16At(b: seq<byte>, p: nat): int
    requires p + 2 <= |b|
  {
    Int16Of(b[p..p + 2])
  }

  /** `IsValidRecord`: the end-of-table check. It skips to the name length
      at `position + 6`, then to the magic at `position + 36 + nameLength`;
      a position beyond the buffer means "not a record", but a read that
      starts inside and runs past the end throws. */
  function IsValidRecord(descriptorBytes: seq<byte>, position: nat): (r: Result<bool>)
    ensures position + 6 > |descriptorBytes| ==> r == Ok(false)
    ensures position + 6 <= |descriptorBytes| < position + 8 ==> r == Err(OutOfRange)
    ensures position + 8 <= |descriptorBytes| ==>
      var m := position + 36 + Int16At(descriptorBytes, position + 6);
      && (m > |descriptorBytes| ==> r == Ok(false))
      && (m <= |descriptorBytes| && (m < 0 || m + 8 > |descriptorBytes|) ==> r == Err(OutOfRange))
      && (0 <= m && m + 8 <= |descriptorBytes| ==>
            r == Ok(IsEndMagic(UInt64Of(descriptorBytes[m..m + 8]))))
  {
    var p := position + 6;
    if p > |descriptorBytes| then Ok(false)
    else
      var t :- ProcessBytes(descriptorBytes, p, 2, Int16Of);
      var nameLength := t.1;
      var q := t.0 + nameLength + 0x1C;
      if q > |descriptorBytes| then Ok(false)
      else
        var m :- ProcessBytes(descriptorBytes, q, 8, UInt64Of);
        Ok(m.1 == 0xFFFF_0000_0000_0000 || m.1 == 0)
  }

  /** The record layout: separator (2), id (1), group (1), separator (2),
      name length (2), name, sample-rate byte (2), type (2), offset (4),
      length (4), 20 bytes of unused fields and the magic (8). The record
      at `p` with a name of `n` bytes has its magic at `p + 36 + n` and
      ends at `p + 44 + n`. */
  predicate Readable(b: seq<byte>, p: nat)
  {
    p + 8 <= |b| && 0 <= Int16At(b, p + 6) && p + 44 + Int16At(b, p + 6) <= |b|
  }

  function RecordEnd(b: seq<byte>, p: nat): int
    requires p + 8 <= |b|
  {
    p + 44 + Int16At(b, p + 6)
  }

  /** The fields up to and including `length` lie inside the buffer. */
  predicate FieldsReadable(b: seq<byte>, p: nat)
  {
    p + 8 <= |b| && 0 <= Int16At(b, p + 6) && p + 20 + Int16At(b, p + 6) <= |b|
  }

  /** The fields of the record at `p`, each read at its offset in the layout. */
  function RecordAt(b: seq<byte>, p: nat): Record
    requires FieldsReadable(b, p)
  {
    var n := Int16At(b, p + 6);
    Record(b[p + 2], b[p + 3], AsciiString(b[p + 8..p + 8 + n]),
           Int32Of(b[p + 12 + n..p + 16 + n]), Int32Of(b[p + 16 + n..p + 20 + n]),
           Int16Of(b[p + 8 + n..p + 10 + n]), Int16Of(b[p + 10 + n..p + 12 + n]))
  }

  /** The reads from the first separator to the name: the id, the group
      and the name, and the position after the name. */
  function ReadRecordName(b: seq<byte>, position: nat): (r: Result<(int, (byte, byte, string))>)
    ensures r.Ok? <==> position + 8 <= |b| && 0 <= Int16At(b, position + 6) && position + 8 + Int16At(b, position + 6) <= |b|
    ensures r.Err? ==> r.error == OutOfRange
    ensures r.Ok? ==> var n := Int16At(b, position + 6);
      r.value == (position + 8 + n, (b[position + 2], b[position + 3], AsciiString(b[position + 8..position + 8 + n])))
  {
    var sep :- ReadBytes(b, position, 2);
    var id :- ProcessBytes(b, sep.0, 1, FirstByte);
    var group :- ProcessBytes(b, id.0, 1, FirstByte);
    var p := group.0 + 2;
    var nameLength :- ProcessBytes(b, p, 2, Int16Of);
    var name :- ProcessBytes(b, nameLength.0, nameLength.1, AsciiString);
    Ok((name.0, (id.1, group.1, name.1)))
  }

  /** The reads after the name that are kept: sample-rate byte, type,
      offset and length, and the position after them. */
  function ReadRecordNumbers(b: seq<byte>, position: int): (r: Result<(int, (int, int, int, int))>)
    ensures r.Ok? <==> 0 <= position && position + 12 <= |b|
    ensures r.Err? ==> r.error == OutOfRange
    ensures r.Ok? ==> r.value == (position + 12, (Int16Of(b[position..position + 2]), Int16Of(b[position + 2..position + 4]),
                                                  Int32Of(b[position + 4..position + 8]), Int32Of(b[position + 8..position + 12])))
  {
    var sampleRateByte :- ProcessBytes(b, position, 2, Int16Of);
    var typeId :- ProcessBytes(b, sampleRateByte.0, 2, Int16Of);
    var offset :- ProcessBytes(b, typeId.0, 4, Int32Of);
    var length :- ProcessBytes(b, offset.0, 4, Int32Of);
    Ok((length.0, (sampleRateByte.1, typeId.1, offset.1, length.1)))
  }

  /** The first half of `ReadBinaryPxdRecord`: the reads from the first
      separator to the `length` field. */
  function ReadRecordFields(b: seq<byte>, position: nat): (r: Result<(int, Record)>)
    ensures r.Ok? <==> FieldsReadable(b, position)
    ensures r.Err? ==> r.error == OutOfRange
    ensures r.Ok? ==> r.value == (position + 20 + Int16At(b, position + 6), RecordAt(b, position))
  {
    var named :- ReadRecordName(b, position);
    var numbers :- ReadRecordNumbers(b, named.0);
    var (id, group, name) := named.1;
    var (sampleRateByte, typeId, offset, length) := numbers.1;
    Ok((numbers.0, Record(id, group, name, offset, length, sampleRateByte, typeId)))
  }

  /** The second half of `ReadBinaryPxdRecord`: the unused fields and the
      magic, 24 bytes read and dropped. */
  function SkipRecordTail(b: seq<byte>, position: int): (r: Result<int>)
    ensures r.Ok? <==> 0 <= position && position + 24 <= |b|
    ensures r.Err? ==> r.error == OutOfRange
    ensures r.Ok? ==> r.value == position + 24
  {
    var unknown1 :- ProcessBytes(b, position, 2, Int16Of);
    var unknown2 :- ProcessBytes(b, unknown1.0, 2, Int16Of);
    var channels1 :- ProcessBytes(b, unknown2.0, 4, Int32Of);
    var unknown3 :- ProcessBytes(b, channels1.0, 2, Int16Of);
    var unknown4 :- ProcessBytes(b, unknown3.0, 4, Int32Of);
    var channels2 :- ProcessBytes(b, unknown4.0, 2, Int16Of);
    var magic :- ProcessBytes(b, channels2.0, 8, UInt64Of);
    Ok(magic.0)
  }

  /** `ReadBinaryPxdRecord`: the field-by-field read of the record at
      `position`, which throws when the record runs past the buffer. */
  function ReadBinaryPxdRecord(descriptorBytes: seq<byte>, position: nat): (r: Result<(int, Record)>)
    ensures r.Ok? <==> Readable(descriptorBytes, position)
    ensures r.Err? ==> r.error == OutOfRange
    ensures r.Ok? ==> r.value == (RecordEnd(descriptorBytes, position), RecordAt(descriptorBytes, position))
  {
    var fields :- ReadRecordFields(descriptorBytes, position);
    var end :- SkipRecordTail(descriptorBytes, fields.0);
    Ok((end, fields.1))
  }

  /** A record that passes the end check is read in full exactly when its
      name length is not negative, and the end check looked at the very
      magic field the reader consumes. */
  lemma ValidRecordIsReadable(b: seq<byte>, p: nat)
    requires IsValidRecord(b, p) == Ok(true)
    ensures p + 8 <= |b|
    ensures ReadBinaryPxdRecord(b, p).Ok? <==> Int16At(b, p + 6) >= 0
    ensures ReadBinaryPxdRecord(b, p).Ok? ==>
      var n := Int16At(b, p + 6);
      ReadBinaryPxdRecord(b, p).value.0 == p + 44 + n
      && IsEndMagic(UInt64Of(b[p + 36 + n..p + 44 + n]))
  {
  }

  /** The raw fields of one binary record, for the encoder below. */
  datatype BinaryFields = BinaryFields(
    separator1: seq<byte>, id: byte, group: byte, separator2: seq<byte>, name: seq<byte>,
    sampleRateByte: int, typeId: int, offset: int, length: int,
    unknown1: int, unknown2: int, channels1: int, unknown3: int, unknown4: int, channels2: int,
    magic: nat)
  {
    predicate Wf()
    {
      && |separator1| == 2 && |separator2| == 2 && |name| < 0x8000
      && -0x8000 <= sampleRateByte < 0x8000 && -0x8000 <= typeId < 0x8000
      && IsInt32(offset) && IsInt32(length)
      && magic < 0x1_0000_0000_0000_0000
    }

    function ToRecord(): Record
    {
      Record(id, group, AsciiString(name), offset, length, sampleRateByte, typeId)
    }
  }

  /** The fields before the name: separator, id, group, separator, name length. */
  function EncodeHead(f: BinaryFields): seq<byte>
  {
    f.separator1 + [f.id, f.group] + f.separator2 + Int16Bytes(|f.name|)
  }

  /** The twelve bytes after the name that the reader keeps. */
  function EncodeKept(f: BinaryFields): (r: seq<byte>)
    ensures |r| == 12
  {
    Int16Bytes(f.sampleRateByte) + Int16Bytes(f.typeId) + Int32Bytes(f.offset) + Int32Bytes(f.length)
  }

  /** The sixteen bytes of fields the reader consumes and drops. */
  function EncodeUnused(f: BinaryFields): (r: seq<byte>)
    ensures |r| == 16
  {
    Int16Bytes(f.unknown1) + Int16Bytes(f.unknown2) + Int32Bytes(f.channels1)
    + Int16Bytes(f.unknown3) + Int32Bytes(f.unknown4) + Int16Bytes(f.channels2)
  }

  /** The 36 bytes after the name. */
  function EncodeTail(f: BinaryFields): (r: seq<byte>)
    ensures |r| == 36
  {
    EncodeKept(f) + EncodeUnused(f) + UInt64Bytes(f.magic)
  }

  /** The binary layout of one record, the inverse of `ReadBinaryPxdRecord`. */
  function EncodeBinaryRecord(f: BinaryFields): (e: seq<byte>)
    requires f.Wf()
    ensures |e| == 44 + |f.name|
  {
    EncodeHead(f) + f.name + EncodeTail(f)
  }

  lemma KeptFields(f: BinaryFields)
    requires f.Wf()
    ensures var t := EncodeKept(f);
      && Int16Of(t[0..2]) == f.sampleRateByte && Int16Of(t[2..4]) == f.typeId
      && Int32Of(t[4..8]) == f.offset && Int32Of(t[8..12]) == f.length
  {
    Int16RoundTrip(f.sampleRateByte);
    Int16RoundTrip(f.typeId);
    Int32RoundTrip(f.offset);
    Int32RoundTrip(f.length);
    var a, c := Int16Bytes(f.sampleRateByte), Int16Bytes(f.typeId);
    var o, l := Int32Bytes(f.offset), Int32Bytes(f.length);
    var t := EncodeKept(f);
    PieceAt([], a, c + o + l);
    assert [] + a + (c + o + l) == t;
    PieceAt(a, c, o + l);
    assert a + c + (o + l) == t;
    PieceAt(a + c, o, l);
    PieceAt(a + c + o, l, []);
    assert a + c + o + l + [] == t;
  }

  lemma TailFields(f: BinaryFields)
    requires f.Wf()
    ensures var t := EncodeTail(f);
      && t[0..12] == EncodeKept(f)
      && UInt64Of(t[28..36]) == f.magic
  {
    UInt64RoundTrip(f.magic);
    var k, u, m := EncodeKept(f), EncodeUnused(f), UInt64Bytes(f.magic);
    PieceAt([], k, u + m);
    assert [] + k + (u + m) == EncodeTail(f);
    PieceAt(k + u, m, []);
    assert k + u + m + [] == EncodeTail(f);
  }

  /** The fields before the name, read from a buffer holding them at `p`. */
  lemma HeadAt(b: seq<byte>, p: nat, f: BinaryFields)
    requires f.Wf() && p + 8 <= |b| && b[p..p + 8] == EncodeHead(f)
    ensures b[p + 2] == f.id && b[p + 3] == f.group && Int16At(b, p + 6) == |f.name|
  {
    var h := EncodeHead(f);
    Int16RoundTrip(|f.name|);
    assert h[2] == f.id && h[3] == f.group;
    assert b[p + 2] == h[2] && b[p + 3] == h[3];
    assert h[6..8] == Int16Bytes(|f.name|);
    SliceOfRun(b, p, h, 6, 8);
  }

  /** The fields after the name, read from a buffer holding them at `q`. */
  lemma TailAt(b: seq<byte>, q: nat, f: BinaryFields)
    requires f.Wf() && q + 36 <= |b| && b[q..q + 36] == EncodeTail(f)
    ensures Int16Of(b[q..q + 2]) == f.sampleRateByte && Int16Of(b[q + 2..q + 4]) == f.typeId
    ensures Int32Of(b[q + 4..q + 8]) == f.offset && Int32Of(b[q + 8..q + 12]) == f.length
    ensures UInt64Of(b[q + 28..q + 36]) == f.magic
  {
    var t, k := EncodeTail(f), EncodeKept(f);
    TailFields(f);
    KeptFields(f);
    SliceOfRun(b, q, t, 0, 12);
    SliceOfRun(b, q, t, 28, 36);
    SliceOfRun(b, q, k, 0, 2);
    SliceOfRun(b, q, k, 2, 4);
    SliceOfRun(b, q, k, 4, 8);
    SliceOfRun(b, q, k, 8, 12);
  }

  /** An encoded record is its head, its name and its tail, back to back. */
  lemma EncodedParts(b: seq<byte>, p: nat, f: BinaryFields)
    requires f.Wf()
    requires p + 44 + |f.name| <= |b| && b[p..p + 44 + |f.name|] == EncodeBinaryRecord(f)
    ensures var n := |f.name|;
      b[p..p + 8] == EncodeHead(f) && b[p + 8..p + 8 + n] == f.name && b[p + 8 + n..p + 44 + n] == EncodeTail(f)
  {
    var e, n := EncodeBinaryRecord(f), |f.name|;
    assert |EncodeHead(f)| == 8;
    assert e[0..8] == EncodeHead(f);
    assert e[8..8 + n] == f.name;
    assert e[8 + n..44 + n] == EncodeTail(f);
    SliceOfRun(b, p, e, 0, 8);
    SliceOfRun(b, p, e, 8, 8 + n);
    SliceOfRun(b, p, e, 8 + n, 44 + n);
  }

  /** Where the fields of an encoded record land in a buffer holding it at `p`. */
  lemma EncodedSlices(b: seq<byte>, p: nat, f: BinaryFields)
    requires f.Wf()
    requires p + 44 + |f.name| <= |b| && b[p..p + 44 + |f.name|] == EncodeBinaryRecord(f)
    ensures var n := |f.name|;
      && b[p + 2] == f.id && b[p + 3] == f.group
      && Int16At(b, p + 6) == n
      && b[p + 8..p + 8 + n] == f.name
      && Int16Of(b[p + 8 + n..p + 10 + n]) == f.sampleRateByte
      && Int16Of(b[p + 10 + n..p + 12 + n]) == f.typeId
      && Int32Of(b[p + 12 + n..p + 16 + n]) == f.offset
      && Int32Of(b[p + 16 + n..p + 20 + n]) == f.length
      && UInt64Of(b[p + 36 + n..p + 44 + n]) == f.magic
  {
    EncodedParts(b, p, f);
    HeadAt(b, p, f);
    TailAt(b, p + 8 + |f.name|, f);
  }

  /** An encoded record is where the layout says: readable, ending
      `44 + |name|` bytes on, with the fields it was built from; the end
      check accepts it exactly when its magic is one of the two end markers. */
  lemma EncodedLayout(b: seq<byte>, p: nat, f: BinaryFields)
    requires f.Wf()
    requires p + 44 + |f.name| <= |b| && b[p..p + 44 + |f.name|] == EncodeBinaryRecord(f)
    ensures Readable(b, p) && RecordEnd(b, p) == p + 44 + |f.name| && RecordAt(b, p) == f.ToRecord()
    ensures IsValidRecord(b, p) == Ok(IsEndMagic(f.magic))
  {
    EncodedSlices(b, p, f);
  }

  /** Reading the encoding of a record back, wherever it lies in a buffer,
      gives its fields and the position just past it. */
  lemma BinaryRecordRoundTrip(b: seq<byte>, p: nat, f: BinaryFields)
    requires f.Wf()
    requires p + 44 + |f.name| <= |b| && b[p..p + 44 + |f.name|] == EncodeBinaryRecord(f)
    ensures ReadBinaryPxdRecord(b, p) == Ok((p + 44 + |f.name|, f.ToRecord()))
  {
    EncodedLayout(b, p, f);
    var r := ReadBinaryPxdRecord(b, p);
    assert r == Ok((RecordEnd(b, p), RecordAt(b, p)));
  }

  /** `binFilePrefix` of a binary descriptor: the descriptor's file name
      without extension and without its last three characters (the `inf`);
      `[..^3]` throws on a shorter name. */
  function BinaryBlobPrefix(stem: string): (r: Result<string>)
    ensures r.Ok? <==> |stem| >= 3
    ensures r.Ok? ==> r.value + stem[|stem| - 3..] == stem
  {
    if |stem| < 3 then Err(OutOfRange) else Ok(stem[..|stem| - 3])
  }

  /** The records of a binary descriptor from `position` up to the first
      candidate that fails the end check. */
  function BinaryTable(b: seq<byte>, position: nat): Result<seq<Record>>
    decreases |b| - position
  {
    var valid :- IsValidRecord(b, position);
    if !valid then Ok([])
    else
      var t :- ReadBinaryPxdRecord(b, position);
      var rest :- BinaryTable(b, t.0);
      Ok([t.1] + rest)
  }

  /** The reference reading of a binary table: `rs` lie back to back from
      `p`, each passing the end check and read at its layout offsets, and
      the end check refuses the position after the last. */
  predicate RecordsFrom(b: seq<byte>, p: nat, rs: seq<Record>)
    decreases |rs|
  {
    if rs == [] then IsValidRecord(b, p) == Ok(false)
    else
      && IsValidRecord(b, p) == Ok(true) && Readable(b, p)
      && RecordAt(b, p) == rs[0]
      && RecordsFrom(b, RecordEnd(b, p), rs[1..])
  }

  /** One step of `BinaryTable` over a record the end check accepts. */
  lemma BinaryTableStep(b: seq<byte>, p: nat)
    requires IsValidRecord(b, p) == Ok(true) && Readable(b, p)
    ensures RecordEnd(b, p) >= 0
    ensures var q: nat := RecordEnd(b, p);
      BinaryTable(b, p) == (if BinaryTable(b, q).Ok? then Ok([RecordAt(b, p)] + BinaryTable(b, q).value)
                            else BinaryTable(b, q))
  {
  }

  /** A table whose end check accepts no record at `p` is empty. */
  lemma BinaryTableEnd(b: seq<byte>, p: nat)
    requires IsValidRecord(b, p) == Ok(false)
    ensures BinaryTable(b, p) == Ok([])
  {
  }

  /** A table reads only records that pass the end check and are readable. */
  lemma BinaryTableAccepts(b: seq<byte>, p: nat)
    requires BinaryTable(b, p).Ok?
    ensures IsValidRecord(b, p).Ok?
    ensures IsValidRecord(b, p) == Ok(true) ==> Readable(b, p)
    ensures IsValidRecord(b, p) == Ok(false) ==> BinaryTable(b, p) == Ok([])
  {
  }

  lemma {:induction false} TableGivesRecords(b: seq<byte>, p: nat, rs: seq<Record>)
    requires BinaryTable(b, p) == Ok(rs)
    ensures RecordsFrom(b, p, rs)
    decreases |b| - p
  {
    BinaryTableAccepts(b, p);
    if IsValidRecord(b, p) == Ok(true) {
      BinaryTableStep(b, p);
      var q: nat := RecordEnd(b, p);
      TableGivesRecords(b, q, rs[1..]);
    }
  }

  /** A record the end check accepts, in front of the table after it. */
  lemma BinaryTableCons(b: seq<byte>, p: nat, rest: seq<Record>)
    requires IsValidRecord(b, p) == Ok(true) && Readable(b, p)
    requires BinaryTable(b, RecordEnd(b, p)) == Ok(rest)
    ensures BinaryTable(b, p) == Ok([RecordAt(b, p)] + rest)
  {
    BinaryTableStep(b, p);
  }

  lemma {:induction false} RecordsGiveTable(b: seq<byte>, p: nat, rs: seq<Record>)
    requires RecordsFrom(b, p, rs)
    ensures BinaryTable(b, p) == Ok(rs)
    decreases |rs|
  {
    if rs == [] {
      BinaryTableEnd(b, p);
    } else {
      RecordsGiveTable(b, RecordEnd(b, p), rs[1..]);
      BinaryTableCons(b, p, rs[1..]);
      HeadTail(rs);
    }
  }

  /** The records a binary table yields are exactly its reference reading. */
  lemma BinaryTableRecords(b: seq<byte>, p: nat, rs: seq<Record>)
    ensures BinaryTable(b, p) == Ok(rs) <==> RecordsFrom(b, p, rs)
  {
    if BinaryTable(b, p) == Ok(rs) { TableGivesRecords(b, p, rs); }
    if RecordsFrom(b, p, rs) { RecordsGiveTable(b, p, rs); }
  }

  /** `descriptorLines[i]`: an index past the end throws. */
  function Line(lines: seq<string>, i: int): Result<string>
  {
    if 0 <= i < |lines| then Ok(lines[i]) else Err(OutOfRange)
  }

  /** `s[1..^1]`: the text between the first and the last character (the
      quotes), which are dropped unchecked; a line shorter than two throws. */
  function Unquote(s: string): (r: Result<string>)
    ensures r.Ok? <==> |s| >= 2
    ensures r.Ok? ==> |r.value| == |s| - 2 && forall i :: 0 <= i < |r.value| ==> r.value[i] == s[i + 1]
  {
    if |s| < 2 then Err(OutOfRange) else Ok(s[1..|s| - 1])
  }

  function ParseLine(lines: seq<string>, i: int): Result<int>
  {
    var l :- Line(lines, i);
    ParseInt32(l)
  }

  function QuotedLine(lines: seq<string>, i: int): Result<string>
  {
    var l :- Line(lines, i);
    Unquote(l)
  }

  /** `ReadTextPxdRecord`: the block at `position` holds, one per line, the
      id, the group, the quoted blob file name (unused), the offset, the
      length, two quoted halves of the name, the sample-rate byte and the type. */
  function ReadTextPxdRecord(descriptorLines: seq<string>, position: nat): (r: Result<Record>)
    ensures r.Ok? ==> var l := descriptorLines;
      && position + 8 < |l|
      && |l[position + 2]| >= 2 && |l[position + 5]| >= 2 && |l[position + 6]| >= 2
      && r.value.name == l[position + 5][1..|l[position + 5]| - 1] + l[position + 6][1..|l[position + 6]| - 1]
      && Ok(r.value.id) == ParseInt32(l[position])
      && Ok(r.value.group) == ParseInt32(l[position + 1])
      && Ok(r.value.offset) == ParseInt32(l[position + 3])
      && Ok(r.value.length) == ParseInt32(l[position + 4])
      && Ok(r.value.sampleRateByte) == ParseInt32(l[position + 7])
      && Ok(r.value.typeId) == ParseInt32(l[position + 8])
  {
    var id :- ParseLine(descriptorLines, position);
    var group :- ParseLine(descriptorLines, position + 1);
    var pxdFilename :- QuotedLine(descriptorLines, position + 2);
    var offset :- ParseLine(descriptorLines, position + 3);
    var length :- ParseLine(descriptorLines, position + 4);
    var nameLine1 :- QuotedLine(descriptorLines, position + 5);
    var nameLine2 :- QuotedLine(descriptorLines, position + 6);
    var sampleRateByte :- ParseLine(descriptorLines, position + 7);
    var typeId :- ParseLine(descriptorLines, position + 8);
    Ok(Record(id, group, nameLine1 + nameLine2, offset, length, sampleRateByte, typeId))
  }

  /** The twelve lines of a text block for `rec`, whose name is split into
      `nameLine1` and `nameLine2`; `trailer` stands for the three lines the
      reader skips. */
  function EncodeTextRecord(rec: Record, pxdFilename: string, nameLine1: string, nameLine2: string,
                            trailer: seq<string>): (lines: seq<string>)
    requires |trailer| == 3
    ensures |lines| == 12
    ensures lines[0] == IntToString(rec.id) && lines[1] == IntToString(rec.group)
    ensures lines[2] == "\"" + pxdFilename + "\""
    ensures lines[3] == IntToString(rec.offset) && lines[4] == IntToString(rec.length)
    ensures lines[5] == "\"" + nameLine1 + "\"" && lines[6] == "\"" + nameLine2 + "\""
    ensures lines[7] == IntToString(rec.sampleRateByte) && lines[8] == IntToString(rec.typeId)
  {
    [IntToString(rec.id), IntToString(rec.group), "\"" + pxdFilename + "\"",
     IntToString(rec.offset), IntToString(rec.length),
     "\"" + nameLine1 + "\"", "\"" + nameLine2 + "\"",
     IntToString(rec.sampleRateByte), IntToString(rec.typeId)] + trailer
  }

  predicate IsInt32Record(rec: Record)
  {
    IsInt32(rec.id) && IsInt32(rec.group) && IsInt32(rec.offset) && IsInt32(rec.length)
    && IsInt32(rec.sampleRateByte) && IsInt32(rec.typeId)
  }

  lemma LineOf(before: seq<string>, block: seq<string>, after: seq<string>, k: nat)
    requires k < |block|
    ensures (before + block + after)[|before| + k] == block[k]
  {
  }

  lemma ParsedLine(lines: seq<string>, i: nat, v: int)
    requires IsInt32(v) && i < |lines| && lines[i] == IntToString(v)
    ensures ParseLine(lines, i) == Ok(v)
  {
    ParseFormatRoundTrip(v);
  }

  lemma QuotedLineOf(lines: seq<string>, i: nat, s: string)
    requires i < |lines| && lines[i] == "\"" + s + "\""
    ensures QuotedLine(lines, i) == Ok(s)
  {
    assert lines[i][1..|lines[i]| - 1] == s;
  }

  /** Reading back a block written by `EncodeTextRecord` gives the record. */
  lemma TextRecordRoundTrip(before: seq<string>, rec: Record, pxdFilename: string,
                            nameLine1: string, nameLine2: string, trailer: seq<string>, after: seq<string>)
    requires IsInt32Record(rec) && |trailer| == 3 && rec.name == nameLine1 + nameLine2
    ensures ReadTextPxdRecord(before + EncodeTextRecord(rec, pxdFilename, nameLine1, nameLine2, trailer) + after,
                              |before|) == Ok(rec)
  {
    var block := EncodeTextRecord(rec, pxdFilename, nameLine1, nameLine2, trailer);
    var lines := before + block + after;
    var p := |before|;
    ParsedLine(lines, p, rec.id) by { LineOf(before, block, after, 0); }
    ParsedLine(lines, p + 1, rec.group) by { LineOf(before, block, after, 1); }
    QuotedLineOf(lines, p + 2, pxdFilename) by { LineOf(before, block, after, 2); }
    ParsedLine(lines, p + 3, rec.offset) by { LineOf(before, block, after, 3); }
    ParsedLine(lines, p + 4, rec.length) by { LineOf(before, block, after, 4); }
    QuotedLineOf(lines, p + 5, nameLine1) by { LineOf(before, block, after, 5); }
    QuotedLineOf(lines, p + 6, nameLine2) by { LineOf(before, block, after, 6); }
    ParsedLine(lines, p + 7, rec.sampleRateByte) by { LineOf(before, block, after, 7); }
    ParsedLine(lines, p + 8, rec.typeId) by { LineOf(before, block, after, 8); }
  }

  /** The first line of the first block of a text descriptor, and the stride. */
  const FirstBlockLine: nat := 14
  const BlockStride: nat := 12

  /** The record read at each line position of a descriptor. */
  type BlockReader = nat -> Result<Record>

  /** `ReadTextPxdRecord` over the lines of one text descriptor. */
  function TextBlocks(lines: seq<string>): BlockReader
  {
    (p: nat) => ReadTextPxdRecord(lines, p)
  }

  /** The records of the blocks at `i`, `i + 12`, ... below `n`, or the
      first failure. */
  function Blocks(block: BlockReader, n: nat, i: nat): Result<seq<Record>>
    decreases n - i
  {
    if i >= n then Ok([])
    else
      var r :- block(i);
      var rest :- Blocks(block, n, i + BlockStride);
      Ok([r] + rest)
  }

  /** The records of a text descriptor: one per block at lines 14, 26, 38, ...
      while the block's first line exists. */
  function TextTable(lines: seq<string>, i: nat): Result<seq<Record>>
  {
    Blocks(TextBlocks(lines), |lines|, i)
  }

  /** The number of blocks whose first line lies in `lines[i..]`. */
  function BlockCount(n: nat, i: nat): nat
    decreases n - i
  {
    if i >= n then 0 else 1 + BlockCount(n, i + BlockStride)
  }

  /** A table holds one record per block. */
  lemma {:induction false} BlocksLength(block: BlockReader, n: nat, i: nat)
    requires Blocks(block, n, i).Ok?
    ensures |Blocks(block, n, i).value| == BlockCount(n, i)
    decreases n - i
  {
    if i < n {
      BlocksStep(block, n, i);
      BlocksLength(block, n, i + BlockStride);
    }
  }

  /** One step of `Blocks` at a block whose first line exists. */
  lemma BlocksStep(block: BlockReader, n: nat, i: nat)
    requires Blocks(block, n, i).Ok? && i < n
    ensures block(i).Ok? && Blocks(block, n, i + BlockStride).Ok?
    ensures Blocks(block, n, i).value == [block(i).value] + Blocks(block, n, i + BlockStride).value
  {
  }

  /** `Blocks` at a block whose first line exists: the block's record
      before the rest, or the first failure. */
  lemma BlocksAt(block: BlockReader, n: nat, i: nat)
    requires i < n
    ensures block(i).Err? ==> Blocks(block, n, i).Err?
    ensures block(i).Ok? ==>
      Blocks(block, n, i) == (if Blocks(block, n, i + BlockStride).Ok?
                              then Ok([block(i).value] + Blocks(block, n, i + BlockStride).value)
                              else Blocks(block, n, i + BlockStride))
  {
  }

  /** The k-th record of a table is the block read at line `j = i + 12 k`. */
  lemma {:induction false} BlocksNth(block: BlockReader, n: nat, i: nat, rs: seq<Record>, k: nat, j: nat)
    requires Blocks(block, n, i) == Ok(rs) && k < |rs| && j == i + BlockStride * k
    ensures block(j) == Ok(rs[k])
    decreases k
  {
    assert i < n;
    BlocksStep(block, n, i);
    var rest := Blocks(block, n, i + BlockStride).value;
    assert rs == [block(i).value] + rest;
    if k > 0 {
      BlocksNth(block, n, i + BlockStride, rest, k - 1, j);
    }
  }

  /** A text descriptor holds one record per block, and the k-th is the
      block at line `14 + 12 k`. */
  lemma TextTableBlocks(lines: seq<string>, rs: seq<Record>, k: nat)
    requires TextTable(lines, FirstBlockLine) == Ok(rs) && k < |rs|
    ensures |rs| == BlockCount(|lines|, FirstBlockLine)
    ensures ReadTextPxdRecord(lines, FirstBlockLine + BlockStride * k) == Ok(rs[k])
  {
    BlocksLength(TextBlocks(lines), |lines|, FirstBlockLine);
    BlocksNth(TextBlocks(lines), |lines|, FirstBlockLine, rs, k, FirstBlockLine + BlockStride * k);
  }
}
