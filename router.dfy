/** The scan loops of `ProcessMultiWithBinaryInf` and `ProcessMultiWithTextInf`:
    each record with a payload gets the header read from the blob file of
    the current part, and the part letter steps on when the offsets
    start again from zero. */
module Router {
  import opened Base
  import opened Host
  import opened Descriptor
  import opened Header

  /** One archive being unpacked: the host, the descriptor path and the
      prefix of its blob files. */
  datatype Archive = Archive(disk: Disk, paths: PathOps, descriptorPath: string, binFilePrefix: string)

  /** An element of the `records` list: the record, the header read for
      it and the blob part it is tagged with. */
  datatype Entry = Entry(record: Record, header: PxdHeader, part: string)

  /** The loop's `part` and `records` variables. */
  datatype RouteState = RouteState(part: string, entries: seq<Entry>)

  function BinPath(a: Archive, part: string): string
  {
    BlobPath(a.paths, a.descriptorPath, a.binFilePrefix, part)
  }

  /** The C# code unit after `c`: `(char)(c + 1)` wraps at 0xFFFF. */
  function NextUnit(c: char): (u: nat)
    ensures u < 0x1_0000
    ensures c as int < 0xFFFF ==> u == c as int + 1
  {
    (c as int + 1) % 0x1_0000
  }

  predicate IsSurrogate(u: int) { 0xD800 <= u < 0xE000 }

  /** `((char)(part[0] + 1)).ToString()`: the one-letter part after `part`. */
  function NextPart(part: string): (r: string)
    requires |part| > 0
    ensures |r| == 1
    ensures !IsSurrogate(NextUnit(part[0])) ==> r[0] as int == NextUnit(part[0])
  {
    var u := NextUnit(part[0]);
    if IsSurrogate(u) then "�" else [u as char]
  }

  /** The header of `rec`, read from the blob file of `part`. */
  function HeaderOf(a: Archive, part: string, rec: Record): Result<PxdHeader>
  {
    var binPath := BinPath(a, part);
    var bytes :- ReadFileFromTo(a.disk, binPath, rec.offset, rec.length);
    ReadPxdFileHeader(a.paths, binPath, bytes)
  }

  /** How a scan obtains the header of a record from the blob of a part.
      The scans of an archive use `ReaderOf(a)`; the scan loops and their
      lemmas are stated for any reader. */
  type HeaderReader = (string, Record) -> Result<PxdHeader>

  function ReaderOf(a: Archive): HeaderReader
  {
    (part, rec) => HeaderOf(a, part, rec)
  }

  /** The part a record is tagged with, after `kept` records are in the list. */
  function PartAfter(part: string, kept: nat, rec: Record): string
  {
    if |part| > 0 && kept > 0 && rec.offset == 0 then NextPart(part) else part
  }

  /** One pass of a scan loop's body over a record that has been read. */
  function RouteStep(read: HeaderReader, st: RouteState, rec: Record): Result<RouteState>
  {
    if rec.length == 0 then Ok(st)
    else
      var header :- read(st.part, rec);
      var part := PartAfter(st.part, |st.entries|, rec);
      Ok(RouteState(part, st.entries + [Entry(rec, header, part)]))
  }

  /** The scan loop body applied to the records in order, stopping at the first failure. */
  function Route(read: HeaderReader, st: RouteState, rs: seq<Record>): Result<RouteState>
    decreases |rs|
  {
    if rs == [] then Ok(st)
    else
      var st' :- RouteStep(read, st, rs[0]);
      Route(read, st', rs[1..])
  }

  function Start(part: string): RouteState { RouteState(part, []) }

  /** Routing a concatenation routes the second half from where the first stopped. */
  lemma {:induction false} RouteAppend(read: HeaderReader, st: RouteState, xs: seq<Record>, ys: seq<Record>)
    ensures Route(read, st, xs + ys) ==
      (if Route(read, st, xs).Ok? then Route(read, Route(read, st, xs).value, ys) else Route(read, st, xs))
    decreases |xs|
  {
    if xs == [] {
      assert xs + ys == ys;
    } else {
      assert (xs + ys)[0] == xs[0];
      assert (xs + ys)[1..] == xs[1..] + ys;
      var step := RouteStep(read, st, xs[0]);
      if step.Ok? {
        RouteAppend(read, step.value, xs[1..], ys);
      }
    }
  }

  /** Routing one more record is one more step. */
  lemma RouteSnoc(read: HeaderReader, st: RouteState, xs: seq<Record>, rec: Record)
    ensures Route(read, st, xs + [rec]) ==
      (if Route(read, st, xs).Ok? then RouteStep(read, Route(read, st, xs).value, rec) else Route(read, st, xs))
  {
    RouteAppend(read, st, xs, [rec]);
    if Route(read, st, xs).Ok? {
      var s := Route(read, st, xs).value;
      assert [rec][1..] == [];
      var step := RouteStep(read, s, rec);
      if step.Ok? { assert Route(read, step.value, []) == Ok(step.value); }
    }
  }

  /** `prefix` consumed before `rest`: the result of a table read after
      the records already consumed. */
  function Prefixed(prefix: seq<Record>, rest: Result<seq<Record>>): Result<seq<Record>>
  {
    if rest.Ok? then Ok(prefix + rest.value) else rest
  }

  lemma PrefixedAssoc(x: seq<Record>, rec: Record, rest: Result<seq<Record>>)
    ensures Prefixed(x, Prefixed([rec], rest)) == Prefixed(x + [rec], rest)
  {
    if rest.Ok? { assert x + ([rec] + rest.value) == x + [rec] + rest.value; }
  }

  /** The records of a table that carry a payload, in order. */
  function WithPayload(rs: seq<Record>): (r: seq<Record>)
    ensures |r| <= |rs|
    ensures forall k :: 0 <= k < |r| ==> r[k].length != 0
  {
    if rs == [] then []
    else if rs[0].length == 0 then WithPayload(rs[1..])
    else [rs[0]] + WithPayload(rs[1..])
  }

  lemma {:induction false} WithPayloadAppend(xs: seq<Record>, ys: seq<Record>)
    ensures WithPayload(xs + ys) == WithPayload(xs) + WithPayload(ys)
    decreases |xs|
  {
    if xs == [] {
      assert xs + ys == ys;
    } else {
      assert (xs + ys)[0] == xs[0];
      assert (xs + ys)[1..] == xs[1..] + ys;
      WithPayloadAppend(xs[1..], ys);
    }
  }

  function RecordsOf(es: seq<Entry>): (r: seq<Record>)
    ensures |r| == |es| && forall k :: 0 <= k < |es| ==> r[k] == es[k].record
  {
    seq(|es|, k requires 0 <= k < |es| => es[k].record)
  }

  /** The part in force after the entries `es`, starting from `part0`. */
  function PartBefore(part0: string, es: seq<Entry>, k: nat): string
    requires k <= |es|
  {
    if k == 0 then part0 else es[k - 1].part
  }

  /** One entry of a routed list, given the part in force before it and
      the number of entries already kept: it has a payload; its header is
      the one read from the blob of that part; and its part is that part,
      or the next letter when the part is not empty, an entry is already
      kept and the record's offset is zero. */
  predicate EntryRouted(read: HeaderReader, before: string, kept: nat, e: Entry)
  {
    && e.record.length != 0
    && read(before, e.record) == Ok(e.header)
    && e.part == PartAfter(before, kept, e.record)
  }

  /** The reference description of a routed list: every entry is routed
      from the part its predecessor left in force. */
  predicate RoutedFrom(read: HeaderReader, part0: string, es: seq<Entry>)
  {
    forall k {:trigger PartBefore(part0, es, k)} :: 0 <= k < |es| ==>
      EntryRouted(read, PartBefore(part0, es, k), k, es[k])
  }

  /** The final `part` variable. */
  function LastPart(part0: string, es: seq<Entry>): string
  {
    PartBefore(part0, es, |es|)
  }

  /** The loop invariant of both scans. */
  predicate Routed(read: HeaderReader, part0: string, st: RouteState)
  {
    RoutedFrom(read, part0, st.entries) && st.part == LastPart(part0, st.entries)
  }

  /** Appending an entry routed from the last part keeps the description. */
  lemma RoutedSnoc(read: HeaderReader, part0: string, es: seq<Entry>, e: Entry)
    requires RoutedFrom(read, part0, es) && EntryRouted(read, LastPart(part0, es), |es|, e)
    ensures RoutedFrom(read, part0, es + [e]) && LastPart(part0, es + [e]) == e.part
  {
    var es' := es + [e];
    forall k | 0 <= k < |es'| ensures EntryRouted(read, PartBefore(part0, es', k), k, es'[k]) {
      if k < |es| {
        assert es'[k] == es[k];
        if k > 0 { assert es'[k - 1] == es[k - 1]; }
        assert PartBefore(part0, es', k) == PartBefore(part0, es, k);
      } else {
        assert es'[k] == e;
        assert PartBefore(part0, es', k) == LastPart(part0, es);
      }
    }
  }

  /** One step keeps the reference description. */
  lemma RouteStepRouted(read: HeaderReader, part0: string, st: RouteState, rec: Record)
    requires Routed(read, part0, st) && RouteStep(read, st, rec).Ok?
    ensures Routed(read, part0, RouteStep(read, st, rec).value)
    ensures RecordsOf(RouteStep(read, st, rec).value.entries) == RecordsOf(st.entries) + WithPayload([rec])
  {
    var st' := RouteStep(read, st, rec).value;
    assert [rec][1..] == [];
    if rec.length != 0 {
      var e := st'.entries[|st.entries|];
      assert st'.entries == st.entries + [e];
      RoutedSnoc(read, part0, st.entries, e);
      assert RecordsOf(st'.entries) == RecordsOf(st.entries) + [rec];
    }
  }

  /** Routing keeps exactly the records with a payload, in order, and the
      list it builds meets the reference description. */
  lemma {:induction false} RouteRouted(read: HeaderReader, part0: string, st: RouteState, rs: seq<Record>)
    requires Routed(read, part0, st) && Route(read, st, rs).Ok?
    ensures Routed(read, part0, Route(read, st, rs).value)
    ensures RecordsOf(Route(read, st, rs).value.entries) == RecordsOf(st.entries) + WithPayload(rs)
    decreases |rs|
  {
    if rs != [] {
      RouteStepRouted(read, part0, st, rs[0]);
      var st1 := RouteStep(read, st, rs[0]).value;
      assert Route(read, st, rs) == Route(read, st1, rs[1..]);
      RouteRouted(read, part0, st1, rs[1..]);
      WithPayloadAppend([rs[0]], rs[1..]);
      HeadTail(rs);
      AppendAssoc(RecordsOf(st.entries), WithPayload([rs[0]]), WithPayload(rs[1..]));
    }
  }

  /** The list a scan builds from a table: the records with a payload,
      each with the header of the part in force before it. */
  lemma RoutedTable(read: HeaderReader, part0: string, rs: seq<Record>)
    requires Route(read, Start(part0), rs).Ok?
    ensures var es := Route(read, Start(part0), rs).value.entries;
      RecordsOf(es) == WithPayload(rs) && RoutedFrom(read, part0, es)
  {
    RouteRouted(read, part0, Start(part0), rs);
  }

  /** The part letter never moves from an empty part, and otherwise it
      stays or steps to the next letter. */
  lemma PartsStep(read: HeaderReader, part0: string, es: seq<Entry>, k: nat)
    requires RoutedFrom(read, part0, es) && k < |es|
    ensures var before := PartBefore(part0, es, k);
      && (before == "" ==> es[k].part == "")
      && (es[k].part == before || (|before| > 0 && es[k].part == NextPart(before)))
      && (es[k].part != before ==> k > 0 && es[k].record.offset == 0)
  {
    assert EntryRouted(read, PartBefore(part0, es, k), k, es[k]);
  }

  /** Starting with no part letter, every entry uses the blob without one. */
  lemma {:induction false} EmptyPartStays(read: HeaderReader, es: seq<Entry>, k: nat)
    requires RoutedFrom(read, "", es) && k < |es|
    ensures es[k].part == ""
    decreases k
  {
    if k > 0 { EmptyPartStays(read, es, k - 1); }
    PartsStep(read, "", es, k);
  }

  /** The result of a whole scan, from the table as a function of the descriptor. */
  function Scanned(read: HeaderReader, table: Result<seq<Record>>, part0: string): Result<seq<Entry>>
  {
    var rs :- table;
    var st :- Route(read, Start(part0), rs);
    Ok(st.entries)
  }

  /** The body shared by both scan loops: for a record with a payload,
      read its header from the blob of the current part, then step the
      part when the offsets restart, and append the tagged record. */
  method AddRecord(read: HeaderReader, part: string, records: seq<Entry>, record: Record)
    returns (r: Result<RouteState>)
    ensures r == RouteStep(read, RouteState(part, records), record)
  {
    if record.length == 0 {
      return Ok(RouteState(part, records));
    }
    var header := read(part, record);
    if header.Err? {
      return Err(header.error);
    }
    var newPart := part;
    if |part| > 0 && |records| > 0 && record.offset == 0 {
      newPart := NextPart(part);
    }
    return Ok(RouteState(newPart, records + [Entry(record, header.value, newPart)]));
  }

  /** A scan that has consumed `done` and has `rest` of the table ahead
      moves on past one more record. */
  lemma ScanAdvance(read: HeaderReader, table: Result<seq<Record>>, part0: string, done: seq<Record>,
                    rest: Result<seq<Record>>, record: Record, rest': Result<seq<Record>>, st: RouteState)
    requires table == Prefixed(done, rest) && rest == Prefixed([record], rest')
    requires Route(read, Start(part0), done) == Ok(st)
    ensures table == Prefixed(done + [record], rest')
    ensures Route(read, Start(part0), done + [record]) == RouteStep(read, st, record)
    ensures RouteStep(read, st, record).Err? ==> Scanned(read, table, part0).Err?
  {
    PrefixedAssoc(done, record, rest');
    RouteSnoc(read, Start(part0), done, record);
    if RouteStep(read, st, record).Err? && table.Ok? {
      RouteAppend(read, Start(part0), done + [record], rest'.value);
    }
  }

  /** A scan whose table read fails fails. */
  lemma ScanFails(read: HeaderReader, table: Result<seq<Record>>, part0: string, done: seq<Record>, rest: Result<seq<Record>>)
    requires table == Prefixed(done, rest) && rest.Err?
    ensures Scanned(read, table, part0).Err?
  {
  }

  /** A scan that reaches the end of the table has routed all of it. */
  lemma ScanDone(read: HeaderReader, table: Result<seq<Record>>, part0: string, done: seq<Record>, st: RouteState)
    requires table == Prefixed(done, Ok([])) && Route(read, Start(part0), done) == Ok(st)
    ensures Scanned(read, table, part0) == Ok(st.entries)
  {
    assert done + [] == done;
  }

  /** The `while` loop of `ProcessMultiWithBinaryInf`: records from
      position 8 while the end check accepts one. */
  method ScanBinary(read: HeaderReader, descriptorBytes: seq<byte>, part0: string) returns (r: Result<seq<Entry>>)
    ensures var spec := Scanned(read, BinaryTable(descriptorBytes, 8), part0);
      (r.Ok? <==> spec.Ok?) && (r.Ok? ==> r == spec)
  {
    var b := descriptorBytes;
    ghost var table := BinaryTable(b, 8);
    var position: nat := 8;
    var part := part0;
    var records: seq<Entry> := [];
    ghost var done: seq<Record> := [];
    assert table.Ok? ==> [] + table.value == table.value;
    while true
      invariant table == Prefixed(done, BinaryTable(b, position))
      invariant Route(read, Start(part0), done) == Ok(RouteState(part, records))
      decreases |b| - position
    {
      var valid := IsValidRecord(b, position);
      if valid.Err? {
        ScanFails(read, table, part0, done, BinaryTable(b, position));
        return Err(valid.error);
      }
      if !valid.value {
        ScanDone(read, table, part0, done, RouteState(part, records));
        break;
      }
      var next := ReadBinaryPxdRecord(b, position);
      if next.Err? {
        ScanFails(read, table, part0, done, BinaryTable(b, position));
        return Err(next.error);
      }
      var record := next.value.1;
      var q: nat := next.value.0;
      BinaryTableStep(b, position);
      ScanAdvance(read, table, part0, done, BinaryTable(b, position), record, BinaryTable(b, q),
                  RouteState(part, records));
      var added := AddRecord(read, part, records, record);
      if added.Err? {
        return Err(added.error);
      }
      position := q;
      part, records := added.value.part, added.value.entries;
      done := done + [record];
    }
    return Ok(records);
  }

  /** One block of the `for` loop of `ProcessMultiWithTextInf`: read the
      record at line `i` and route it. */
  method TextStep(read: HeaderReader, block: BlockReader, n: nat, i: nat, part: string, records: seq<Entry>,
                  ghost table: Result<seq<Record>>, ghost part0: string, ghost done: seq<Record>)
    returns (r: Result<RouteState>, record: Record)
    requires i < n && table == Prefixed(done, Blocks(block, n, i))
    requires Route(read, Start(part0), done) == Ok(RouteState(part, records))
    ensures r.Err? ==> Scanned(read, table, part0).Err?
    ensures r.Ok? ==> table == Prefixed(done + [record], Blocks(block, n, i + BlockStride))
    ensures r.Ok? ==> Route(read, Start(part0), done + [record]) == r
  {
    var next := block(i);
    BlocksAt(block, n, i);
    if next.Err? {
      ScanFails(read, table, part0, done, Blocks(block, n, i));
      return Err(next.error), Record(0, 0, "", 0, 0, 0, 0);
    }
    record := next.value;
    ScanAdvance(read, table, part0, done, Blocks(block, n, i), record, Blocks(block, n, i + BlockStride),
                RouteState(part, records));
    r := AddRecord(read, part, records, record);
  }

  /** The `for` loop of `ProcessMultiWithTextInf`: a record every twelve
      lines from line 14 to the end of a descriptor of `n` lines, each
      read by `block` (for a text descriptor, `TextBlocks` of its lines). */
  method ScanText(read: HeaderReader, block: BlockReader, n: nat, part0: string) returns (r: Result<seq<Entry>>)
    ensures var spec := Scanned(read, Blocks(block, n, FirstBlockLine), part0);
      (r.Ok? <==> spec.Ok?) && (r.Ok? ==> r == spec)
  {
    ghost var table := Blocks(block, n, FirstBlockLine);
    var part := part0;
    var records: seq<Entry> := [];
    ghost var done: seq<Record> := [];
    var i: nat := FirstBlockLine;
    assert table.Ok? ==> [] + table.value == table.value;
    while i < n
      invariant table == Prefixed(done, Blocks(block, n, i))
      invariant Route(read, Start(part0), done) == Ok(RouteState(part, records))
      decreases n - i
    {
      var added, record := TextStep(read, block, n, i, part, records, table, part0, done);
      if added.Err? {
        return Err(added.error);
      }
      part, records := added.value.part, added.value.entries;
      done := done + [record];
      i := i + BlockStride;
    }
    ScanDone(read, table, part0, done, RouteState(part, records));
    return Ok(records);
  }
}
