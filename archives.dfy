/** The two archive kinds end to end: `ProcessMultiWithBinaryInf` and
    `ProcessMultiWithTextInf` find the blob part, scan the descriptor, and
    hand the routed records to `ProcessRecordsAndHeaders`. */
module Archives {
  import opened Base
  import opened Host
  import opened Descriptor
  import opened Router
  import opened Sorting
  import opened Reconcile

  /** The archive of a binary descriptor: its blob prefix is the
      descriptor's name without extension and without its last three
      characters. */
  function BinaryArchive(disk: Disk, paths: PathOps, descriptorPath: string): (r: Result<Archive>)
    ensures r.Ok? <==> |paths.fileNameWithoutExtension(descriptorPath)| >= 3
    ensures r.Ok? ==> var stem := paths.fileNameWithoutExtension(descriptorPath);
      r.value.binFilePrefix + stem[|stem| - 3..] == stem
    ensures r.Ok? ==> r.value.disk == disk && r.value.paths == paths && r.value.descriptorPath == descriptorPath
  {
    var binFilePrefix :- BinaryBlobPrefix(paths.fileNameWithoutExtension(descriptorPath));
    Ok(Archive(disk, paths, descriptorPath, binFilePrefix))
  }

  /** The archive of a text descriptor: its blob prefix is the descriptor's
      name without extension. */
  function TextArchive(disk: Disk, paths: PathOps, descriptorPath: string): Archive
  {
    Archive(disk, paths, descriptorPath, paths.fileNameWithoutExtension(descriptorPath))
  }

  /** `ProcessRecordsAndHeaders` on a list of routed records. */
  function PlanRecords(a: Archive, binaryHeader: bool, records: seq<Entry>): Result<PlanState>
  {
    Plan(a, binaryHeader, EmptyPlan(), Units(AsWritten, SortBy(GroupIdKey, records)))
  }

  /** The effects on disk of `ProcessRecordsAndHeaders` on a list of routed
      records, including those done before an exception. */
  function PerformedRecords(a: Archive, binaryHeader: bool, records: seq<Entry>): seq<Action>
  {
    Performed(a, binaryHeader, EmptyPlan(), Units(AsWritten, SortBy(GroupIdKey, records)))
  }

  /** The method's result is the specification's, up to which exception
      ends a failing scan. */
  predicate Agrees(r: Result<PlanState>, spec: Result<PlanState>)
  {
    (r.Ok? <==> spec.Ok?) && (r.Ok? ==> r == spec)
  }

  /** What `ProcessMultiWithBinaryInf` does with a descriptor: the scan from
      position 8, a sort by `id`, then the units of the records sorted by
      `(group, id)`. */
  function BinaryPlan(disk: Disk, paths: PathOps, descriptorPath: string): Result<PlanState>
  {
    var a :- BinaryArchive(disk, paths, descriptorPath);
    var part :- BinPathPart(disk, paths, descriptorPath, a.binFilePrefix);
    var descriptorBytes :- ReadAllBytes(disk, descriptorPath);
    var records :- Scanned(ReaderOf(a), BinaryTable(descriptorBytes, 8), part);
    PlanRecords(a, true, SortBy(IdKey, records))
  }

  /** What `ProcessMultiWithTextInf` does with a descriptor whose lines are
      `descriptorLines`: the scan of the blocks from line 14, then the
      units of the records sorted by `(group, id)`. */
  function TextPlan(disk: Disk, paths: PathOps, descriptorPath: string, descriptorLines: seq<string>): Result<PlanState>
  {
    var a := TextArchive(disk, paths, descriptorPath);
    var part :- BinPathPart(disk, paths, descriptorPath, a.binFilePrefix);
    var records :- Scanned(ReaderOf(a), TextTable(descriptorLines, FirstBlockLine), part);
    PlanRecords(a, false, records)
  }

  /** The effects on disk of `ProcessMultiWithBinaryInf`: an exception
      before the extraction loop leaves the disk as it was. */
  function BinaryPerformed(disk: Disk, paths: PathOps, descriptorPath: string): seq<Action>
  {
    var a := BinaryArchive(disk, paths, descriptorPath);
    if a.Err? then [] else
    var part := BinPathPart(disk, paths, descriptorPath, a.value.binFilePrefix);
    if part.Err? then [] else
    var descriptorBytes := ReadAllBytes(disk, descriptorPath);
    if descriptorBytes.Err? then [] else
    var records := Scanned(ReaderOf(a.value), BinaryTable(descriptorBytes.value, 8), part.value);
    if records.Err? then [] else
    PerformedRecords(a.value, true, SortBy(IdKey, records.value))
  }

  /** The effects on disk of `ProcessMultiWithTextInf`. */
  function TextPerformed(disk: Disk, paths: PathOps, descriptorPath: string, descriptorLines: seq<string>): seq<Action>
  {
    var a := TextArchive(disk, paths, descriptorPath);
    var part := BinPathPart(disk, paths, descriptorPath, a.binFilePrefix);
    if part.Err? then [] else
    var records := Scanned(ReaderOf(a), TextTable(descriptorLines, FirstBlockLine), part.value);
    if records.Err? then [] else
    PerformedRecords(a, false, records.value)
  }

  /** A binary archive that is extracted without an exception has done on
      disk exactly the actions its plan records. */
  lemma BinaryPerformedOfPlan(disk: Disk, paths: PathOps, descriptorPath: string)
    requires BinaryPlan(disk, paths, descriptorPath).Ok?
    ensures BinaryPerformed(disk, paths, descriptorPath) == BinaryPlan(disk, paths, descriptorPath).value.actions
  {
    var a := BinaryArchive(disk, paths, descriptorPath).value;
    var part := BinPathPart(disk, paths, descriptorPath, a.binFilePrefix).value;
    var descriptorBytes := ReadAllBytes(disk, descriptorPath).value;
    var records := Scanned(ReaderOf(a), BinaryTable(descriptorBytes, 8), part).value;
    PerformedOfPlan(a, true, EmptyPlan(), Units(AsWritten, SortBy(GroupIdKey, SortBy(IdKey, records))));
  }

  /** A text archive that is extracted without an exception has done on
      disk exactly the actions its plan records. */
  lemma TextPerformedOfPlan(disk: Disk, paths: PathOps, descriptorPath: string, descriptorLines: seq<string>)
    requires TextPlan(disk, paths, descriptorPath, descriptorLines).Ok?
    ensures TextPerformed(disk, paths, descriptorPath, descriptorLines) == TextPlan(disk, paths, descriptorPath, descriptorLines).value.actions
  {
    var a := TextArchive(disk, paths, descriptorPath);
    var part := BinPathPart(disk, paths, descriptorPath, a.binFilePrefix).value;
    var records := Scanned(ReaderOf(a), TextTable(descriptorLines, FirstBlockLine), part).value;
    PerformedOfPlan(a, false, EmptyPlan(), Units(AsWritten, SortBy(GroupIdKey, records)));
  }

  method ProcessMultiWithBinaryInf(disk: Disk, paths: PathOps, descriptorPath: string)
    returns (r: Result<PlanState>, performed: seq<Action>)
    ensures Agrees(r, BinaryPlan(disk, paths, descriptorPath))
    ensures performed == BinaryPerformed(disk, paths, descriptorPath)
  {
    var archive := BinaryArchive(disk, paths, descriptorPath);
    if archive.Err? {
      return Err(archive.error), [];
    }
    var a := archive.value;
    var part := BinPathPart(disk, paths, descriptorPath, a.binFilePrefix);
    if part.Err? {
      return Err(part.error), [];
    }
    var descriptorBytes := ReadAllBytes(disk, descriptorPath);
    if descriptorBytes.Err? {
      return Err(descriptorBytes.error), [];
    }
    var records := ScanBinary(ReaderOf(a), descriptorBytes.value, part.value);
    if records.Err? {
      return Err(records.error), [];
    }
    var byId := SortBy(IdKey, records.value);
    r, performed := ProcessRecordsAndHeaders(a, byId, true);
  }

  /** `descriptorLines` is what `File.ReadAllLines` returns for the descriptor. */
  method ProcessMultiWithTextInf(disk: Disk, paths: PathOps, descriptorPath: string, descriptorLines: seq<string>)
    returns (r: Result<PlanState>, performed: seq<Action>)
    ensures Agrees(r, TextPlan(disk, paths, descriptorPath, descriptorLines))
    ensures performed == TextPerformed(disk, paths, descriptorPath, descriptorLines)
  {
    var a := TextArchive(disk, paths, descriptorPath);
    var part := BinPathPart(disk, paths, descriptorPath, a.binFilePrefix);
    if part.Err? {
      return Err(part.error), [];
    }
    var records := ScanText(ReaderOf(a), TextBlocks(descriptorLines), |descriptorLines|, part.value);
    if records.Err? {
      return Err(records.error), [];
    }
    r, performed := ProcessRecordsAndHeaders(a, records.value, false);
  }

  /** A binary descriptor with none of the blob files `a`, `A` or the bare
      prefix next to it is an exception, and nothing is extracted. */
  lemma BinaryNeedsBlob(disk: Disk, paths: PathOps, descriptorPath: string)
    requires BinaryArchive(disk, paths, descriptorPath).Ok?
    requires var prefix := BinaryArchive(disk, paths, descriptorPath).value.binFilePrefix;
      forall part :: part in {"a", "A", ""} ==> !Exists(disk, BlobPath(paths, descriptorPath, prefix, part))
    ensures BinaryPlan(disk, paths, descriptorPath) == Err(NoBlobFile)
  {
    var prefix := BinaryArchive(disk, paths, descriptorPath).value.binFilePrefix;
    assert "a" in {"a", "A", ""} && "A" in {"a", "A", ""} && "" in {"a", "A", ""};
  }

  /** A binary archive's extraction: every record with a payload is in
      exactly one unit, `files` counts the units, and no file is written
      twice. */
  lemma BinaryPlanFacts(disk: Disk, paths: PathOps, descriptorPath: string)
    requires BinaryPlan(disk, paths, descriptorPath).Ok?
    ensures var a := BinaryArchive(disk, paths, descriptorPath).value;
      var part := BinPathPart(disk, paths, descriptorPath, a.binFilePrefix).value;
      var descriptorBytes := ReadAllBytes(disk, descriptorPath).value;
      var rs := BinaryTable(descriptorBytes, 8).value;
      var es := Route(ReaderOf(a), Start(part), rs).value.entries;
      var sorted := SortBy(GroupIdKey, SortBy(IdKey, es));
      var st := BinaryPlan(disk, paths, descriptorPath).value;
      && RecordsOf(es) == WithPayload(rs)
      && multiset(sorted) == multiset(es)
      && Members(Units(AsWritten, sorted)) == sorted
      && st.files == |Units(AsWritten, sorted)|
      && Consistent(st)
  {
    var a := BinaryArchive(disk, paths, descriptorPath).value;
    var part := BinPathPart(disk, paths, descriptorPath, a.binFilePrefix).value;
    var descriptorBytes := ReadAllBytes(disk, descriptorPath).value;
    var rs := BinaryTable(descriptorBytes, 8).value;
    RoutedTable(ReaderOf(a), part, rs);
    var es := Route(ReaderOf(a), Start(part), rs).value.entries;
    ProcessedRecords(AsWritten, a, SortBy(IdKey, es), true);
  }

  /** A text archive's extraction: every record with a payload is in
      exactly one unit, `files` counts the units, and no file is written
      twice. */
  lemma TextPlanFacts(disk: Disk, paths: PathOps, descriptorPath: string, descriptorLines: seq<string>)
    requires TextPlan(disk, paths, descriptorPath, descriptorLines).Ok?
    ensures var a := TextArchive(disk, paths, descriptorPath);
      var part := BinPathPart(disk, paths, descriptorPath, a.binFilePrefix).value;
      var rs := TextTable(descriptorLines, FirstBlockLine).value;
      var es := Route(ReaderOf(a), Start(part), rs).value.entries;
      var sorted := SortBy(GroupIdKey, es);
      var st := TextPlan(disk, paths, descriptorPath, descriptorLines).value;
      && RecordsOf(es) == WithPayload(rs)
      && multiset(sorted) == multiset(es)
      && Members(Units(AsWritten, sorted)) == sorted
      && st.files == |Units(AsWritten, sorted)|
      && Consistent(st)
  {
    var a := TextArchive(disk, paths, descriptorPath);
    var part := BinPathPart(disk, paths, descriptorPath, a.binFilePrefix).value;
    var rs := TextTable(descriptorLines, FirstBlockLine).value;
    RoutedTable(ReaderOf(a), part, rs);
    var es := Route(ReaderOf(a), Start(part), rs).value.entries;
    ProcessedRecords(AsWritten, a, es, false);
  }
}
