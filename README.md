# eJayDecompressor in Dafny

This project models the logic of eJayDecompressor, a tool that unpacks the
compressed PXD samples of the eJay music programs into WAV files, and of
PXDConverter, its older single-file converter. The decoding itself happens
in native DLLs. What the C# code does, and what is modelled here, is
everything around those DLLs:

- reading the sample tables of a multi-sample archive: the binary
  `*inf.bin` descriptors and the text `*.inf` descriptors;
- parsing the small header that precedes each sample inside a blob file;
- deciding which blob file (`a`, `b`, ...) each sample lives in;
- pairing the left and right channels of stereo samples;
- choosing output directories and file names, with collisions resolved;
- writing the 44-byte WAV header in front of raw PCM data;
- cutting a WAV file out of an `.scl` container.

Modules follow the program's structure:

| module | file | what it holds |
|---|---|---|
| `Base` | base.dfy | bytes, little-endian integers, 32-bit wrap-around, ASCII, `Result`/`Option` |
| `Strings` | strings.dfy | `Trim`, `ToLower`, `EndsWith`, `IndexOf`, `Regex.Split` on CR LF, `int.ToString`, `int.Parse` |
| `Cursor` | cursor.dfy | `ReadBytes`, `ProcessBytes` |
| `Descriptor` | descriptor.dfy | `IsValidRecord`, `ReadBinaryPxdRecord`, `ReadTextPxdRecord`, the two record tables |
| `Host` | host.dfy | path operations and the disk as parameters, `ReadFileFromTo`, `BinPathPart`, `RemoveBadCharsFromFilename` |
| `Header` | header.dfy | `ReadPxdFileHeader` |
| `Router` | router.dfy | the scan loops with blob-part routing |
| `Sorting` | sorting.dfy | the two `List.Sort` calls |
| `Reconcile` | reconcile.dfy | `ProcessRecordsAndHeaders`: stereo pairing, directories, collisions, extraction |
| `Archives` | archives.dfy | `ProcessMultiWithBinaryInf`, `ProcessMultiWithTextInf` |
| `Streams` | streams.dfy | the input and output streams and `CopyStream` |
| `Wav` | wav.dfy | the WAV header writer, `RawToWav`, `SclToWav` |
| `Converter` | converter.dfy | PXDConverter's `Main`, `Contains` and `RawToWav` |

The code works by mutation in several places, and those places are
imperative Dafny proved against specification functions:

- the scan loops (`Router.ScanBinary`, `Router.ScanText`);
- the record loop with its index skip and collision loop
  (`Reconcile.ProcessRecordsAndHeaders`, `Reconcile.ResolveCollision`);
- the `BinaryWriter` header writes (`Wav.WriteWavHeader`);
- the buffered `CopyStream` (`Streams.CopyStream`, over the
  `Streams.InStream` and `Streams.OutStream` classes).

The file system, the host's path functions and the native decoder's output
are parameters:

- a `Host.Disk` maps paths to contents;
- a `Host.PathOps` holds `GetDirectoryName`, `GetFileName`,
  `GetFileNameWithoutExtension` and `GetInvalidFileNameChars`;
- raw PCM bytes are given as arguments.

Effects on the file system are listed as `Reconcile.Action` values or
returned as `Wav.Conversion` values. Exceptions are `Err` values of
`Base.Result`. The extraction loop and the two archive methods also
return the actions already performed when an exception ends them, since
directories and files created before it stay on disk.

Details of the code that the model keeps:

- The blob part advances only when it is non-empty (eJayDecompressor/Program.cs:251). An archive whose blob has no letter suffix never rotates.
- The header of a record is read from the blob of the part before the advance. The record is tagged with the part after it (lines 249-257).
- `ReadPxdFileHeader` chooses between three layouts of the header text (lines 136-151).
- `ProcessRecordsAndHeaders` uses the header's package and type unsanitised in the directory name (line 360). Only `RawToWav` sanitises them.
- The third stereo rule compares the name minus its last three characters with `(R)`/`(L)` (lines 327-329). The record loop pairs records by this rule, as written; see Findings.

## Model

| member | source | states |
|---|---|---|
| Base.Int16RoundTrip | eJayDecompressor/Program.cs:211-214 | `BitConverter.ToInt16` reads back every 16-bit value `BinaryWriter.Write(short)` writes |
| Base.Int32RoundTrip | eJayDecompressor/Program.cs:215-216 | `BitConverter.ToInt32` reads back every `int` `BinaryWriter.Write(int)` writes |
| Base.UInt64RoundTrip | eJayDecompressor/Program.cs:183 | the magic is an unsigned little-endian 64-bit value; reading eight bytes written from a value gives the value |
| Base.LittleEndianRoundTrip | eJayDecompressor/Program.cs:179-183 | little-endian decoding inverts encoding for every value below 256^n |
| Base.LittleEndianBound | eJayDecompressor/Program.cs:183 | n little-endian bytes hold a value below 256^n |
| Base.Wrap32 | eJayDecompressor/Program.cs:569-575 | the `(int)` cast and `length + 0x24` wrap to 32 bits: the result is an `int` congruent to the input, equal to it when it fits, and zero exactly for multiples of 2^32 |
| Base.AsciiString | eJayDecompressor/Program.cs:126 | `Encoding.ASCII.GetString` maps byte by byte, preserving length |
| Base.AsciiRoundTrip | eJayDecompressor/Program.cs:579 | decoding the ASCII encoding of an ASCII string gives it back |
| Base.AsciiStringAppend | eJayDecompressor/Program.cs:629 | ASCII decoding of a concatenation is the concatenation of the decodings |
| Strings.TrimStart | eJayDecompressor/Program.cs:291 | the result is a suffix of the input; everything cut is white space; the result does not start with white space |
| Strings.TrimEnd | eJayDecompressor/Program.cs:291 | the result is a prefix of the input; everything cut is white space; the result does not end with white space |
| Strings.Trim | eJayDecompressor/Program.cs:150 | the result has no white space at either end and is no longer than the input |
| Strings.TrimKeeps | eJayDecompressor/Program.cs:291 | `Trim` yields a contiguous slice of the input, the one after the leading white space |
| Strings.TrimCuts | eJayDecompressor/Program.cs:291 | everything `Trim` cuts is white space at the two ends |
| Strings.TrimTrimmed | eJayDecompressor/Program.cs:291 | trimming a trimmed string changes nothing |
| Strings.TrimStartCounts | eJayDecompressor/Program.cs:291 | `TrimStart` keeps every non-white-space character as often as it occurs |
| Strings.TrimEndCounts | eJayDecompressor/Program.cs:291 | `TrimEnd` keeps every non-white-space character as often as it occurs |
| Strings.TrimCounts | eJayDecompressor/Program.cs:291 | `Trim` keeps every non-white-space character as often as it occurs |
| Strings.Lower | eJayDecompressor/Program.cs:366 | `ToLower` folds each character and keeps the length |
| Strings.IndexFrom | eJayDecompressor/Program.cs:630-634 | the first occurrence at or after a position, or -1 when there is none after it |
| Strings.IndexOf | eJayDecompressor/Program.cs:630-634 | -1 exactly when the pattern occurs nowhere; otherwise an occurrence with none before it |
| Strings.SplitCrLf | eJayDecompressor/Program.cs:135 | `Regex.Split` on CR LF gives at least one segment, the first being a prefix of the input |
| Strings.JoinSplit | eJayDecompressor/Program.cs:135 | joining the segments with CR LF gives the input back |
| Strings.SplitPiecesClean | eJayDecompressor/Program.cs:135 | no segment contains CR LF |
| Strings.SplitJoin | eJayDecompressor/Program.cs:135 | splitting segments joined by CR LF gives the segments back, when none contains CR LF |
| Strings.SplitClean | eJayDecompressor/Program.cs:135 | a string without CR LF splits into itself alone |
| Strings.SplitAtSeparator | eJayDecompressor/Program.cs:135 | the split of `a + CR LF + t` is `a` followed by the split of `t` |
| Strings.NatToString | eJayDecompressor/Program.cs:350 | the decimal form of a number is a non-empty run of digits |
| Strings.NatToStringValue | eJayDecompressor/Program.cs:350 | the digits printed for a number have that number as their value |
| Strings.ParseInt32 | eJayDecompressor/Program.cs:401-410 | `int.Parse` yields an `int`, or fails with a format or an overflow error |
| Strings.ParseFormatRoundTrip | eJayDecompressor/Program.cs:401-410 | `int.Parse` reads back every `int` printed in decimal |
| Strings.SkipWhileRun | eJayDecompressor/Program.cs:401 | the skipped run satisfies the predicate and stops at the first character that does not |
| Cursor.ReadBytes | eJayDecompressor/Program.cs:162-165 | returns `position + size` and exactly `arr[position..position + size]`; out of range otherwise |
| Cursor.ProcessBytes | eJayDecompressor/Program.cs:154-159 | returns `position + size` and the conversion of exactly that slice; out of range otherwise |
| Descriptor.IsValidRecord | eJayDecompressor/Program.cs:167-186 | false past the end or when the magic position is past the end; out of range for a read that crosses the end; otherwise true exactly when the 64-bit value at `p + 36 + nameLength` is `0xFFFF000000000000` or 0 |
| Descriptor.ReadRecordName | eJayDecompressor/Program.cs:207-212 | reads id, group and the length-prefixed ASCII name, or fails when they do not fit |
| Descriptor.ReadRecordNumbers | eJayDecompressor/Program.cs:213-216 | reads sample-rate byte, type, offset and length little-endian from the twelve bytes at the position |
| Descriptor.ReadRecordFields | eJayDecompressor/Program.cs:207-216 | the kept fields of a record, ending 20 bytes plus the name after the start |
| Descriptor.SkipRecordTail | eJayDecompressor/Program.cs:218-224 | the unused fields and the magic take 24 bytes |
| Descriptor.ReadBinaryPxdRecord | eJayDecompressor/Program.cs:203-229 | succeeds exactly when the record fits; an `Ok` result is the record's end position and its fields |
| Descriptor.ValidRecordIsReadable | eJayDecompressor/Program.cs:177-224 | a record accepted by `IsValidRecord` with a non-negative name length is read to `p + 44 + nameLength`, and its magic sits where `IsValidRecord` looked |
| Descriptor.EncodeBinaryRecord | eJayDecompressor/Program.cs:203-224 | a record's bytes are 44 plus the name's length |
| Descriptor.EncodedLayout | eJayDecompressor/Program.cs:177-224 | an encoded record is readable, ends after 44 + name bytes, reads back its fields, and `IsValidRecord` accepts it exactly when its magic is an end magic |
| Descriptor.BinaryRecordRoundTrip | eJayDecompressor/Program.cs:203-229 | reading an encoded record gives back its fields and end position |
| Descriptor.BinaryBlobPrefix | eJayDecompressor/Program.cs:235 | the stem minus its last three characters; out of range for a shorter stem |
| Descriptor.BinaryTableStep | eJayDecompressor/Program.cs:241-243 | an accepted record is followed by the table read from its end |
| Descriptor.BinaryTableEnd | eJayDecompressor/Program.cs:241 | a rejected position ends the table |
| Descriptor.BinaryTableAccepts | eJayDecompressor/Program.cs:241-243 | a successful table was stopped by a rejected record, and every accepted one was readable |
| Descriptor.BinaryTableCons | eJayDecompressor/Program.cs:241-243 | the table at an accepted readable record is that record before the table at its end |
| Descriptor.TableGivesRecords | eJayDecompressor/Program.cs:238-243 | a table read from position p is a chain of accepted records starting at p, ended by a rejected one |
| Descriptor.RecordsGiveTable | eJayDecompressor/Program.cs:238-243 | such a chain is what the table reads |
| Descriptor.BinaryTableRecords | eJayDecompressor/Program.cs:238-243 | the table read from p is `rs` if and only if `rs` is such a chain |
| Descriptor.Unquote | eJayDecompressor/Program.cs:403 | `[1..^1]`: drops the first and last characters, failing below two characters |
| Descriptor.ReadTextPxdRecord | eJayDecompressor/Program.cs:399-415 | a record read at line p has the `int.Parse` values of lines p, p+1, p+3, p+4, p+7, p+8 and the name from unquoted lines p+5 and p+6 |
| Descriptor.EncodeTextRecord | eJayDecompressor/Program.cs:399-415 | writes a record as a 12-line block: numbers in decimal, strings in quotes, at the offsets the reader uses |
| Descriptor.TextRecordRoundTrip | eJayDecompressor/Program.cs:399-415 | reading a block written for a record, anywhere in the file, gives the record back |
| Descriptor.ParsedLine | eJayDecompressor/Program.cs:401 | a line holding a printed `int` parses to it |
| Descriptor.QuotedLineOf | eJayDecompressor/Program.cs:403 | a quoted line unquotes to its content |
| Descriptor.BlocksLength | eJayDecompressor/Program.cs:425 | the text loop reads one record per 12-line step from line 14 to the end |
| Descriptor.BlocksStep | eJayDecompressor/Program.cs:425-427 | a successful table is the block at i before the table from i + 12 |
| Descriptor.BlocksAt | eJayDecompressor/Program.cs:425-427 | a failing block fails the table; otherwise the table is the block before the rest |
| Descriptor.BlocksNth | eJayDecompressor/Program.cs:425-427 | the k-th record of the table is the block read at i + 12k |
| Descriptor.TextTableBlocks | eJayDecompressor/Program.cs:425-427 | the k-th record of a text table is `ReadTextPxdRecord` at line 14 + 12k |
| Header.TakeWhileNonZero | eJayDecompressor/Program.cs:132 | the longest prefix without a 0 byte |
| Header.TakeWhileOfPadded | eJayDecompressor/Program.cs:132 | text without 0 bytes padded with zeros is cut back to the text |
| Header.ElementOrEmpty | eJayDecompressor/Program.cs:149-151 | `ElementAtOrDefault(i) ?? ""` |
| Header.HeaderFields | eJayDecompressor/Program.cs:136-151 | the three branches: a last segment ending `.pxd`; fewer than three segments; otherwise the joined name, trimmed package and type |
| Header.HeaderText | eJayDecompressor/Program.cs:129-135 | the header text is no longer than the size byte |
| Header.ReadPxdFileHeader | eJayDecompressor/Program.cs:124-152 | succeeds exactly when the preamble fits; `isWave` exactly when bytes 0..3 are `RIFF`; `samples` is the int32 at `6 + size`; the fields are `HeaderFields` of the NUL-cut text split on CR LF |
| Header.RiffText | eJayDecompressor/Program.cs:126 | four bytes decode to `"RIFF"` exactly when they are the RIFF tag |
| Header.Int32Range | eJayDecompressor/Program.cs:134 | `BitConverter.ToInt32` gives an `int` |
| Header.PreambleBytes | eJayDecompressor/Program.cs:129-134 | a preamble is 10 bytes plus its text and padding |
| Header.PreambleLayout | eJayDecompressor/Program.cs:129-134 | tag, size byte, NUL-padded text and sample count sit where the reader looks |
| Header.PreambleRoundTrip | eJayDecompressor/Program.cs:124-152 | reading a preamble built from a tag, header lines and a sample count gives the count, `isWave` exactly for the RIFF tag, and `HeaderFields` of the lines |
| Header.PxdNamedHeader | eJayDecompressor/Program.cs:136-140 | a header `package CR LF name.pxd` yields name, package and an empty type |
| Host.ReadAllBytes | eJayDecompressor/Program.cs:237 | the file's contents; an exception for a missing file |
| Host.ReadFileFromTo | eJayDecompressor/Program.cs:192-201 | at most `length` bytes from `offset`, fewer at the end of the file; exceptions for a missing file or a negative argument |
| Host.BinPathPart | eJayDecompressor/Program.cs:265-287 | `a` if that blob exists, else `A`, else `""`, else the missing-blob exception, each exactly in its case |
| Host.SplitAny | eJayDecompressor/Program.cs:291 | `s.Split(bad)`: at least one piece, and no piece holds a character of the set |
| Host.RemoveChars | eJayDecompressor/Program.cs:291 | the characters not in the set, in order: no character of the set is left, and a string without any is unchanged |
| Host.RemoveCharsCounts | eJayDecompressor/Program.cs:291 | every character outside the set is kept as often as it occurs |
| Host.RemoveCharsAppend | eJayDecompressor/Program.cs:291 | the filter works piece by piece, so the kept characters keep their order |
| Host.RemoveCharsOne | eJayDecompressor/Program.cs:291 | one character is kept exactly when it is outside the set |
| Host.JoinSplitAny | eJayDecompressor/Program.cs:291 | `string.Join("", s.Split(bad))` is exactly that filter of `s` |
| Host.RemoveBadCharsFromFilename | eJayDecompressor/Program.cs:289-292 | the trim of the filtered trimmed name, which is trimmed, free of invalid characters, and no longer than the input |
| Host.SanitiseKeeps | eJayDecompressor/Program.cs:289-292 | every character that is neither invalid nor white space keeps its number of occurrences |
| Host.RemoveMiddle | eJayDecompressor/Program.cs:291 | an invalid character between two valid ones is dropped, the two kept in order |
| Host.SanitiseInside | eJayDecompressor/Program.cs:289-292 | `a<b` with `<` invalid becomes `ab` |
| Host.CleanNameUnchanged | eJayDecompressor/Program.cs:289-292 | a clean name is left as it is |
| Host.SanitiseIdempotent | eJayDecompressor/Program.cs:289-292 | sanitising twice is sanitising once |
| Router.NextUnit | eJayDecompressor/Program.cs:254 | `(char)(c + 1)`: the next UTF-16 code unit, wrapping at 0xFFFF |
| Router.NextPart | eJayDecompressor/Program.cs:254 | the next part is one character, the code unit after the current part's first |
| Router.RouteAppend | eJayDecompressor/Program.cs:241-259 | routing a concatenation routes the second half from the state the first half left |
| Router.RouteSnoc | eJayDecompressor/Program.cs:241-259 | routing one more record is one more loop pass |
| Router.PrefixedAssoc | eJayDecompressor/Program.cs:241-243 | records read so far can be regrouped |
| Router.WithPayload | eJayDecompressor/Program.cs:245 | only records with a non-zero length are kept |
| Router.WithPayloadAppend | eJayDecompressor/Program.cs:245 | filtering distributes over concatenation |
| Router.RecordsOf | eJayDecompressor/Program.cs:257 | the records of the list, in order |
| Router.RoutedSnoc | eJayDecompressor/Program.cs:249-257 | appending a routed entry keeps the list routed and moves the current part to the entry's |
| Router.RouteStepRouted | eJayDecompressor/Program.cs:245-258 | one pass keeps the list routed and appends the record exactly when it has a payload |
| Router.RouteRouted | eJayDecompressor/Program.cs:241-259 | a whole scan keeps the list routed and keeps exactly the records with a payload, in order |
| Router.RoutedTable | eJayDecompressor/Program.cs:241-259 | the entries of a scan are the table's records with a payload, each routed |
| Router.PartsStep | eJayDecompressor/Program.cs:251-257 | each entry's part equals the previous part or is the next letter; it changes only for a non-empty part, a non-first entry and offset 0 |
| Router.EmptyPartStays | eJayDecompressor/Program.cs:251 | an archive starting with the empty part keeps it for every entry |
| Router.AddRecord | eJayDecompressor/Program.cs:245-258 | the loop body: the header is read from the current part's blob, the part advances, then the entry is added |
| Router.ScanAdvance | eJayDecompressor/Program.cs:241-259 | after one record the loop state is the route of one more record |
| Router.ScanFails | eJayDecompressor/Program.cs:241-243 | a failing record read fails the scan |
| Router.ScanDone | eJayDecompressor/Program.cs:241 | the loop's end state is the scan's result |
| Router.ScanBinary | eJayDecompressor/Program.cs:238-259 | the `while` loop from position 8 succeeds exactly when the specification does, with the same entries |
| Router.TextStep | eJayDecompressor/Program.cs:427-441 | one pass of the text loop: the record at line i, routed |
| Router.ScanText | eJayDecompressor/Program.cs:425-442 | the `for` loop from line 14 in steps of 12 succeeds exactly when the specification does, with the same entries |
| Sorting.Insert | eJayDecompressor/Program.cs:297-299 | insertion keeps the order and adds exactly one element |
| Sorting.SortBy | eJayDecompressor/Program.cs:297-299 | the result is sorted by the key and is a permutation of the input |
| Reconcile.StereoChannelSizeAsWritten | eJayDecompressor/Program.cs:311-333 | the three rules as written and in order: 0 exactly for an empty next name; 1 exactly when the names agree before a final `R`/`L` of the next one; 3 exactly when that fails, both stems before the last three characters agree and the next one's stem is `(R)` or `(L)`; no pair exactly when none holds |
| Reconcile.AsWrittenTagRule | eJayDecompressor/Program.cs:325-329 | as written, rule 3 pairs only six-character names that both start with `(R)` or `(L)` |
| Reconcile.TagRuleMissesPair | eJayDecompressor/Program.cs:325-333 | `Bass(L)`/`Bass(R)`: not paired as written, paired with channel size 3 as intended |
| Reconcile.StereoChannelSize | eJayDecompressor/Program.cs:311-333 | the corrected rules in order: 0 exactly for an empty next name; 1 exactly when the names agree before a final `R`/`L`; 3 exactly when that fails, the stems agree and the next name ends in `(R)` or `(L)`; no pair exactly when none holds |
| Reconcile.Units | eJayDecompressor/Program.cs:304-339 | the loop over sorted records with its skip, for a given third rule: no more units than records; the first unit holds the first record, paired with the second exactly when the stereo test accepts them; every unit is what the test says of it |
| Reconcile.RulesDisagree | eJayDecompressor/Program.cs:325-333 | `Bass(L)`, `Bass(R)` is two mono units as written and one stereo unit corrected; `(R)abc`, `(R)xyz` is one stereo unit as written and two mono units corrected |
| Reconcile.UnitsCover | eJayDecompressor/Program.cs:304-339 | the units hold every record exactly once, in order |
| Reconcile.UnitsFrom | eJayDecompressor/Program.cs:335-339 | from index i, a paired record consumes i and i + 1, an unpaired one only i |
| Reconcile.OutputDir | eJayDecompressor/Program.cs:345-361 | the three directory cases: package and type of a titling header; blob prefix and record type; blob prefix and header type |
| Reconcile.BinaryDirIgnoresHeader | eJayDecompressor/Program.cs:345-350 | for a binary descriptor the directory depends only on the blob prefix and the record type |
| Reconcile.Underscores | eJayDecompressor/Program.cs:368 | k underscore characters |
| Reconcile.Candidate | eJayDecompressor/Program.cs:364-368 | a candidate keeps the stem, ends in `.wav` and has k underscores before it |
| Reconcile.BumpCandidate | eJayDecompressor/Program.cs:368 | replacing `.wav` by `_.wav` goes to the next candidate |
| Reconcile.Retries | eJayDecompressor/Program.cs:366-369 | at most 10 retries; every skipped candidate was taken (lower-cased); fewer than 10 means a free one was found |
| Reconcile.ResolveCollision | eJayDecompressor/Program.cs:366-369 | the collision loop ends at the candidate `Retries` names |
| Reconcile.EffectiveRate | eJayDecompressor/Program.cs:383 | `2 * samples * (stereo ? 2 : 1)` as an `int`, exact when it fits |
| Reconcile.PlanCons | eJayDecompressor/Program.cs:304-393 | the loop over units is one step then the rest, stopping at an exception |
| Reconcile.TargetsSnoc | eJayDecompressor/Program.cs:373-384 | the files written by one more action |
| Reconcile.TargetsMember | eJayDecompressor/Program.cs:373-384 | every action's file is among the files written |
| Reconcile.DistinctSnoc | eJayDecompressor/Program.cs:373-384 | an action on a new file keeps the written files distinct |
| Reconcile.ExtractionConsistent | eJayDecompressor/Program.cs:371-392 | one unit adds its lower-cased path to the set, counts one file and never writes a file twice |
| Reconcile.UnitStepConsistent | eJayDecompressor/Program.cs:341-392 | one unit keeps the state consistent, counts one file and adds at most one path |
| Reconcile.PlanConsistent | eJayDecompressor/Program.cs:304-393 | the whole loop keeps the state consistent, counts one file per unit, and adds at most one path per unit |
| Reconcile.PlaceUnit | eJayDecompressor/Program.cs:341-369 | the kept name, the directory and the output path that the 10-step collision loop ends on (free only when fewer than 10 renames were needed) |
| Reconcile.ExtractUnit | eJayDecompressor/Program.cs:371-392 | the directory creation and the copy or decompression unless the file exists, with the rate and stereo fields; a failing blob read leaves the directory created |
| Reconcile.ProcessUnit | eJayDecompressor/Program.cs:306-392 | one pass of the loop body over a unit, and the effects it leaves on disk whether or not it throws |
| Reconcile.ProcessRecordsAndHeaders | eJayDecompressor/Program.cs:294-396 | the sort, then the `for` loop with its skip and the program's own pairing test, is the plan over the as-written units of the records sorted by `(group, id)`; the performed actions include those done before an exception |
| Reconcile.PerformedCons | eJayDecompressor/Program.cs:304-393 | the effects of the loop are one pass's then the rest's, or the failing pass's own |
| Reconcile.StepPerformedExtends | eJayDecompressor/Program.cs:306-392 | a pass keeps all earlier actions, and a pass that succeeds performs exactly the actions it records |
| Reconcile.ExtractionKeeps | eJayDecompressor/Program.cs:371-392 | an extraction only appends to the actions done before it |
| Reconcile.PerformedOfPlan | eJayDecompressor/Program.cs:304-393 | a loop without an exception performs exactly the actions its plan records |
| Reconcile.PerformedExtends | eJayDecompressor/Program.cs:304-393 | effects are never undone: the actions before the loop are a prefix of all it performs |
| Reconcile.ProcessedRecords | eJayDecompressor/Program.cs:294-396 | under either third rule: the sort permutes the records; every record is in exactly one unit; `files` counts the units; no file is written twice; no more distinct paths than files |
| Archives.BinaryArchive | eJayDecompressor/Program.cs:235 | a binary descriptor's blob prefix is its stem minus the last three characters; out of range for a shorter stem |
| Archives.ProcessMultiWithBinaryInf | eJayDecompressor/Program.cs:231-263 | prefix, part, scan from position 8, sort by id, then the record loop; fails exactly when the specification does; reports the actions performed, none before the record loop |
| Archives.ProcessMultiWithTextInf | eJayDecompressor/Program.cs:417-445 | prefix, part, scan from line 14, then the record loop; fails exactly when the specification does; reports the actions performed, none before the record loop |
| Archives.BinaryPerformedOfPlan | eJayDecompressor/Program.cs:231-263 | a binary archive extracted without an exception performs exactly its plan's actions |
| Archives.TextPerformedOfPlan | eJayDecompressor/Program.cs:417-445 | a text archive extracted without an exception performs exactly its plan's actions |
| Archives.BinaryNeedsBlob | eJayDecompressor/Program.cs:265-287 | without a blob `a`, `A` or bare prefix the archive fails with the missing-blob exception |
| Archives.BinaryPlanFacts | eJayDecompressor/Program.cs:231-263 | a binary archive keeps every record with a payload, each in exactly one unit; `files` counts the units; no file is written twice |
| Archives.TextPlanFacts | eJayDecompressor/Program.cs:417-445 | a text archive keeps every record with a payload, each in exactly one unit; `files` counts the units; no file is written twice |
| Streams.InStream.Read | eJayDecompressor/Program.cs:661 | `Read` fills the buffer with the next `min(count, remaining)` bytes and advances past them |
| Streams.OutStream.Write | eJayDecompressor/Program.cs:663 | `Write(buffer, 0, len)` appends the first `len` bytes of the buffer |
| Streams.OutStream.WriteBytes | eJayDecompressor/Program.cs:579 | writing a byte array appends it |
| Streams.OutStream.WriteInt32 | eJayDecompressor/Program.cs:580 | writing an `int` appends its four little-endian bytes |
| Streams.OutStream.WriteInt16 | eJayDecompressor/Program.cs:583 | writing a `short` appends its two little-endian bytes |
| Streams.CopyStream | eJayDecompressor/Program.cs:657-664 | the loop ends with the input drained and every remaining input byte appended to the output, in order |
| Streams.CopyAll | PXDConverter/Program.cs:115-122 | copying a whole file into an empty output gives exactly the file's bytes |
| Wav.FieldBytes | eJayDecompressor/Program.cs:579-590 | each header field takes its tag's length, 4 or 2 bytes |
| Wav.FieldRoundTrip | eJayDecompressor/Program.cs:579-590 | each header field reads back from its bytes |
| Wav.KindsOf | eJayDecompressor/Program.cs:579-590 | the shape of the field list, field by field |
| Wav.EncodeCons | eJayDecompressor/Program.cs:579-590 | the header's bytes are the first field's then the rest's |
| Wav.DecodeEncode | eJayDecompressor/Program.cs:579-590 | reading a field list's bytes followed by anything gives the fields and exactly what follows |
| Wav.WavLayoutOk | eJayDecompressor/Program.cs:575-590 | the header has 12 well-formed fields of the WAV shape |
| Wav.WavHeaderLength | eJayDecompressor/Program.cs:579-590 | the header is 44 bytes |
| Wav.EncodePrefixLength | eJayDecompressor/Program.cs:579-590 | the first k fields take the sum of their widths |
| Wav.EncodeNext | eJayDecompressor/Program.cs:579-590 | writing one more field extends the written prefix by that field |
| Wav.WavFileRoundTrip | eJayDecompressor/Program.cs:575-594 | a WAV file reads back as the header for its data length and exactly the data; the RIFF size is the file length less 8 and the data size the file length less 44 |
| Wav.WriteWavHeader | eJayDecompressor/Program.cs:575-590 | the twelve `BinaryWriter.Write` calls append exactly the WAV header for `length` |
| Wav.WriteWavFile | eJayDecompressor/Program.cs:575-598 | the written file is the header for the `int`-cast data length followed by the data |
| Wav.RawWavTarget | eJayDecompressor/Program.cs:540-557 | the three path cases: the `Hyper2` sample `45`; a name holding a backslash; otherwise sanitised package, type and name |
| Wav.RawWavTargetShape | eJayDecompressor/Program.cs:538-557 | every `RawToWav` path lies under `converted_wav_files\` and ends in `.wav` |
| Wav.RawResultIsWav | eJayDecompressor/Program.cs:562-599 | nothing is written exactly when the target exists; the file is discarded exactly when the `int` length is 0; otherwise the file is a WAV of the raw data |
| Wav.RawToWav | eJayDecompressor/Program.cs:536-612 | the header read, the path choice, the directory created in every case, the existence and empty checks, then the header and the copied data |
| Wav.SclTarget | eJayDecompressor/Program.cs:616-620 | the output file is the sanitised `.scl` name with `.wav`, in its directory |
| Wav.SclEnd | eJayDecompressor/Program.cs:633-643 | the end is the first `LIST`, else the first `cue`, else -1 |
| Wav.MarkerAfterTag | eJayDecompressor/Program.cs:630-634 | an occurrence of `LIST` or `cue` never overlaps one of `RIFF` |
| Wav.SclSliceCases | eJayDecompressor/Program.cs:628-647 | no slice exactly when `RIFF` is absent; an exception exactly when the end lies before the first `RIFF` |
| Wav.SclSliceStart | eJayDecompressor/Program.cs:630-646 | the slice is `bytes[RIFF..end]` and starts with the RIFF tag |
| Wav.SclSliceHasNoList | eJayDecompressor/Program.cs:633-646 | the slice holds no `LIST` |
| Wav.CutWav | eJayDecompressor/Program.cs:629-646 | the searches for `RIFF`, `LIST` and `cue` yield exactly the slice, the absent slice or the exception of the slicing rule |
| Wav.SclToWav | eJayDecompressor/Program.cs:614-655 | skip an existing target, else write the slice from the first `RIFF` to the end marker; no directory for an existing target or an unreadable file |
| Wav.SclDirectoryCreated | eJayDecompressor/Program.cs:623-646 | the directory is created exactly when the target is absent, the file is read and it holds `RIFF`, including when the slice then throws |
| Converter.Fold | PXDConverter/Program.cs:125-128 | the ordinal comparison sees a string as it is; both keep the length |
| Converter.Contains | PXDConverter/Program.cs:125-128 | false for a null source; otherwise true exactly when `toCheck` occurs under the comparison |
| Converter.UpperAppend | PXDConverter/Program.cs:22 | case folding distributes over concatenation |
| Converter.ContainsSuffix | PXDConverter/Program.cs:22-24 | a string with `.pxd` appended contains `.pxd` |
| Converter.ContainsLength | PXDConverter/Program.cs:125-128 | a string containing a pattern is at least as long as it |
| Converter.FixPxdPath | PXDConverter/Program.cs:22-25 | the fixed path contains `.pxd` ignoring case; it is unchanged exactly when it already did, else `.pxd` is appended |
| Converter.FixPxdPathIdempotent | PXDConverter/Program.cs:22-25 | fixing a fixed path changes nothing |
| Converter.WavPathOf | PXDConverter/Program.cs:84 | the last three characters become `wav`: same length, same stem, ends in `wav`; `Remove` fails below three characters |
| Converter.AppendedPathGivesWav | PXDConverter/Program.cs:84 | a path that had `.pxd` appended becomes the same path with `.wav` |
| Converter.ConvertedIsWav | PXDConverter/Program.cs:88-107 | the converter's file reads back as the WAV header for the data length and exactly the data, with RIFF size and data size tied to the file length |
| Converter.RawToWav | PXDConverter/Program.cs:82-113 | the path, then the twelve header writes, then the copied raw data |
| Converter.Run | PXDConverter/Program.cs:12-69 | exit 0 exactly on full success and -3 exactly when decoding throws; no exit code of its own exactly when decoding leaves no temporary file, after creating an empty WAV file; a file is written exactly when the argument count, the DLL start and the decoding call succeed; its path ends in `wav`, following the `.pxd` fixup |
| Converter.Convert | PXDConverter/Program.cs:12-69 | `Main` with the DLL's outcome as a parameter |

## Findings

| source | as written | input that shows it | evidently intended | confidence | as-written member | corrected member |
|---|---|---|---|---|---|---|
| eJayDecompressor/Program.cs:327-329 | The third stereo rule compares `name[..^3]`, the name WITHOUT its last three characters, with `"(R)"` and `"(L)"`. It can only pair six-character names that begin with the tag. | `Bass(L)` followed by `Bass(R)` is not paired. The right channel becomes a second mono file. | Compare the last three characters, `name[^3..]`, with `(R)`/`(L)`, and the stems `name[..^3]` with each other. | not executed | Reconcile.StereoChannelSizeAsWritten (with Reconcile.TagRuleMissesPair and Reconcile.AsWrittenTagRule) | Reconcile.StereoChannelSize |

The extraction (`Reconcile.ProcessRecordsAndHeaders`, and through it the two archive methods) pairs records as the program does, by `Reconcile.StereoChannelSizeAsWritten`. The segmentation `Reconcile.Units` and the facts about it (`Reconcile.UnitsCover`, `Reconcile.ProcessedRecords`) take the third rule as a `Reconcile.PairingRule` argument. So the corrected rule has the same proved properties, and `Reconcile.RulesDisagree` shows where the two pipelines differ.

## Left out

- **Culture-sensitive operations.** `EndsWith`, `IndexOf` and `ToLower` depend on the culture. They are modelled as ordinal. Case folding covers ASCII letters only. `int.ToString` and `int.Parse` also use the current culture's number format (for example the record-type directory at eJayDecompressor/Program.cs:350 and `ReadTextPxdRecord`). `Strings.IntToString` and `Strings.ParseInt32` fix it to ASCII digits and `-`.
- **Path edge cases.**
  - Path functions that return `null` return the empty string here.
- Router.NextPart: a part letter whose successor is a UTF-16 surrogate becomes U+FFFD, because a Dafny `char` cannot be a surrogate.
- **`File.ReadAllLines`.** Its line decoding is not modelled: the text descriptor's lines are an input of `Archives.ProcessMultiWithTextInf`.
- **Native DLL calls.** `Pxd32Library`, `EjToolLibrary` and PXDConverter's `Initialize`/`WavToTemp`/`Close` are left out.
  - In `Reconcile`, decompression is a `Decompress` action, and the file is assumed written.
  - In `RawToWav`, the raw decoder output is a byte-string parameter.
  - In `Converter.Run`, the DLL's behaviour is a parameter: whether each call throws, and whether `RWavToTemp` leaves a temporary file and with what bytes.
- **Console and debug output.** The banner, usage text and warnings are not modelled, and neither is the argument parsing of eJayDecompressor's `Main` (eJayDecompressor/Program.cs:11-94).
- **`ProcessSinglePxdFile`, `ProcessFiles` and `FindFilesToDecompress`.** These dispatch files by extension and search directories, which is file-system traversal.
- **Exceptions.** They are modelled as `Err` values. `ProcessFiles` catches per-archive exceptions; that is not modelled.
- Archives.ProcessMultiWithBinaryInf: when a scan fails, the contract says that it fails but not which exception ends it.
- Archives.ProcessMultiWithTextInf: when a scan fails, the contract says that it fails but not which exception ends it.
- **Sort stability.** `List.Sort` is unstable. The model sorts stably by insertion and states only order and permutation. How .NET orders equal keys is not modelled.
- **File-system side effects.**
  - `Directory.CreateDirectory` is recorded as an action and assumed to succeed.
  - Deleting the temporary file and the partial WAV file, and `Directory.Delete` of the temporary directory, are not modelled.
  - The disk is fixed for one archive. Files written by earlier archives in the same run are not carried over.
- **Stream resources.** Opening and closing streams is not modelled, and neither is their failure.
- Reconcile.ExtractUnit: the warning when a file is still missing after decompression is not modelled.
