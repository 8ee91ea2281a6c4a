/** The WAV container both programs write around raw decoder output, and
    the two single-file conversions of the decompressor: `RawToWav`, which
    wraps the raw PCM of a sample file, and `SclToWav`, which cuts the
    embedded RIFF file out of an `.scl` file. */
module Wav {
  import opened Base
  import opened Strings
  import opened Host
  import opened Header
  import opened Streams
  import opened Reconcile

  /** One field the `BinaryWriter` writes: ASCII bytes, an `int` or a `short`. */
  datatype Field = Tag(text: string) | I32(value: int) | I16(value: int)

  /** What a reader expects next: a tag of `n` bytes, an `int` or a `short`. */
  datatype Kind = TagKind(n: nat) | I32Kind | I16Kind

  function KindOf(f: Field): Kind
  {
    match f
    case Tag(text) => TagKind(|text|)
    case I32(_) => I32Kind
    case I16(_) => I16Kind
  }

  function Width(k: Kind): nat
  {
    match k
    case TagKind(n) => n
    case I32Kind => 4
    case I16Kind => 2
  }

  /** The field can be written and read back: ASCII text, values in range. */
  predicate FieldOk(f: Field)
  {
    match f
    case Tag(text) => IsAscii(text)
    case I32(v) => IsInt32(v)
    case I16(v) => -0x8000 <= v < 0x8000
  }

  function FieldBytes(f: Field): (b: seq<byte>)
    ensures |b| == Width(KindOf(f))
  {
    match f
    case Tag(text) => AsciiBytes(text)
    case I32(v) => Int32Bytes(v)
    case I16(v) => Int16Bytes(v)
  }

  function ReadField(k: Kind, b: seq<byte>): Field
    requires |b| == Width(k)
  {
    match k
    case TagKind(_) => Tag(AsciiString(b))
    case I32Kind => I32(Int32Of(b))
    case I16Kind => I16(Int16Of(b))
  }

  lemma FieldRoundTrip(f: Field)
    requires FieldOk(f)
    ensures ReadField(KindOf(f), FieldBytes(f)) == f
  {
    match f
    case Tag(text) => AsciiRoundTrip(text);
    case I32(v) => Int32RoundTrip(v);
    case I16(v) => Int16RoundTrip(v);
  }

  /** The bytes of consecutive writes. */
  function Encode(fs: seq<Field>): (b: seq<byte>)
    decreases |fs|
  {
    if fs == [] then [] else Encode(fs[..|fs| - 1]) + FieldBytes(fs[|fs| - 1])
  }

  function KindsOf(fs: seq<Field>): (ks: seq<Kind>)
    ensures |ks| == |fs| && forall i :: 0 <= i < |fs| ==> ks[i] == KindOf(fs[i])
  {
    seq(|fs|, i requires 0 <= i < |fs| => KindOf(fs[i]))
  }

  /** A reader of the fields `ks` at the front of `b`: the fields and the
      bytes after them, or `None` when `b` is too short. */
  function Decode(ks: seq<Kind>, b: seq<byte>): Option<(seq<Field>, seq<byte>)>
    decreases |ks|
  {
    if ks == [] then Some(([], b))
    else if |b| < Width(ks[0]) then None
    else
      match Decode(ks[1..], b[Width(ks[0])..])
      case None => None
      case Some((fs, rest)) => Some(([ReadField(ks[0], b[..Width(ks[0])])] + fs, rest))
  }

  lemma EncodeCons(f: Field, fs: seq<Field>)
    ensures Encode([f] + fs) == FieldBytes(f) + Encode(fs)
    decreases |fs|
  {
    if fs != [] {
      var g := [f] + fs;
      assert g[..|g| - 1] == [f] + fs[..|fs| - 1];
      EncodeCons(f, fs[..|fs| - 1]);
      AppendAssoc(FieldBytes(f), Encode(fs[..|fs| - 1]), FieldBytes(fs[|fs| - 1]));
    } else {
      assert [f] + fs == [f];
      assert [f][..0] == [];
    }
  }

  /** Reading back what was written gives the fields written, then the bytes after them. */
  lemma {:induction false} DecodeEncode(fs: seq<Field>, tail: seq<byte>)
    requires forall i :: 0 <= i < |fs| ==> FieldOk(fs[i])
    ensures Decode(KindsOf(fs), Encode(fs) + tail) == Some((fs, tail))
    decreases |fs|
  {
    if fs != [] {
      var f, rest := fs[0], fs[1..];
      HeadTail(fs);
      EncodeCons(f, rest);
      var b := Encode(fs) + tail;
      AppendAssoc(FieldBytes(f), Encode(rest), tail);
      var w := Width(KindOf(f));
      assert b[..w] == FieldBytes(f);
      assert b[w..] == Encode(rest) + tail;
      var ks := KindsOf(fs);
      assert ks[0] == KindOf(f) && Width(ks[0]) == w && |b| >= w;
      assert ks[1..] == KindsOf(rest);
      DecodeEncode(rest, tail);
      FieldRoundTrip(f);
      assert Decode(ks[1..], b[w..]) == Some((rest, tail));
      assert ReadField(ks[0], b[..w]) == f;
    } else {
      assert KindsOf(fs) == [] && Encode(fs) + tail == tail;
    }
  }

  /** The 44-byte header, field by field: the RIFF chunk (`RIFF`, the RIFF
      size `length + 0x24` in 32-bit arithmetic, `WAVE`) with its 16-byte
      format chunk (`fmt `, PCM, one channel, 44100 samples per second,
      88200 bytes per second, blocks of 2 bytes, 16 bits per sample), then
      `data` and the payload length. */
  function WavLayout(length: int): seq<Field>
  {
    [Tag("RIFF"), I32(Wrap32(length + 0x24)), Tag("WAVEfmt "), I32(16), I16(1), I16(1),
     I32(44100), I32(88200), I16(2), I16(16), Tag("data"), I32(length)]
  }

  /** What a reader of a WAV file expects in the first 44 bytes. */
  const WavKinds: seq<Kind> :=
    [TagKind(4), I32Kind, TagKind(8), I32Kind, I16Kind, I16Kind, I32Kind, I32Kind, I16Kind, I16Kind, TagKind(4), I32Kind]

  function WavHeader(length: int): (h: seq<byte>)
  {
    Encode(WavLayout(length))
  }

  lemma WavLayoutOk(length: int)
    requires IsInt32(length)
    ensures forall i :: 0 <= i < 12 ==> FieldOk(WavLayout(length)[i])
    ensures |WavLayout(length)| == 12 && KindsOf(WavLayout(length)) == WavKinds
  {
    var fs := WavLayout(length);
    assert IsAscii("RIFF") && IsAscii("WAVEfmt ") && IsAscii("data");
  }

  /** A file of header and payload reads back as a consistent WAV file: the
      header's fields are the ones written, the payload follows unchanged,
      and while the payload is short enough for 32-bit sizes the RIFF size
      counts everything after the first eight bytes and the data size is
      the payload's. */
  lemma WavFileRoundTrip(payload: seq<byte>)
    requires |payload| < 0x8000_0000
    ensures var length := Wrap32(|payload|);
      Decode(WavKinds, WavHeader(length) + payload) == Some((WavLayout(length), payload))
    ensures |payload| + 0x24 < 0x8000_0000 ==>
      var f := WavHeader(|payload|) + payload;
      && |WavHeader(|payload|)| == 44
      && WavLayout(|payload|)[1] == I32(|f| - 8)
      && WavLayout(|payload|)[11] == I32(|f| - 44)
  {
    var length := Wrap32(|payload|);
    WavLayoutOk(length);
    DecodeEncode(WavLayout(length), payload);
    WavHeaderLength(length);
  }

  lemma WavHeaderLength(length: int)
    ensures |WavHeader(length)| == 44
  {
    var fs := WavLayout(length);
    assert Widths(fs, 1) == 4;
    assert Widths(fs, 2) == 8;
    assert Widths(fs, 3) == 16;
    assert Widths(fs, 4) == 20;
    assert Widths(fs, 5) == 22;
    assert Widths(fs, 6) == 24;
    assert Widths(fs, 7) == 28;
    assert Widths(fs, 8) == 32;
    assert Widths(fs, 9) == 34;
    assert Widths(fs, 10) == 36;
    assert Widths(fs, 11) == 40;
    assert Widths(fs, 12) == 44;
    EncodePrefixLength(fs, 12);
    WholePrefix(fs);
  }

  /** The widths of the first `k` fields. */
  function Widths(fs: seq<Field>, k: nat): nat
    requires k <= |fs|
  {
    if k == 0 then 0 else Widths(fs, k - 1) + Width(KindOf(fs[k - 1]))
  }

  /** The bytes of the first `k` fields take their widths. */
  lemma {:induction false} EncodePrefixLength(fs: seq<Field>, k: nat)
    requires k <= |fs|
    ensures |Encode(fs[..k])| == Widths(fs, k)
    decreases k
  {
    if k > 0 {
      assert fs[..k][..k - 1] == fs[..k - 1];
      EncodePrefixLength(fs, k - 1);
    }
  }

  /** Writing field `k` after the first `k` extends their bytes by its own. */
  lemma EncodeNext(start: seq<byte>, fs: seq<Field>, k: nat)
    requires k < |fs|
    ensures start + Encode(fs[..k]) + FieldBytes(fs[k]) == start + Encode(fs[..k + 1])
  {
    assert fs[..k + 1][..k] == fs[..k];
    AppendAssoc(start, Encode(fs[..k]), FieldBytes(fs[k]));
  }

  /** The `BinaryWriter` calls of both `RawToWav`s, field by field. */
  method WriteWavHeader(w: OutStream, length: int)
    requires IsInt32(length)
    modifies w
    ensures w.bytes == old(w.bytes) + WavHeader(length)
  {
    ghost var start := w.bytes;
    ghost var layout := WavLayout(length);
    assert layout[..0] == [];
    assert w.bytes == start + Encode(layout[..0]);
    var riffSize := Wrap32(length + 0x24);
    w.WriteBytes(AsciiBytes("RIFF"));
    EncodeNext(start, layout, 0);
    w.WriteInt32(riffSize);
    EncodeNext(start, layout, 1);
    w.WriteBytes(AsciiBytes("WAVEfmt "));
    EncodeNext(start, layout, 2);
    w.WriteInt32(16);
    EncodeNext(start, layout, 3);
    w.WriteInt16(1);
    EncodeNext(start, layout, 4);
    w.WriteInt16(1);
    EncodeNext(start, layout, 5);
    w.WriteInt32(44100);
    EncodeNext(start, layout, 6);
    w.WriteInt32(88200);
    EncodeNext(start, layout, 7);
    w.WriteInt16(2);
    EncodeNext(start, layout, 8);
    w.WriteInt16(16);
    EncodeNext(start, layout, 9);
    w.WriteBytes(AsciiBytes("data"));
    EncodeNext(start, layout, 10);
    w.WriteInt32(length);
    EncodeNext(start, layout, 11);
    WholePrefix(layout);
  }

  /** The header and payload of a WAV file for the raw bytes `raw`: the
      length field is `(int)` of the file length, a truncating cast. */
  method WriteWavFile(raw: seq<byte>) returns (bytes: seq<byte>)
    ensures bytes == WavHeader(Wrap32(|raw|)) + raw
  {
    var wavStream := new OutStream();
    ghost var header := WavHeader(Wrap32(|raw|));
    WriteWavHeader(wavStream, Wrap32(|raw|));
    WholeSuffix(header);
    assert wavStream.bytes == header;
    var fs := new InStream(raw);
    WholeSuffix(raw);
    assert fs.Remaining() == raw;
    CopyStream(fs, wavStream, CopyBufferSize);
    bytes := wavStream.bytes;
  }

  /** What a conversion leaves at its target path. */
  datatype WavResult =
    | AlreadyThere          // the file existed: nothing is written
    | Discarded             // an exception after the existence test: the file is deleted
    | Wrote(bytes: seq<byte>)

  /** A conversion: the directory it creates (`None` when it creates
      none), the file it targets, and what it leaves there. */
  datatype Conversion = Conversion(createdDir: Option<string>, file: string, result: WavResult)

  /** The sample that is named by its file rather than by its header. */
  predicate IsHyper2Special(header: PxdHeader)
  {
    header.name == "45" && header.package == "Hyper2"
  }

  /** `header.name.Contains("\\")`: a header name that is itself a relative path. */
  predicate NameIsPath(header: PxdHeader)
  {
    IndexOf(header.name, "\\") != -1
  }

  /** The directory and file of `RawToWav`. */
  function RawWavTarget(paths: PathOps, pxdPath: string, header: PxdHeader): (t: (string, string))
    ensures IsHyper2Special(header) ==>
      t.0 == OutputRoot + "\\" + paths.fileName(paths.directoryName(pxdPath))
      && t.1 == t.0 + "\\" + RemoveBadCharsFromFilename(paths, paths.fileNameWithoutExtension(pxdPath)) + ".wav"
    ensures !IsHyper2Special(header) && NameIsPath(header) ==>
      t.1 == OutputRoot + "\\" + RemoveBadCharsFromFilename(paths, header.package) + "\\" + header.name + ".wav"
      && t.0 == paths.directoryName(t.1)
    ensures !IsHyper2Special(header) && !NameIsPath(header) ==>
      t.0 == OutputRoot + "\\" + RemoveBadCharsFromFilename(paths, header.package) + "\\"
             + RemoveBadCharsFromFilename(paths, header.typeName)
      && t.1 == t.0 + "\\" + RemoveBadCharsFromFilename(paths, header.name) + ".wav"
  {
    if IsHyper2Special(header) then
      var wavPath := OutputRoot + "\\" + paths.fileName(paths.directoryName(pxdPath));
      (wavPath, wavPath + "\\" + RemoveBadCharsFromFilename(paths, paths.fileNameWithoutExtension(pxdPath)) + ".wav")
    else if NameIsPath(header) then
      var wavFullPath := OutputRoot + "\\" + RemoveBadCharsFromFilename(paths, header.package) + "\\" + header.name + ".wav";
      (paths.directoryName(wavFullPath), wavFullPath)
    else
      var wavPath := OutputRoot + "\\" + RemoveBadCharsFromFilename(paths, header.package) + "\\"
                     + RemoveBadCharsFromFilename(paths, header.typeName);
      (wavPath, wavPath + "\\" + RemoveBadCharsFromFilename(paths, header.name) + ".wav")
  }

  /** Every target of `RawToWav` is a `.wav` file under the output root. */
  lemma RawWavTargetShape(paths: PathOps, pxdPath: string, header: PxdHeader)
    ensures var file := RawWavTarget(paths, pxdPath, header).1;
      EndsWith(file, ".wav") && StartsWith(file, OutputRoot + "\\")
  {
    var root := OutputRoot + "\\";
    StartsWithSelf(root, "");
    assert root + "" == root;
    if IsHyper2Special(header) {
      var wavPath := root + paths.fileName(paths.directoryName(pxdPath));
      var name := RemoveBadCharsFromFilename(paths, paths.fileNameWithoutExtension(pxdPath));
      StartsWithSelf(root, paths.fileName(paths.directoryName(pxdPath)));
      StartsWithAppend(wavPath, "\\", root);
      StartsWithAppend(wavPath + "\\", name, root);
      StartsWithAppend(wavPath + "\\" + name, ".wav", root);
      EndsWithAppend(wavPath + "\\" + name, ".wav");
    } else if NameIsPath(header) {
      var package := RemoveBadCharsFromFilename(paths, header.package);
      StartsWithSelf(root, package);
      StartsWithAppend(root + package, "\\", root);
      StartsWithAppend(root + package + "\\", header.name, root);
      StartsWithAppend(root + package + "\\" + header.name, ".wav", root);
      EndsWithAppend(root + package + "\\" + header.name, ".wav");
    } else {
      var package := RemoveBadCharsFromFilename(paths, header.package);
      var typeName := RemoveBadCharsFromFilename(paths, header.typeName);
      var name := RemoveBadCharsFromFilename(paths, header.name);
      var wavPath := root + package + "\\" + typeName;
      StartsWithSelf(root, package);
      StartsWithAppend(root + package, "\\", root);
      StartsWithAppend(root + package + "\\", typeName, root);
      StartsWithAppend(wavPath, "\\", root);
      StartsWithAppend(wavPath + "\\", name, root);
      StartsWithAppend(wavPath + "\\" + name, ".wav", root);
      EndsWithAppend(wavPath + "\\" + name, ".wav");
    }
  }

  /** What `RawToWav` leaves at its target once the raw output is known:
      nothing if the file existed; nothing if `(int)` of the raw length is
      0, which throws; otherwise the header and the raw output. */
  function RawResult(targetExists: bool, raw: seq<byte>): WavResult
  {
    if targetExists then AlreadyThere
    else if Wrap32(|raw|) == 0 then Discarded
    else Wrote(WavHeader(Wrap32(|raw|)) + raw)
  }

  /** What `RawToWav` does with a sample file whose raw decoder output is
      `raw`: the target chosen from the file's header, then `RawResult`. */
  function RawConversion(disk: Disk, paths: PathOps, pxdPath: string, raw: seq<byte>): Result<Conversion>
  {
    var pxdBytes :- ReadAllBytes(disk, pxdPath);
    var header :- ReadPxdFileHeader(paths, pxdPath, pxdBytes);
    var (wavPath, wavFullPath) := RawWavTarget(paths, pxdPath, header);
    Ok(Conversion(Some(wavPath), wavFullPath, RawResult(Exists(disk, wavFullPath), raw)))
  }

  /** The file `RawToWav` writes reads back as a WAV file of the raw
      output; nothing is written when the target existed or when the raw
      length truncates to 0. */
  lemma RawResultIsWav(targetExists: bool, raw: seq<byte>)
    ensures RawResult(targetExists, raw) == AlreadyThere <==> targetExists
    ensures RawResult(targetExists, raw) == Discarded <==> !targetExists && |raw| % 0x1_0000_0000 == 0
    ensures |raw| < 0x8000_0000 && RawResult(targetExists, raw).Wrote? ==>
      var bytes := RawResult(targetExists, raw).bytes;
      && Decode(WavKinds, bytes) == Some((WavLayout(|raw|), raw))
      && (|raw| + 0x24 < 0x8000_0000 ==>
            WavLayout(|raw|)[1] == I32(|bytes| - 8) && WavLayout(|raw|)[11] == I32(|bytes| - 44))
  {
    if |raw| < 0x8000_0000 {
      WavFileRoundTrip(raw);
    }
  }

  /** `RawToWav` of the decompressor. */
  method RawToWav(disk: Disk, paths: PathOps, pxdPath: string, raw: seq<byte>) returns (r: Result<Conversion>)
    ensures r == RawConversion(disk, paths, pxdPath, raw)
  {
    var pxdBytes := ReadAllBytes(disk, pxdPath);
    if pxdBytes.Err? {
      return Err(pxdBytes.error);
    }
    var header := ReadPxdFileHeader(paths, pxdPath, pxdBytes.value);
    if header.Err? {
      return Err(header.error);
    }
    var (wavPath, wavFullPath) := RawWavTarget(paths, pxdPath, header.value);
    if Exists(disk, wavFullPath) {
      return Ok(Conversion(Some(wavPath), wavFullPath, AlreadyThere));
    }
    var length := Wrap32(|raw|);
    if length == 0 {
      return Ok(Conversion(Some(wavPath), wavFullPath, Discarded));
    }
    var bytes := WriteWavFile(raw);
    return Ok(Conversion(Some(wavPath), wavFullPath, Wrote(bytes)));
  }

  /** The directory and file of `SclToWav`: the grandparent and parent
      directory names of the `.scl` file, and its sanitised name. */
  function SclTarget(paths: PathOps, sclPath: string): (t: (string, string))
    ensures t.1 == t.0 + "\\" + RemoveBadCharsFromFilename(paths, paths.fileNameWithoutExtension(sclPath)) + ".wav"
  {
    var wavPath := OutputRoot + "\\" + paths.fileName(paths.directoryName(paths.directoryName(sclPath)))
                   + "\\" + paths.fileName(paths.directoryName(sclPath));
    (wavPath, wavPath + "\\" + RemoveBadCharsFromFilename(paths, paths.fileNameWithoutExtension(sclPath)) + ".wav")
  }

  /** The end of the embedded file: the first `LIST`, or failing that the
      first `cue`, or -1. */
  function SclEnd(text: string): (e: int)
    ensures e == -1 <==> IndexOf(text, "LIST") == -1 && IndexOf(text, "cue") == -1
    ensures e != -1 ==> e == IndexOf(text, "LIST") || (IndexOf(text, "LIST") == -1 && e == IndexOf(text, "cue"))
  {
    var listIndex := IndexOf(text, "LIST");
    var cueIndex := IndexOf(text, "cue");
    if listIndex != -1 then listIndex else if cueIndex != -1 then cueIndex else -1
  }

  /** The slice `SclToWav` writes: `None` when the file holds no `RIFF`,
      the bytes from the first `RIFF` to the end marker, or an exception
      when there is no end marker or it comes before the `RIFF`. */
  function SclSlice(bytes: seq<byte>): (r: Result<Option<seq<byte>>>)
  {
    var text := AsciiString(bytes);
    var wavStart := IndexOf(text, "RIFF");
    if wavStart == -1 then Ok(None)
    else
      var wavEnd := SclEnd(text);
      if wavEnd < wavStart then Err(OutOfRange)
      else Ok(Some(bytes[wavStart..wavEnd]))
  }

  /** No end marker starts inside the `RIFF` tag itself. */
  lemma MarkerAfterTag(text: string, s: int, e: int, marker: string)
    requires OccursAt(text, "RIFF", s) && OccursAt(text, marker, e) && |marker| > 0
    requires marker[0] == 'L' || marker[0] == 'c'
    ensures e < s || e >= s + 4
  {
    assert text[e] == text[e..e + |marker|][0] == marker[0];
    assert forall k :: s <= k < s + 4 ==> text[k] == text[s..s + 4][k - s];
  }

  /** `SclToWav` writes nothing exactly when the bytes hold no `RIFF`, and
      throws exactly when that `RIFF` has no end marker after it. */
  lemma SclSliceCases(bytes: seq<byte>)
    ensures var text := AsciiString(bytes);
      SclSlice(bytes) == Ok(None) <==> forall j :: !OccursAt(text, "RIFF", j)
    ensures var text := AsciiString(bytes);
      SclSlice(bytes).Err? <==> IndexOf(text, "RIFF") != -1 && SclEnd(text) < IndexOf(text, "RIFF")
  {
  }

  /** A slice that is written starts with the RIFF tag, at the first
      `RIFF`, and ends just before the first `LIST`, or the first `cue`
      when there is no `LIST`. */
  lemma SclSliceStart(bytes: seq<byte>)
    requires SclSlice(bytes).Ok? && SclSlice(bytes).value.Some?
    ensures var w := SclSlice(bytes).value.value;
      var text := AsciiString(bytes);
      && w == bytes[IndexOf(text, "RIFF")..SclEnd(text)]
      && |w| >= 4 && w[..4] == RiffTag
  {
    var text := AsciiString(bytes);
    var s := IndexOf(text, "RIFF");
    var e := SclEnd(text);
    if e == IndexOf(text, "LIST") {
      MarkerAfterTag(text, s, e, "LIST");
    } else {
      MarkerAfterTag(text, s, e, "cue");
    }
    var w := bytes[s..e];
    assert AsciiString(w[..4]) == text[s..s + 4];
    RiffText(w[..4]);
  }

  /** A slice that is written holds no `LIST` of its own. */
  lemma SclSliceHasNoList(bytes: seq<byte>)
    requires SclSlice(bytes).Ok? && SclSlice(bytes).value.Some?
    ensures forall j :: !OccursAt(AsciiString(SclSlice(bytes).value.value), "LIST", j)
  {
    var text := AsciiString(bytes);
    var s := IndexOf(text, "RIFF");
    var e := SclEnd(text);
    assert forall j :: 0 <= j < e ==> !OccursAt(text, "LIST", j);
    AsciiSlice(bytes, s, e);
    NoOccurrenceBefore(text, "LIST", s, e);
  }

  /** What `SclToWav` does with an `.scl` file: stop if the target exists;
      otherwise read the file, and write the slice when it has one. An
      exception inside the `try` deletes the target. */
  function SclConversion(disk: Disk, paths: PathOps, sclPath: string): Option<Conversion>
  {
    var (wavPath, wavFullPath) := SclTarget(paths, sclPath);
    if Exists(disk, wavFullPath) then Some(Conversion(None, wavFullPath, AlreadyThere))
    else match ReadAllBytes(disk, sclPath)
      case Err(_) => Some(Conversion(None, wavFullPath, Discarded))
      case Ok(sclBytes) =>
        match SclSlice(sclBytes)
        case Err(_) => Some(Conversion(Some(wavPath), wavFullPath, Discarded))
        case Ok(None) => None
        case Ok(Some(w)) => Some(Conversion(Some(wavPath), wavFullPath, Wrote(w)))
  }

  /** `SclToWav` creates its directory exactly when the target is absent,
      the file is read and it holds a `RIFF` tag: the slice's exception
      comes after the directory is created. */
  lemma SclDirectoryCreated(disk: Disk, paths: PathOps, sclPath: string)
    requires SclConversion(disk, paths, sclPath).Some?
    ensures var c := SclConversion(disk, paths, sclPath).value;
      var target := SclTarget(paths, sclPath);
      && c.file == target.1
      && (c.createdDir.Some? <==>
            !Exists(disk, target.1) && ReadAllBytes(disk, sclPath).Ok?
            && IndexOf(AsciiString(ReadAllBytes(disk, sclPath).value), "RIFF") != -1)
      && (c.createdDir.Some? ==> c.createdDir.value == target.0)
  {
    var target := SclTarget(paths, sclPath);
    if !Exists(disk, target.1) && ReadAllBytes(disk, sclPath).Ok? {
      SclSliceCases(ReadAllBytes(disk, sclPath).value);
    }
  }

  /** The `try` block of `SclToWav` after the read: the searches for
      `RIFF`, `LIST` and `cue` and the slice between them. */
  method CutWav(sclBytes: seq<byte>) returns (r: Result<Option<seq<byte>>>)
    ensures r == SclSlice(sclBytes)
  {
    var sclAsString := AsciiString(sclBytes);
    var wavStart := IndexOf(sclAsString, "RIFF");
    if wavStart == -1 {
      return Ok(None);
    }
    var listIndex := IndexOf(sclAsString, "LIST");
    var cueIndex := IndexOf(sclAsString, "cue");
    var wavEnd := -1;
    if listIndex != -1 {
      wavEnd := listIndex;
    } else if cueIndex != -1 {
      wavEnd := cueIndex;
    }
    if wavEnd < wavStart {
      return Err(OutOfRange);
    }
    return Ok(Some(sclBytes[wavStart..wavEnd]));
  }

  /** `SclToWav`: `None` when nothing at all happens (no `RIFF` in the file). */
  method SclToWav(disk: Disk, paths: PathOps, sclPath: string) returns (r: Option<Conversion>)
    ensures r == SclConversion(disk, paths, sclPath)
  {
    var (wavPath, wavFullPath) := SclTarget(paths, sclPath);
    if Exists(disk, wavFullPath) {
      return Some(Conversion(None, wavFullPath, AlreadyThere));
    }
    var sclBytes := ReadAllBytes(disk, sclPath);
    if sclBytes.Err? {
      return Some(Conversion(None, wavFullPath, Discarded));
    }
    var slice := CutWav(sclBytes.value);
    match slice
    case Err(_) =>
      r := Some(Conversion(Some(wavPath), wavFullPath, Discarded));
    case Ok(None) =>
      r := None;
    case Ok(Some(w)) =>
      r := Some(Conversion(Some(wavPath), wavFullPath, Wrote(w)));
  }
}
