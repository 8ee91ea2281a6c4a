/** The stand-alone PXD converter: it takes one path, adds `.pxd` when the
    path does not mention that extension, lets pxd32d5_d4.dll decode the
    file into a temporary raw file, and writes a mono 44100 Hz WAV file
    next to the input whose name ends in `wav`. */
module Converter {
  import opened Base
  import opened Strings
  import Wav

  /** The two `StringComparison` values the converter uses. */
  datatype Comparison = Ordinal | OrdinalIgnoreCase

  /** A string as `comp` sees it: unchanged, or upper-cased. */
  function Fold(comp: Comparison, s: string): (r: string)
    ensures |r| == |s|
    ensures comp == Ordinal ==> r == s
  {
    if comp == Ordinal then s else Upper(s)
  }

  /** The extension method `Contains`: `source?.IndexOf(toCheck, comp) >= 0`.
      A null source yields a null `int?`, which is not `>= 0`. */
  function Contains(source: Option<string>, toCheck: string, comp: Comparison): (r: bool)
    ensures source.None? ==> !r
    ensures source.Some? ==>
      (r <==> exists i :: OccursAt(Fold(comp, source.value), Fold(comp, toCheck), i))
  {
    source.Some? && IndexOf(Fold(comp, source.value), Fold(comp, toCheck)) >= 0
  }

  /** Upper-casing works character by character, so it distributes over `+`. */
  lemma UpperAppend(a: string, b: string)
    ensures Upper(a + b) == Upper(a) + Upper(b)
  {
    assert forall i :: 0 <= i < |a| + |b| ==> Upper(a + b)[i] == (Upper(a) + Upper(b))[i];
  }

  /** `s + t` contains `t`, in any of the two comparisons. */
  lemma ContainsSuffix(s: string, t: string, comp: Comparison)
    ensures Contains(Some(s + t), t, comp)
  {
    if comp == OrdinalIgnoreCase {
      UpperAppend(s, t);
    }
    var f := Fold(comp, s + t);
    assert f == Fold(comp, s) + Fold(comp, t);
    assert f[|s|..|s| + |t|] == Fold(comp, t);
    assert OccursAt(f, Fold(comp, t), |s|);
  }

  /** A string that contains `toCheck` is at least as long as it. */
  lemma ContainsLength(s: string, toCheck: string, comp: Comparison)
    requires Contains(Some(s), toCheck, comp)
    ensures |s| >= |toCheck|
  {
    var i :| OccursAt(Fold(comp, s), Fold(comp, toCheck), i);
  }

  const PxdExtension: string := ".pxd"

  /** The argument as the converter uses it: `.pxd` is appended unless the
      path already contains it, in any letter case. */
  function FixPxdPath(pxdPath: string): (r: string)
    ensures Contains(Some(r), PxdExtension, OrdinalIgnoreCase)
    ensures r == pxdPath <==> Contains(Some(pxdPath), PxdExtension, OrdinalIgnoreCase)
    ensures r != pxdPath ==> r == pxdPath + PxdExtension
    ensures |r| >= |PxdExtension|
  {
    if !Contains(Some(pxdPath), PxdExtension, OrdinalIgnoreCase) then
      ContainsSuffix(pxdPath, PxdExtension, OrdinalIgnoreCase);
      ContainsLength(pxdPath + PxdExtension, PxdExtension, OrdinalIgnoreCase);
      pxdPath + PxdExtension
    else
      ContainsLength(pxdPath, PxdExtension, OrdinalIgnoreCase);
      pxdPath
  }

  /** Fixing a path twice is fixing it once. */
  lemma FixPxdPathIdempotent(pxdPath: string)
    ensures FixPxdPath(FixPxdPath(pxdPath)) == FixPxdPath(pxdPath)
  {
  }

  /** `pxdPath.Remove(pxdPath.Length - 3) + "wav"`: the last three
      characters become `wav`; `Remove` throws on a path shorter than three
      characters. */
  function WavPathOf(pxdPath: string): (r: Result<string>)
    ensures r.Ok? <==> |pxdPath| >= 3
    ensures r.Err? ==> r.error == OutOfRange
    ensures r.Ok? ==> |r.value| == |pxdPath| && EndsWith(r.value, "wav")
    ensures r.Ok? ==> r.value[..|pxdPath| - 3] == pxdPath[..|pxdPath| - 3]
  {
    if |pxdPath| < 3 then Err(OutOfRange)
    else
      var stem := pxdPath[..|pxdPath| - 3];
      EndsWithAppend(stem, "wav");
      assert (stem + "wav")[..|stem|] == stem;
      Ok(stem + "wav")
  }

  /** A path that had `.pxd` appended gets the same name with `.wav`. */
  lemma AppendedPathGivesWav(pxdPath: string)
    ensures WavPathOf(pxdPath + PxdExtension) == Ok(pxdPath + ".wav")
  {
    var p := pxdPath + PxdExtension;
    assert p[..|p| - 3] == pxdPath + ".";
    assert "." + "wav" == ".wav";
    AppendAssoc(pxdPath, ".", "wav");
  }

  /** The converter's `RawToWav`, given the bytes of the temporary raw file:
      the WAV path and the file's bytes, the 44-byte header for a data chunk
      of the raw file's length cast to `int`, then the raw bytes. */
  function Converted(pxdPath: string, raw: seq<byte>): Result<(string, seq<byte>)>
  {
    var wavPath :- WavPathOf(pxdPath);
    Ok((wavPath, Wav.WavHeader(Wrap32(|raw|)) + raw))
  }

  /** The file `RawToWav` writes reads back as the header fields for the raw
      data's length, followed by exactly the raw data; the RIFF size is the
      file's length less 8 and the data size the file's length less 44. */
  lemma ConvertedIsWav(pxdPath: string, raw: seq<byte>)
    requires |pxdPath| >= 3 && |raw| < 0x8000_0000
    ensures Converted(pxdPath, raw).Ok?
    ensures var file := Converted(pxdPath, raw).value.1;
      Wav.Decode(Wav.WavKinds, file) == Some((Wav.WavLayout(Wrap32(|raw|)), raw))
    ensures |raw| + 0x24 < 0x8000_0000 ==>
      var file := Converted(pxdPath, raw).value.1;
      && |file| == 44 + |raw|
      && Wav.WavLayout(|raw|)[1] == Wav.I32(|file| - 8)
      && Wav.WavLayout(|raw|)[11] == Wav.I32(|file| - 44)
  {
    Wav.WavFileRoundTrip(raw);
  }

  /** `RawToWav`: the header written field by field, then the raw file
      copied through an 8 KiB buffer. */
  method RawToWav(pxdPath: string, raw: seq<byte>) returns (r: Result<(string, seq<byte>)>)
    ensures r == Converted(pxdPath, raw)
  {
    var wavPath :- WavPathOf(pxdPath);
    var bytes := Wav.WriteWavFile(raw);
    return Ok((wavPath, bytes));
  }

  /** What `RWavToTemp` leaves behind: it throws, it returns without
      creating the temporary file (its `int` result is ignored), or the
      temporary file holds `raw`. */
  datatype Decoding = DecodeThrows | NoTempFile | TempFile(raw: seq<byte>)

  /** What the calls into pxd32d5_d4.dll do: whether `PInit` succeeds, what
      `RWavToTemp` leaves behind, and whether `PClose` succeeds. */
  datatype Dll = Dll(initializes: bool, decoding: Decoding, closes: bool)

  /** How a run ends: the exit code (0 after "Done!"), or `None` when an
      unhandled exception ends the process, and the WAV file written on
      the way, if any. */
  datatype Outcome = Outcome(exitCode: Option<int>, written: Option<(string, seq<byte>)>)

  /** The converter's `Main`: exit -1 without exactly one argument, -2 when
      the DLL does not initialise, -3 when decoding throws, -4 when closing
      throws (after the WAV file is written), 0 otherwise. Without a
      temporary file, `RawToWav` creates an empty WAV file and then throws
      outside any `try`, so the process ends with no exit code of its own.
      The WAV file is named after the fixed path. */
  function Run(args: seq<string>, dll: Dll): (o: Outcome)
    ensures o.exitCode == Some(0) <==> |args| == 1 && dll.initializes && dll.decoding.TempFile? && dll.closes
    ensures o.exitCode.None? <==> |args| == 1 && dll.initializes && dll.decoding.NoTempFile?
    ensures o.exitCode.Some? ==> o.exitCode.value in {0, -1, -2, -3, -4}
    ensures o.exitCode == Some(-3) <==> |args| == 1 && dll.initializes && dll.decoding.DecodeThrows?
    ensures o.written.Some? <==> |args| == 1 && dll.initializes && !dll.decoding.DecodeThrows?
    ensures o.written.Some? && dll.decoding.TempFile? ==>
      o.written.value.1 == Wav.WavHeader(Wrap32(|dll.decoding.raw|)) + dll.decoding.raw
    ensures o.written.Some? && dll.decoding.NoTempFile? ==> o.written.value.1 == []
    ensures o.written.Some? ==> EndsWith(o.written.value.0, "wav")
    ensures o.written.Some? && !Contains(Some(args[0]), PxdExtension, OrdinalIgnoreCase) ==>
      o.written.value.0 == args[0] + ".wav"
    ensures o.written.Some? && Contains(Some(args[0]), PxdExtension, OrdinalIgnoreCase) ==>
      o.written.value.0 == args[0][..|args[0]| - 3] + "wav"
  {
    if |args| != 1 then Outcome(Some(-1), None)
    else
      var pxdPath := FixPxdPath(args[0]);
      AppendedPathGivesWav(args[0]);
      if !dll.initializes then Outcome(Some(-2), None)
      else match dll.decoding
        case DecodeThrows => Outcome(Some(-3), None)
        case NoTempFile => Outcome(None, Some((WavPathOf(pxdPath).value, [])))
        case TempFile(raw) =>
          var file := Converted(pxdPath, raw).value;
          Outcome(Some(if dll.closes then 0 else -4), Some(file))
  }

  /** `Main`, with the DLL's behaviour as a parameter. */
  method Convert(args: seq<string>, dll: Dll) returns (o: Outcome)
    ensures o == Run(args, dll)
  {
    if |args| != 1 {
      return Outcome(Some(-1), None);
    }
    var pxdPath := args[0];
    if !Contains(Some(pxdPath), PxdExtension, OrdinalIgnoreCase) {
      pxdPath := pxdPath + PxdExtension;
    }
    if !dll.initializes {
      return Outcome(Some(-2), None);
    }
    assert pxdPath == FixPxdPath(args[0]);
    match dll.decoding {
      case DecodeThrows =>
        return Outcome(Some(-3), None);
      case NoTempFile =>
        var wavPath := WavPathOf(pxdPath);
        return Outcome(None, Some((wavPath.value, [])));
      case TempFile(raw) =>
        var file := RawToWav(pxdPath, raw);
        o := Outcome(Some(if dll.closes then 0 else -4), Some(file.value));
    }
  }
}
