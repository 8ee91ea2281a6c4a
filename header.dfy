/** The preamble at the start of every sample inside a blob file
    (`ReadPxdFileHeader`): a RIFF tag test, a size-prefixed text block of
    CR LF separated lines cut at the first NUL, and the sample count. */
module Header {
  import opened Base
  import opened Strings
  import opened Host

  /** `PxdHeader` */
  datatype PxdHeader = PxdHeader(name: string, package: string, typeName: string, samples: int, isWave: bool)

  /** `TakeWhile(c => c != 0)`: the longest prefix without a zero byte. */
  function TakeWhileNonZero(b: seq<byte>): (r: seq<byte>)
    ensures |r| <= |b| && r == b[..|r|]
    ensures forall i :: 0 <= i < |r| ==> r[i] != 0
    ensures |r| < |b| ==> b[|r|] == 0
  {
    if |b| == 0 || b[0] == 0 then [] else [b[0]] + TakeWhileNonZero(b[1..])
  }

  /** `s.ElementAtOrDefault(i) ?? string.Empty` */
  function ElementOrEmpty(s: seq<string>, i: int): (r: string)
    ensures 0 <= i < |s| ==> r == s[i]
    ensures !(0 <= i < |s|) ==> r == ""
  {
    if 0 <= i < |s| then s[i] else ""
  }

  /** The bytes of the ASCII tag `RIFF`. */
  const RiffTag: seq<byte> := [0x52, 0x49, 0x46, 0x46]

  /** The three-way choice of name, package and type from the header lines
      and the path of the blob file the header was read from. */
  function HeaderFields(paths: PathOps, filepath: string, s: seq<string>): (r: (string, string, string))
    requires |s| >= 1
    ensures var last := s[|s| - 1];
      && (EndsWith(last, ".pxd") ==>
            r == (last[..|last| - 4], if |s| >= 2 then s[|s| - 2] else "", ""))
      && (!EndsWith(last, ".pxd") && |s| < 3 ==>
            r == (last,
                  paths.fileName(paths.directoryName(paths.directoryName(filepath))) + " DEMO",
                  paths.fileName(paths.directoryName(filepath))))
      && (!EndsWith(last, ".pxd") && |s| >= 3 ==>
            r == (s[0] + s[1], Trim(s[2] + " " + ElementOrEmpty(s, 3)), ElementOrEmpty(s, 4)))
  {
    var last := s[|s| - 1];
    if EndsWith(last, ".pxd") then
      (last[..|last| - 4], ElementOrEmpty(s, |s| - 2), "")
    else if |s| < 3 then
      (last,
       paths.fileName(paths.directoryName(paths.directoryName(filepath))) + " DEMO",
       paths.fileName(paths.directoryName(filepath)))
    else
      (s[0] + ElementOrEmpty(s, 1), Trim(ElementOrEmpty(s, 2) + " " + ElementOrEmpty(s, 3)), ElementOrEmpty(s, 4))
  }

  /** The header text block: `bytes[5..5 + bytes[4] as int]` up to its first NUL, as ASCII. */
  function HeaderText(bytes: seq<byte>): (t: string)
    requires |bytes| >= 5 && 5 + bytes[4] as int <= |bytes|
    ensures |t| <= bytes[4]
  {
    AsciiString(TakeWhileNonZero(bytes[5..5 + bytes[4] as int]))
  }

  /** `ReadPxdFileHeader`. Every read is checked against the end of the
      buffer, so a buffer too short for the size byte, the text block or
      the sample count fails. */
  function ReadPxdFileHeader(paths: PathOps, filepath: string, bytes: seq<byte>): (r: Result<PxdHeader>)
    ensures r.Ok? <==> |bytes| >= 5 && |bytes| >= 10 + bytes[4] as int
    ensures r.Err? ==> r.error == OutOfRange
    ensures r.Ok? ==> var h := bytes[4] as int;
      && (r.value.isWave <==> bytes[..4] == RiffTag)
      && r.value.samples == Int32Of(bytes[6 + h..10 + h])
      && IsInt32(r.value.samples)
      && (r.value.name, r.value.package, r.value.typeName)
         == HeaderFields(paths, filepath, SplitCrLf(HeaderText(bytes)))
  {
    if |bytes| < 5 || |bytes| < 10 + bytes[4] as int then Err(OutOfRange)
    else
      var isWave := AsciiString(bytes[..4]) == "RIFF";
      var headerSize := bytes[4] as int;
      var samples := Int32Of(bytes[6 + headerSize..10 + headerSize]);
      var s := SplitCrLf(HeaderText(bytes));
      var (name, package, typeName) := HeaderFields(paths, filepath, s);
      assert isWave <==> bytes[..4] == RiffTag by { RiffText(bytes[..4]); }
      Int32Range(bytes[6 + headerSize..10 + headerSize]);
      Ok(PxdHeader(name, package, typeName, samples, isWave))
  }

  /** Bytes above 0x7F decode to `?`, so only the bytes of `RIFF` decode to `RIFF`. */
  lemma RiffText(b: seq<byte>)
    requires |b| == 4
    ensures AsciiString(b) == "RIFF" <==> b == RiffTag
  {
    if AsciiString(b) == "RIFF" {
      forall i | 0 <= i < 4 ensures b[i] == RiffTag[i] {
        assert AsciiString(b)[i] == AsciiChar(b[i]);
      }
    }
  }

  lemma Int32Range(b: seq<byte>)
    ensures IsInt32(Int32Of(b))
  {
    Pow256Values();
    if |b| >= 4 { LittleEndianBound(b[..4]); }
  }

  /** A preamble as a blob file carries it: the tag, the size byte, the
      text block padded with NULs to that size, one unused byte and the
      sample count. */
  function PreambleBytes(tag: seq<byte>, text: seq<byte>, padding: nat, spare: byte, samples: int): (r: seq<byte>)
    requires |tag| == 4 && |text| + padding < 0x100
    ensures |r| == 10 + |text| + padding
  {
    tag + [|text| + padding] + text + seq(padding, _ => 0) + [spare] + Int32Bytes(samples)
  }

  /** The pieces of a preamble are where its layout puts them. */
  lemma PreambleLayout(tag: seq<byte>, text: seq<byte>, padding: nat, spare: byte, samples: int)
    requires |tag| == 4 && |text| + padding < 0x100
    requires forall i :: 0 <= i < |text| ==> text[i] != 0
    ensures var b := PreambleBytes(tag, text, padding, spare, samples);
      var h := |text| + padding;
      && b[..4] == tag && b[4] == h
      && TakeWhileNonZero(b[5..5 + h]) == text
      && b[6 + h..10 + h] == Int32Bytes(samples)
  {
    var b := PreambleBytes(tag, text, padding, spare, samples);
    var zeros: seq<byte> := seq(padding, _ => 0);
    var h := |text| + padding;
    assert b == tag + [h] + (text + zeros) + ([spare] + Int32Bytes(samples));
    assert b[5..5 + h] == text + zeros;
    TakeWhileOfPadded(text, zeros);
    assert b[6 + h..10 + h] == Int32Bytes(samples);
  }

  /** Cutting at the first NUL removes exactly the NUL padding. */
  lemma {:induction false} TakeWhileOfPadded(text: seq<byte>, zeros: seq<byte>)
    requires forall i :: 0 <= i < |text| ==> text[i] != 0
    requires forall i :: 0 <= i < |zeros| ==> zeros[i] == 0
    ensures TakeWhileNonZero(text + zeros) == text
  {
    if |text| > 0 {
      assert (text + zeros)[1..] == text[1..] + zeros;
      TakeWhileOfPadded(text[1..], zeros);
      HeadTail(text);
    }
  }

  /** Reading a well-formed preamble recovers its sample count, its RIFF
      flag and the lines of its text block. */
  lemma PreambleRoundTrip(paths: PathOps, filepath: string, tag: seq<byte>, lines: seq<string>,
                          padding: nat, spare: byte, samples: int)
    requires |tag| == 4 && IsInt32(samples) && |lines| >= 1
    requires forall k :: 0 <= k < |lines| ==> !HasCrLf(lines[k])
    requires IsAscii(Join(lines, "\r\n")) && forall i :: 0 <= i < |Join(lines, "\r\n")| ==> Join(lines, "\r\n")[i] != '\0'
    requires |Join(lines, "\r\n")| + padding < 0x100
    ensures var b := PreambleBytes(tag, AsciiBytes(Join(lines, "\r\n")), padding, spare, samples);
      var r := ReadPxdFileHeader(paths, filepath, b);
      && r.Ok?
      && r.value.samples == samples
      && (r.value.isWave <==> tag == RiffTag)
      && (r.value.name, r.value.package, r.value.typeName) == HeaderFields(paths, filepath, lines)
  {
    var joined := Join(lines, "\r\n");
    var text := AsciiBytes(joined);
    forall i | 0 <= i < |text| ensures text[i] != 0 {
      assert joined[i] != '\0';
    }
    PreambleLayout(tag, text, padding, spare, samples);
    var b := PreambleBytes(tag, text, padding, spare, samples);
    AsciiRoundTrip(joined);
    assert HeaderText(b) == joined;
    SplitJoin(lines);
    Int32RoundTrip(samples);
  }

  /** The sample files of the archives end their text block with
      `<package> CR LF <name>.pxd`: such a block yields that name and package and no type. */
  lemma PxdNamedHeader(paths: PathOps, filepath: string, package: string, name: string)
    requires !HasCrLf(package) && !HasCrLf(name + ".pxd")
    ensures var s := SplitCrLf(package + "\r\n" + name + ".pxd");
      HeaderFields(paths, filepath, s) == (name, package, "")
  {
    SplitAtSeparator(package, name + ".pxd");
    SplitClean(name + ".pxd");
    var s := SplitCrLf(package + "\r\n" + (name + ".pxd"));
    assert package + "\r\n" + name + ".pxd" == package + "\r\n" + (name + ".pxd");
    assert s == [package, name + ".pxd"];
    assert (name + ".pxd")[..|name|] == name;
  }
}
