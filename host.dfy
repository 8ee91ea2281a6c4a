/** What the decompressor asks of its host: path arithmetic, the invalid
    file-name characters and the files on disk. These are parameters of the
    model, fixed for one run. */
module Host {
  import opened Base
  import opened Strings

  /** `Path.GetDirectoryName`, `Path.GetFileName`,
      `Path.GetFileNameWithoutExtension` and `Path.GetInvalidFileNameChars`
      of the host platform. A `null` result of the .NET calls is the empty string here.
      `invalidChars` is never empty on a real platform; `String.Split` with an
      empty array would split at white space instead, which `SplitAny` does
      not describe. */
  datatype PathOps = PathOps(
    directoryName: string -> string,
    fileName: string -> string,
    fileNameWithoutExtension: string -> string,
    invalidChars: set<char>)

  /** The files on disk when a descriptor is processed: the contents of each
      path, or `None` for a path with no file. */
  datatype Disk = Disk(contents: string -> Option<seq<byte>>)

  /** `File.Exists` */
  predicate Exists(disk: Disk, path: string)
  {
    disk.contents(path).Some?
  }

  /** `File.ReadAllBytes`: a missing file is an exception. */
  function ReadAllBytes(disk: Disk, path: string): (r: Result<seq<byte>>)
    ensures r.Ok? <==> Exists(disk, path)
    ensures r.Ok? ==> Some(r.value) == disk.contents(path)
    ensures r.Err? ==> r.error == FileUnreadable
  {
    match disk.contents(path)
    case None => Err(FileUnreadable)
    case Some(bytes) => Ok(bytes)
  }

  /** `ReadFileFromTo`: open the file, seek to `offset` and read at most
      `length` bytes. A missing file fails first; a negative offset or
      length is an out-of-range argument; a read past the end of the file
      returns only the bytes that are there. */
  function ReadFileFromTo(disk: Disk, fileName: string, offset: int, length: int): (r: Result<seq<byte>>)
    ensures !Exists(disk, fileName) <==> r == Err(FileUnreadable)
    ensures Exists(disk, fileName) && (offset < 0 || length < 0) <==> r == Err(OutOfRange)
    ensures r.Ok? ==> var data := disk.contents(fileName).value;
      && |r.value| <= length
      && (offset + length <= |data| ==> |r.value| == length)
      && (offset + length > |data| ==> |r.value| == if offset < |data| then |data| - offset else 0)
      && forall i :: 0 <= i < |r.value| ==> r.value[i] == data[offset + i]
  {
    match disk.contents(fileName)
    case None => Err(FileUnreadable)
    case Some(data) =>
      if offset < 0 || length < 0 then Err(OutOfRange)
      else
        var start := if offset < |data| then offset else |data|;
        var end := if offset + length < |data| then offset + length else |data|;
        Ok(data[start..end])
  }

  /** The path of a blob file: the descriptor's directory, a backslash, the
      blob prefix and the part letter. */
  function BlobPath(paths: PathOps, descriptorPath: string, binFilePrefix: string, part: string): string
  {
    paths.directoryName(descriptorPath) + "\\" + binFilePrefix + part
  }

  /** `BinPathPart`: the first of the parts `a`, `A` and none whose blob
      file exists; a descriptor with none of the three fails. */
  function BinPathPart(disk: Disk, paths: PathOps, descriptorPath: string, binFilePrefix: string): (r: Result<string>)
    ensures var blob := (part: string) => Exists(disk, BlobPath(paths, descriptorPath, binFilePrefix, part));
      && (r == Ok("a") <==> blob("a"))
      && (r == Ok("A") <==> !blob("a") && blob("A"))
      && (r == Ok("") <==> !blob("a") && !blob("A") && blob(""))
      && (r.Err? <==> !blob("a") && !blob("A") && !blob(""))
      && (r.Err? ==> r.error == NoBlobFile)
  {
    if Exists(disk, BlobPath(paths, descriptorPath, binFilePrefix, "a")) then Ok("a")
    else if Exists(disk, BlobPath(paths, descriptorPath, binFilePrefix, "A")) then Ok("A")
    else if Exists(disk, BlobPath(paths, descriptorPath, binFilePrefix, "")) then Ok("")
    else Err(NoBlobFile)
  }

  /** `s.Split(bad)`: the pieces between the characters of `bad`, one
      more than there are such characters, none holding one of them. */
  function SplitAny(s: string, bad: set<char>): (r: seq<string>)
    ensures |r| >= 1
    ensures forall k, i :: 0 <= k < |r| && 0 <= i < |r[k]| ==> r[k][i] !in bad
    decreases |s|
  {
    if s == [] then [""]
    else
      var rest := SplitAny(s[1..], bad);
      if s[0] in bad then [""] + rest
      else
        var first := [s[0]] + rest[0];
        assert forall i :: 0 < i < |first| ==> first[i] == rest[0][i - 1];
        [first] + rest[1..]
  }

  /** The characters of `s` that are not in `bad`, in their order: every
      other character is kept as often as it occurs, and no character of
      `bad` is left. */
  function RemoveChars(s: string, bad: set<char>): (r: string)
    ensures |r| <= |s|
    ensures forall i :: 0 <= i < |r| ==> r[i] !in bad
    ensures (forall i :: 0 <= i < |s| ==> s[i] !in bad) ==> r == s
    decreases |s|
  {
    if s == [] then []
    else if s[0] in bad then RemoveChars(s[1..], bad)
    else [s[0]] + RemoveChars(s[1..], bad)
  }

  /** A character not in `bad` is kept as often as it occurs. */
  lemma {:induction false} RemoveCharsCounts(s: string, bad: set<char>, c: char)
    requires c !in bad
    ensures multiset(RemoveChars(s, bad))[c] == multiset(s)[c]
    decreases |s|
  {
    if s != [] {
      RemoveCharsCounts(s[1..], bad, c);
      HeadTail(s);
      assert multiset(s) == multiset([s[0]]) + multiset(s[1..]);
    }
  }

  /** Removing characters works piece by piece, so the order of the kept
      characters is the order in `s`. */
  lemma {:induction false} RemoveCharsAppend(a: string, b: string, bad: set<char>)
    ensures RemoveChars(a + b, bad) == RemoveChars(a, bad) + RemoveChars(b, bad)
    decreases |a|
  {
    if a == [] {
      assert a + b == b;
    } else {
      TailOfAppend(a, b);
      RemoveCharsAppend(a[1..], b, bad);
      if a[0] !in bad {
        AppendAssoc([a[0]], RemoveChars(a[1..], bad), RemoveChars(b, bad));
      }
    }
  }

  /** A single character is kept exactly when it is not in `bad`. */
  lemma RemoveCharsOne(c: char, bad: set<char>)
    ensures RemoveChars([c], bad) == if c in bad then [] else [c]
  {
  }

  /** Joining the pieces of `s.Split(bad)` with no separator leaves the
      characters of `s` that are not in `bad`. */
  lemma {:induction false} JoinSplitAny(s: string, bad: set<char>)
    ensures Join(SplitAny(s, bad), "") == RemoveChars(s, bad)
    decreases |s|
  {
    if s != [] {
      var rest := SplitAny(s[1..], bad);
      JoinSplitAny(s[1..], bad);
      if s[0] in bad {
        assert ([""] + rest)[1..] == rest;
      } else {
        JoinPrepend(s[0], rest, "");
      }
    }
  }

  /** The characters a file name must not contain, and no white space at its ends. */
  predicate IsCleanFileName(paths: PathOps, s: string)
  {
    IsTrimmed(s) && forall i :: 0 <= i < |s| ==> s[i] !in paths.invalidChars
  }

  /** `RemoveBadCharsFromFilename`: trim, split at the invalid characters,
      join the pieces, trim again. The result is the trimmed filtering of
      the trimmed name. */
  function RemoveBadCharsFromFilename(paths: PathOps, filename: string): (r: string)
    ensures r == Trim(RemoveChars(Trim(filename), paths.invalidChars))
    ensures IsCleanFileName(paths, r)
    ensures |r| <= |filename|
  {
    var trimmed := Trim(filename);
    var joined := Join(SplitAny(trimmed, paths.invalidChars), "");
    JoinSplitAny(trimmed, paths.invalidChars);
    TrimKeeps(joined);
    Trim(joined)
  }

  /** The sanitiser keeps every character that is neither invalid nor
      white space, as often as it occurs in the name. */
  lemma SanitiseKeeps(paths: PathOps, filename: string, c: char)
    requires c !in paths.invalidChars && !IsWhiteSpace(c)
    ensures multiset(RemoveBadCharsFromFilename(paths, filename))[c] == multiset(filename)[c]
  {
    var trimmed := Trim(filename);
    TrimCounts(filename, c);
    RemoveCharsCounts(trimmed, paths.invalidChars, c);
    TrimCounts(RemoveChars(trimmed, paths.invalidChars), c);
  }

  /** Of three characters, the invalid middle one is dropped and the
      other two kept in order. */
  lemma RemoveMiddle(bad: set<char>, x: char, z: char, y: char)
    requires z in bad && x !in bad && y !in bad
    ensures RemoveChars([x, z, y], bad) == [x, y]
  {
    assert [x, z, y] == [x] + ([z] + [y]);
    RemoveCharsAppend([x], [z] + [y], bad);
    RemoveCharsAppend([z], [y], bad);
    RemoveCharsOne(x, bad);
    RemoveCharsOne(z, bad);
    RemoveCharsOne(y, bad);
  }

  /** An invalid character between two kept ones is dropped and the two
      are kept in order: `a<b` becomes `ab` when `<` is invalid. */
  lemma SanitiseInside(paths: PathOps, x: char, z: char, y: char)
    requires z in paths.invalidChars && x !in paths.invalidChars && y !in paths.invalidChars
    requires !IsWhiteSpace(x) && !IsWhiteSpace(y)
    ensures RemoveBadCharsFromFilename(paths, [x, z, y]) == [x, y]
  {
    var s, kept := [x, z, y], [x, y];
    calc {
      RemoveBadCharsFromFilename(paths, s);
      Trim(RemoveChars(Trim(s), paths.invalidChars));
      { TrimTrimmed(s); }
      Trim(RemoveChars(s, paths.invalidChars));
      { RemoveMiddle(paths.invalidChars, x, z, y); }
      Trim(kept);
      { TrimTrimmed(kept); }
      kept;
    }
  }

  /** A clean file name passes through the sanitiser unchanged, so
      sanitising twice is sanitising once. */
  lemma CleanNameUnchanged(paths: PathOps, s: string)
    requires IsCleanFileName(paths, s)
    ensures RemoveBadCharsFromFilename(paths, s) == s
  {
    TrimTrimmed(s);
  }

  lemma SanitiseIdempotent(paths: PathOps, s: string)
    ensures var once := RemoveBadCharsFromFilename(paths, s);
      RemoveBadCharsFromFilename(paths, once) == once
  {
    CleanNameUnchanged(paths, RemoveBadCharsFromFilename(paths, s));
  }
}
