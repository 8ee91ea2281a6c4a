/** `ProcessRecordsAndHeaders`: the routed records, sorted by group and
    id, are cut into units (a record alone, or a left and right channel
    pair), and each unit becomes an output file under a directory chosen
    from the header or the descriptor, with a case-insensitive collision
    set and a counter of units. */
module Reconcile {
  import opened Base
  import opened Strings
  import opened Host
  import opened Descriptor
  import opened Header
  import opened Router
  import opened Sorting

  /** The last character is the channel letter `R` or `L`. */
  predicate EndsWithChannel(s: string)
  {
    |s| > 0 && (s[|s| - 1] == 'R' || s[|s| - 1] == 'L')
  }

  /** The last three characters are the channel tag `(R)` or `(L)`. */
  predicate EndsWithChannelTag(s: string)
  {
    |s| >= 3 && (s[|s| - 3..] == "(R)" || s[|s| - 3..] == "(L)")
  }

  /** `name` and `next` agree up to their last `k` characters, and both
      are longer than `k`. */
  predicate SameStem(name: string, next: string, k: nat)
  {
    |name| > k && |next| > k && name[..|name| - k] == next[..|next| - k]
  }

  /** The second rule of the loop: the names differ only in a final
      channel letter of `next`. */
  predicate LetterPair(name: string, next: string)
  {
    SameStem(name, next, 1) && EndsWithChannel(next)
  }

  /** The third rule as written: the stems agree, and the stem of `next`
      (its name without the last three characters) is a channel tag. */
  predicate StemTagPair(name: string, next: string)
  {
    SameStem(name, next, 3) && (next[..|next| - 3] == "(R)" || next[..|next| - 3] == "(L)")
  }

  /** The third rule as its neighbours suggest: the stems agree and `next`
      ends in a channel tag. */
  predicate SuffixTagPair(name: string, next: string)
  {
    SameStem(name, next, 3) && EndsWithChannelTag(next)
  }

  /** The stereo test of the loop exactly as written: the number of
      characters of `name` that mark its channel when the next record
      `next` is its partner, or `None`. The rules are tried in order: an
      empty next name, a channel letter, then the tag rule, which compares
      `next[..^3]`, the name without its last three characters, with the
      tags. */
  function StereoChannelSizeAsWritten(name: string, next: string): (r: Option<nat>)
    ensures r == Some(0) <==> |next| == 0
    ensures r == Some(1) <==> LetterPair(name, next)
    ensures r == Some(3) <==> !LetterPair(name, next) && StemTagPair(name, next)
    ensures r == None <==> |next| > 0 && !LetterPair(name, next) && !StemTagPair(name, next)
    ensures r.Some? ==> r.value <= |name| && r.value <= |next|
  {
    if |next| == 0 then Some(0)
    else if |name| > 1 && |next| > 1 && EndsWithChannel(next) && next[..|next| - 1] == name[..|name| - 1] then Some(1)
    else if |next| > 3 && |name| > 3 && (next[..|next| - 3] == "(R)" || next[..|next| - 3] == "(L)")
            && next[..|next| - 3] == name[..|name| - 3] then Some(3)
    else None
  }

  /** The stereo test with the third rule reading the tag at the end of
      `next`, as its neighbours do. */
  function StereoChannelSize(name: string, next: string): (r: Option<nat>)
    ensures r == Some(0) <==> |next| == 0
    ensures r == Some(1) <==> LetterPair(name, next)
    ensures r == Some(3) <==> !LetterPair(name, next) && SuffixTagPair(name, next)
    ensures r == None <==> |next| > 0 && !LetterPair(name, next) && !SuffixTagPair(name, next)
    ensures r.Some? ==> r.value <= |name| && r.value <= |next|
  {
    if |next| == 0 then Some(0)
    else if |name| > 1 && |next| > 1 && EndsWithChannel(next) && next[..|next| - 1] == name[..|name| - 1] then Some(1)
    else if |next| > 3 && |name| > 3 && (next[|next| - 3..] == "(R)" || next[|next| - 3..] == "(L)")
            && next[..|next| - 3] == name[..|name| - 3] then Some(3)
    else None
  }

  /** Which third rule pairs records: the program's, or the corrected one. */
  datatype PairingRule = AsWritten | Corrected

  function ChannelSize(rule: PairingRule, name: string, next: string): Option<nat>
  {
    match rule
    case AsWritten => StereoChannelSizeAsWritten(name, next)
    case Corrected => StereoChannelSize(name, next)
  }

  /** As written, the third rule pairs only names of exactly six
      characters that both begin with the same tag. */
  lemma AsWrittenTagRule(name: string, next: string)
    requires StereoChannelSizeAsWritten(name, next) == Some(3)
    ensures |name| == 6 && |next| == 6
    ensures (next[..3] == "(R)" || next[..3] == "(L)") && name[..3] == next[..3]
  {
    assert |next[..|next| - 3]| == 3;
    assert |name[..|name| - 3]| == 3;
  }

  /** `Bass(L)` followed by `Bass(R)`: the tag rule as written misses the
      pair, the tag read at the end finds it. */
  lemma TagRuleMissesPair()
    ensures StereoChannelSizeAsWritten("Bass(L)", "Bass(R)") == None
    ensures StereoChannelSize("Bass(L)", "Bass(R)") == Some(3)
  {
    var name, next := "Bass(L)", "Bass(R)";
    assert !EndsWithChannel(next);
    assert next[..|next| - 3] == "Bass" == name[..|name| - 3];
    assert next[|next| - 3..] == "(R)";
  }

  /** One output file's worth of records: a record, its partner channel if
      the next record pairs with it, and how many characters of the name
      mark the channel. */
  datatype Unit = Unit(entry: Entry, stereo: Option<Entry>, channelSize: nat)

  /** The unit is what the stereo test says of its records. */
  predicate UnitPaired(rule: PairingRule, u: Unit)
  {
    if u.stereo.Some? then ChannelSize(rule, u.entry.record.name, u.stereo.value.record.name) == Some(u.channelSize)
    else u.channelSize == 0
  }

  /** The `for` loop's segmentation: a record pairs with the next one when
      the stereo test accepts them, and a pair consumes both; a record
      stays alone exactly when there is no next record or the test rejects
      it. */
  function Units(rule: PairingRule, es: seq<Entry>): (us: seq<Unit>)
    ensures |us| <= |es| && (|es| > 0 ==> |us| > 0)
    ensures forall k :: 0 <= k < |us| ==> UnitPaired(rule, us[k])
    ensures |es| > 0 ==> us[0].entry == es[0]
    ensures |es| > 0 ==> (us[0].stereo.Some? <==> |es| >= 2 && ChannelSize(rule, es[0].record.name, es[1].record.name).Some?)
    ensures |es| > 0 && us[0].stereo.Some? ==> us[0].stereo.value == es[1]
    decreases |es|
  {
    if |es| == 0 then []
    else if |es| >= 2 && ChannelSize(rule, es[0].record.name, es[1].record.name).Some? then
      [Unit(es[0], Some(es[1]), ChannelSize(rule, es[0].record.name, es[1].record.name).value)] + Units(rule, es[2..])
    else [Unit(es[0], None, 0)] + Units(rule, es[1..])
  }

  function UnitMembers(u: Unit): seq<Entry>
  {
    [u.entry] + if u.stereo.Some? then [u.stereo.value] else []
  }

  function Members(us: seq<Unit>): seq<Entry>
    decreases |us|
  {
    if us == [] then [] else UnitMembers(us[0]) + Members(us[1..])
  }

  /** Every record lands in exactly one unit, in order. */
  lemma {:induction false} UnitsCover(rule: PairingRule, es: seq<Entry>)
    ensures Members(Units(rule, es)) == es
    decreases |es|
  {
    if |es| == 0 {
    } else if |es| >= 2 && ChannelSize(rule, es[0].record.name, es[1].record.name).Some? {
      var us := Units(rule, es);
      UnitsCover(rule, es[2..]);
      assert us[1..] == Units(rule, es[2..]);
      assert es == [es[0], es[1]] + es[2..];
    } else {
      var us := Units(rule, es);
      UnitsCover(rule, es[1..]);
      assert us[1..] == Units(rule, es[1..]);
      HeadTail(es);
    }
  }

  /** The units from position `i` of the sorted list. */
  lemma UnitsFrom(rule: PairingRule, s: seq<Entry>, i: nat)
    requires i < |s|
    ensures i + 1 < |s| && ChannelSize(rule, s[i].record.name, s[i + 1].record.name).Some? ==>
      Units(rule, s[i..]) == [Unit(s[i], Some(s[i + 1]), ChannelSize(rule, s[i].record.name, s[i + 1].record.name).value)]
                             + Units(rule, s[i + 2..])
    ensures !(i + 1 < |s| && ChannelSize(rule, s[i].record.name, s[i + 1].record.name).Some?) ==>
      Units(rule, s[i..]) == [Unit(s[i], None, 0)] + Units(rule, s[i + 1..])
  {
    assert s[i..][1..] == s[i + 1..];
    if i + 1 < |s| {
      assert s[i..][2..] == s[i + 2..];
    }
  }

  /** `Bass(L)`, `Bass(R)` is two mono units under the program's rule and
      one stereo unit under the corrected one; `(R)abc`, `(R)xyz` is one
      stereo unit under the program's rule and two mono units under the
      corrected one. */
  lemma RulesDisagree(es: seq<Entry>, fs: seq<Entry>)
    requires |es| == 2 && es[0].record.name == "Bass(L)" && es[1].record.name == "Bass(R)"
    requires |fs| == 2 && fs[0].record.name == "(R)abc" && fs[1].record.name == "(R)xyz"
    ensures |Units(AsWritten, es)| == 2 && Units(AsWritten, es)[0].stereo.None?
    ensures |Units(Corrected, es)| == 1 && Units(Corrected, es)[0].channelSize == 3
    ensures |Units(AsWritten, fs)| == 1 && Units(AsWritten, fs)[0].channelSize == 3
    ensures |Units(Corrected, fs)| == 2 && Units(Corrected, fs)[0].stereo.None?
  {
    TagRuleMissesPair();
    var n, x := fs[0].record.name, fs[1].record.name;
    assert !EndsWithChannel(x) && !EndsWithChannelTag(x);
    assert x[..|x| - 3] == "(R)" == n[..|n| - 3];
    assert StereoChannelSizeAsWritten(n, x) == Some(3);
    assert StereoChannelSize(n, x) == None;
    assert es[2..] == [] && fs[2..] == [];
    assert es[1..][1..] == [] && fs[1..][1..] == [];
  }

  /** The root of every output path. */
  const OutputRoot: string := "converted_wav_files"

  /** The package name that does not title a directory. */
  const MusicDirector: string := "eJay Musicdirector"

  /** The header names the directory: a text descriptor whose header
      carries a package other than the Music Director one. */
  predicate TitledByHeader(header: PxdHeader, binaryHeader: bool)
  {
    |header.package| != 0 && header.package != MusicDirector && !binaryHeader
  }

  /** The output directory of a unit: from the header's package and type
      when the header titles it, otherwise from the blob prefix and the
      header's type, or the record's type number when the header has no
      type or the descriptor is a binary one. */
  function OutputDir(header: PxdHeader, rec: Record, binFilePrefix: string, binaryHeader: bool): (dir: string)
    ensures TitledByHeader(header, binaryHeader) ==>
      dir == OutputRoot + "\\" + header.package + "\\" + header.typeName
    ensures !TitledByHeader(header, binaryHeader) && (|header.typeName| == 0 || binaryHeader) ==>
      dir == OutputRoot + "\\" + binFilePrefix + "\\" + IntToString(rec.typeId)
    ensures !TitledByHeader(header, binaryHeader) && !(|header.typeName| == 0 || binaryHeader) ==>
      dir == OutputRoot + "\\" + binFilePrefix + "\\" + header.typeName
  {
    if |header.package| == 0 || header.package == MusicDirector || binaryHeader then
      if |header.typeName| == 0 || binaryHeader then
        OutputRoot + "\\" + binFilePrefix + "\\" + IntToString(rec.typeId)
      else
        OutputRoot + "\\" + binFilePrefix + "\\" + header.typeName
    else
      OutputRoot + "\\" + header.package + "\\" + header.typeName
  }

  /** For a binary descriptor the headers never choose the directory:
      records of one type share a directory whatever their headers say. */
  lemma BinaryDirIgnoresHeader(h1: PxdHeader, h2: PxdHeader, r1: Record, r2: Record, binFilePrefix: string)
    requires r1.typeId == r2.typeId
    ensures OutputDir(h1, r1, binFilePrefix, true) == OutputDir(h2, r2, binFilePrefix, true)
    ensures OutputDir(h1, r1, binFilePrefix, true) == OutputRoot + "\\" + binFilePrefix + "\\" + IntToString(r1.typeId)
  {
  }

  /** `k` underscores. */
  function Underscores(k: nat): (u: string)
    ensures |u| == k && forall i :: 0 <= i < k ==> u[i] == '_'
  {
    seq(k, _ => '_')
  }

  /** The output path after `k` collisions: `k` underscores before `.wav`. */
  function Candidate(stem: string, k: nat): (f: string)
    ensures EndsWith(f, ".wav") && |f| == |stem| + k + 4 && f[..|stem|] == stem
  {
    var f := stem + Underscores(k) + ".wav";
    assert f[|f| - 4..] == ".wav";
    assert f[..|stem|] == stem;
    f
  }

  /** The collision loop gives up after this many renames. */
  const MaxRetries: nat := 10

  /** The number of renames the collision loop makes from the `i`-th
      candidate on: it stops at the first candidate whose lower-cased path
      is not yet taken, or after `MaxRetries` renames. */
  function Retries(stem: string, taken: set<string>, i: nat): (k: nat)
    requires i <= MaxRetries
    ensures i <= k <= MaxRetries
    ensures forall j :: i <= j < k ==> Lower(Candidate(stem, j)) in taken
    ensures k < MaxRetries ==> Lower(Candidate(stem, k)) !in taken
    decreases MaxRetries - i
  {
    if i < MaxRetries && Lower(Candidate(stem, i)) in taken then Retries(stem, taken, i + 1) else i
  }

  /** Renaming a candidate gives the next one. */
  lemma BumpCandidate(stem: string, k: nat)
    ensures var f := Candidate(stem, k);
      f[..|f| - 4] + "_.wav" == Candidate(stem, k + 1)
  {
    var f := Candidate(stem, k);
    assert f[..|f| - 4] == stem + Underscores(k);
    assert Underscores(k + 1) == Underscores(k) + "_";
    AppendAssoc(stem + Underscores(k), "_", ".wav");
    AppendAssoc(stem, Underscores(k), "_");
  }

  /** The collision loop: `outputFile[..^4] + "_.wav"` while the
      lower-cased path is taken and fewer than ten renames were made. */
  method ResolveCollision(stem: string, taken: set<string>) returns (outputFile: string)
    ensures outputFile == Candidate(stem, Retries(stem, taken, 0))
  {
    outputFile := stem + ".wav";
    assert outputFile == Candidate(stem, 0);
    var i := 0;
    while Lower(outputFile) in taken && i < MaxRetries
      invariant i <= MaxRetries && outputFile == Candidate(stem, i)
      invariant Retries(stem, taken, i) == Retries(stem, taken, 0)
      decreases MaxRetries - i
    {
      BumpCandidate(stem, i);
      outputFile := outputFile[..|outputFile| - 4] + "_.wav";
      i := i + 1;
    }
  }

  /** What the loop does to the file system, in order. */
  datatype Action =
    | CreateDirectory(dir: string)
    | WriteAllBytes(path: string, bytes: seq<byte>)
    | Decompress(blob: string, offset: int, length: int, stereoOffset: int, stereoLength: int,
                 rate: int, path: string)

  /** The state the loop carries: the actions so far, `outputFiles` (the
      lower-cased paths handed out), the lower-cased paths written in this
      run, and `files`. */
  datatype PlanState = PlanState(actions: seq<Action>, outputFiles: set<string>, written: set<string>, files: int)

  function EmptyPlan(): PlanState
  {
    PlanState([], {}, {}, 0)
  }

  /** `2 * header.samples * (stereo != null ? 2 : 1)` in 32-bit arithmetic. */
  function EffectiveRate(samples: int, stereo: bool): (rate: int)
    ensures IsInt32(rate)
    ensures IsInt32(2 * samples * (if stereo then 2 else 1)) ==> rate == 2 * samples * (if stereo then 2 else 1)
  {
    Wrap32(2 * samples * (if stereo then 2 else 1))
  }

  /** The file that `File.Exists` sees: on the disk before the run, or
      written earlier in this run (paths are compared lower-cased, as on a
      case-insensitive file system). */
  predicate FileExists(a: Archive, written: set<string>, path: string)
  {
    Exists(a.disk, path) || Lower(path) in written
  }

  /** Where a unit goes: its directory, and its output path after the
      collision loop against the paths handed out so far. */
  function Placement(a: Archive, binaryHeader: bool, outputFiles: set<string>, u: Unit): (r: (string, string))
    requires u.channelSize <= |u.entry.record.name|
  {
    var rec := u.entry.record;
    var filename := RemoveBadCharsFromFilename(a.paths, rec.name[..|rec.name| - u.channelSize]);
    var dir := OutputDir(u.entry.header, rec, a.binFilePrefix, binaryHeader);
    var stem := dir + "\\" + filename;
    (dir, Candidate(stem, Retries(stem, outputFiles, 0)))
  }

  /** What a unit placed at `outputFile` in `dir` does: the directory is
      created, and the file is extracted unless it exists already. */
  function Extraction(a: Archive, st: PlanState, u: Unit, dir: string, outputFile: string): Result<PlanState>
  {
    var rec := u.entry.record;
    var header := u.entry.header;
    var binPath := BinPath(a, u.entry.part);
    var outputFiles := st.outputFiles + {Lower(outputFile)};
    var made := st.actions + [CreateDirectory(dir)];
    if FileExists(a, st.written, outputFile) then
      Ok(PlanState(made, outputFiles, st.written, st.files + 1))
    else if header.isWave then
      var bytes :- ReadFileFromTo(a.disk, binPath, rec.offset, rec.length);
      Ok(PlanState(made + [WriteAllBytes(outputFile, bytes)], outputFiles, st.written + {Lower(outputFile)}, st.files + 1))
    else
      var stereoOffset := if u.stereo.Some? then u.stereo.value.record.offset else 0;
      var stereoLength := if u.stereo.Some? then u.stereo.value.record.length else 0;
      var rate := EffectiveRate(header.samples, u.stereo.Some?);
      Ok(PlanState(made + [Decompress(binPath, rec.offset, rec.length, stereoOffset, stereoLength, rate, outputFile)],
                   outputFiles, st.written + {Lower(outputFile)}, st.files + 1))
  }

  /** One pass of the `for` loop's body over a unit; cutting the channel
      marker off a name shorter than it is an exception. */
  function UnitStep(a: Archive, binaryHeader: bool, st: PlanState, u: Unit): Result<PlanState>
  {
    if u.channelSize > |u.entry.record.name| then Err(OutOfRange)
    else
      var (dir, outputFile) := Placement(a, binaryHeader, st.outputFiles, u);
      Extraction(a, st, u, dir, outputFile)
  }

  /** The loop over the units, stopping at the first exception. */
  function Plan(a: Archive, binaryHeader: bool, st: PlanState, us: seq<Unit>): Result<PlanState>
    decreases |us|
  {
    if us == [] then Ok(st)
    else
      var st' :- UnitStep(a, binaryHeader, st, us[0]);
      Plan(a, binaryHeader, st', us[1..])
  }

  lemma PlanCons(a: Archive, binaryHeader: bool, st: PlanState, u: Unit, us: seq<Unit>)
    ensures Plan(a, binaryHeader, st, [u] + us) ==
      (if UnitStep(a, binaryHeader, st, u).Ok? then Plan(a, binaryHeader, UnitStep(a, binaryHeader, st, u).value, us)
       else Err(UnitStep(a, binaryHeader, st, u).error))
  {
    assert ([u] + us)[0] == u && ([u] + us)[1..] == us;
  }

  /** The effects on disk of one pass of the loop's body, whether or not
      it throws: a name shorter than its channel marker throws before
      anything happens, and a blob read that throws does so after the
      directory was created. */
  function StepPerformed(a: Archive, binaryHeader: bool, st: PlanState, u: Unit): seq<Action>
  {
    if u.channelSize > |u.entry.record.name| then st.actions
    else
      var (dir, outputFile) := Placement(a, binaryHeader, st.outputFiles, u);
      match Extraction(a, st, u, dir, outputFile)
      case Ok(st') => st'.actions
      case Err(_) => st.actions + [CreateDirectory(dir)]
  }

  /** The effects on disk of the loop over the units: an exception leaves
      in place what the passes before it, and the failing pass itself,
      have already done. */
  function Performed(a: Archive, binaryHeader: bool, st: PlanState, us: seq<Unit>): seq<Action>
    decreases |us|
  {
    if us == [] then st.actions
    else match UnitStep(a, binaryHeader, st, us[0])
      case Ok(st') => Performed(a, binaryHeader, st', us[1..])
      case Err(_) => StepPerformed(a, binaryHeader, st, us[0])
  }

  lemma PerformedCons(a: Archive, binaryHeader: bool, st: PlanState, u: Unit, us: seq<Unit>)
    ensures Performed(a, binaryHeader, st, [u] + us) ==
      (if UnitStep(a, binaryHeader, st, u).Ok? then Performed(a, binaryHeader, UnitStep(a, binaryHeader, st, u).value, us)
       else StepPerformed(a, binaryHeader, st, u))
  {
    assert ([u] + us)[0] == u && ([u] + us)[1..] == us;
  }

  /** A pass that succeeds performs exactly the actions it records, and
      every pass keeps the actions done before it. */
  lemma StepPerformedExtends(a: Archive, binaryHeader: bool, st: PlanState, u: Unit)
    ensures UnitStep(a, binaryHeader, st, u).Ok? ==>
      StepPerformed(a, binaryHeader, st, u) == UnitStep(a, binaryHeader, st, u).value.actions
    ensures |st.actions| <= |StepPerformed(a, binaryHeader, st, u)|
    ensures StepPerformed(a, binaryHeader, st, u)[..|st.actions|] == st.actions
  {
    if u.channelSize <= |u.entry.record.name| {
      var (dir, outputFile) := Placement(a, binaryHeader, st.outputFiles, u);
      ExtractionKeeps(a, st, u, dir, outputFile);
    }
  }

  /** An extraction only appends to the actions done before it. */
  lemma ExtractionKeeps(a: Archive, st: PlanState, u: Unit, dir: string, outputFile: string)
    ensures (st.actions + [CreateDirectory(dir)])[..|st.actions|] == st.actions
    ensures Extraction(a, st, u, dir, outputFile).Ok? ==>
      var actions := Extraction(a, st, u, dir, outputFile).value.actions;
      |st.actions| < |actions| && actions[..|st.actions|] == st.actions
  {
    var made := st.actions + [CreateDirectory(dir)];
    assert made[..|st.actions|] == st.actions;
    var e := Extraction(a, st, u, dir, outputFile);
    if e.Ok? && e.value.actions != made {
      var x := e.value.actions[|made|];
      assert e.value.actions == made + [x];
      assert (made + [x])[..|st.actions|] == made[..|st.actions|];
    }
  }

  /** When the whole loop succeeds, its effects are its recorded actions. */
  lemma {:induction false} PerformedOfPlan(a: Archive, binaryHeader: bool, st: PlanState, us: seq<Unit>)
    requires Plan(a, binaryHeader, st, us).Ok?
    ensures Performed(a, binaryHeader, st, us) == Plan(a, binaryHeader, st, us).value.actions
    decreases |us|
  {
    if us != [] {
      PerformedOfPlan(a, binaryHeader, UnitStep(a, binaryHeader, st, us[0]).value, us[1..]);
    }
  }

  /** Effects are never undone: whatever happens later, the actions done
      before are a prefix of the loop's effects. */
  lemma {:induction false} PerformedExtends(a: Archive, binaryHeader: bool, st: PlanState, us: seq<Unit>)
    ensures |st.actions| <= |Performed(a, binaryHeader, st, us)|
    ensures Performed(a, binaryHeader, st, us)[..|st.actions|] == st.actions
    decreases |us|
  {
    if us != [] {
      StepPerformedExtends(a, binaryHeader, st, us[0]);
      var s := UnitStep(a, binaryHeader, st, us[0]);
      if s.Ok? {
        PerformedExtends(a, binaryHeader, s.value, us[1..]);
        var p := Performed(a, binaryHeader, s.value, us[1..]);
        assert p[..|s.value.actions|][..|st.actions|] == p[..|st.actions|];
      }
    }
  }

  /** The path a file-writing action writes, lower-cased. */
  function Target(act: Action): Option<string>
  {
    match act
    case CreateDirectory(_) => None
    case WriteAllBytes(path, _) => Some(Lower(path))
    case Decompress(_, _, _, _, _, _, path) => Some(Lower(path))
  }

  /** The lower-cased paths the actions write. */
  function Targets(acts: seq<Action>): set<string>
    decreases |acts|
  {
    if acts == [] then {}
    else Targets(acts[..|acts| - 1]) + (if Target(acts[|acts| - 1]).Some? then {Target(acts[|acts| - 1]).value} else {})
  }

  /** No two actions write the same file, up to case. */
  predicate DistinctTargets(acts: seq<Action>)
  {
    forall i, j :: 0 <= i < j < |acts| && Target(acts[i]).Some? ==> Target(acts[i]) != Target(acts[j])
  }

  /** The loop's bookkeeping agrees with its actions: the paths written
      are the actions' targets, each written once, and every one of them
      was handed out through `outputFiles`. */
  predicate Consistent(st: PlanState)
  {
    && st.written == Targets(st.actions)
    && DistinctTargets(st.actions)
    && st.written <= st.outputFiles
  }

  lemma TargetsSnoc(acts: seq<Action>, act: Action)
    ensures Targets(acts + [act]) ==
      Targets(acts) + (if Target(act).Some? then {Target(act).value} else {})
  {
    assert (acts + [act])[..|acts + [act]| - 1] == acts;
  }

  lemma {:induction false} TargetsMember(acts: seq<Action>, i: nat)
    requires i < |acts| && Target(acts[i]).Some?
    ensures Target(acts[i]).value in Targets(acts)
    decreases |acts|
  {
    if i < |acts| - 1 {
      TargetsMember(acts[..|acts| - 1], i);
    }
  }

  /** Appending an action whose target is not yet written keeps the targets distinct. */
  lemma DistinctSnoc(acts: seq<Action>, act: Action)
    requires DistinctTargets(acts)
    requires Target(act).Some? ==> Target(act).value !in Targets(acts)
    ensures DistinctTargets(acts + [act])
  {
    var acts' := acts + [act];
    forall i, j | 0 <= i < j < |acts'| && Target(acts'[i]).Some?
      ensures Target(acts'[i]) != Target(acts'[j])
    {
      if j == |acts| && Target(act).Some? {
        assert acts'[i] == acts[i];
        TargetsMember(acts, i);
      } else if j < |acts| {
        assert acts'[i] == acts[i] && acts'[j] == acts[j];
      }
    }
  }

  /** Extracting a placed unit: `files` goes up by one, its path joins
      `outputFiles`, and the bookkeeping stays consistent. */
  lemma ExtractionConsistent(a: Archive, st: PlanState, u: Unit, dir: string, outputFile: string)
    requires Consistent(st) && Extraction(a, st, u, dir, outputFile).Ok?
    ensures var st' := Extraction(a, st, u, dir, outputFile).value;
      && Consistent(st')
      && st'.files == st.files + 1
      && st'.outputFiles == st.outputFiles + {Lower(outputFile)}
  {
    var st' := Extraction(a, st, u, dir, outputFile).value;
    var made := st.actions + [CreateDirectory(dir)];
    TargetsSnoc(st.actions, CreateDirectory(dir));
    DistinctSnoc(st.actions, CreateDirectory(dir));
    if !FileExists(a, st.written, outputFile) {
      var act := st'.actions[|made|];
      assert st'.actions == made + [act];
      assert Target(act) == Some(Lower(outputFile));
      TargetsSnoc(made, act);
      DistinctSnoc(made, act);
    }
  }

  /** One unit: `files` goes up by one, one path joins `outputFiles`, and
      the bookkeeping stays consistent. */
  lemma UnitStepConsistent(a: Archive, binaryHeader: bool, st: PlanState, u: Unit)
    requires Consistent(st) && UnitStep(a, binaryHeader, st, u).Ok?
    ensures var st' := UnitStep(a, binaryHeader, st, u).value;
      && Consistent(st')
      && st'.files == st.files + 1
      && st.outputFiles <= st'.outputFiles && |st'.outputFiles| <= |st.outputFiles| + 1
  {
    var (dir, outputFile) := Placement(a, binaryHeader, st.outputFiles, u);
    ExtractionConsistent(a, st, u, dir, outputFile);
  }

  /** Over the whole loop: `files` counts the units, `outputFiles` grows by
      at most one path per unit, and the bookkeeping stays consistent. */
  lemma {:induction false} PlanConsistent(a: Archive, binaryHeader: bool, st: PlanState, us: seq<Unit>)
    requires Consistent(st) && Plan(a, binaryHeader, st, us).Ok?
    ensures var st' := Plan(a, binaryHeader, st, us).value;
      && Consistent(st')
      && st'.files == st.files + |us|
      && st.outputFiles <= st'.outputFiles && |st'.outputFiles| <= |st.outputFiles| + |us|
    decreases |us|
  {
    if us != [] {
      UnitStepConsistent(a, binaryHeader, st, us[0]);
      PlanConsistent(a, binaryHeader, UnitStep(a, binaryHeader, st, us[0]).value, us[1..]);
    }
  }

  /** The start of the loop's body: the file name without its channel
      marker and bad characters, the directory, and the collision loop. */
  method PlaceUnit(a: Archive, binaryHeader: bool, outputFiles: set<string>, u: Unit) returns (dir: string, outputFile: string)
    requires u.channelSize <= |u.entry.record.name|
    ensures (dir, outputFile) == Placement(a, binaryHeader, outputFiles, u)
  {
    var record := u.entry.record;
    var filenameWithoutBadChars := RemoveBadCharsFromFilename(a.paths, record.name[..|record.name| - u.channelSize]);
    dir := OutputDir(u.entry.header, record, a.binFilePrefix, binaryHeader);
    outputFile := ResolveCollision(dir + "\\" + filenameWithoutBadChars, outputFiles);
  }

  /** The rest of the loop's body: create the directory, register the
      path, and extract the sample unless its file exists. */
  method ExtractUnit(a: Archive, st: PlanState, u: Unit, dir: string, outputFile: string)
    returns (r: Result<PlanState>, performed: seq<Action>)
    ensures r == Extraction(a, st, u, dir, outputFile)
    ensures performed == if r.Ok? then r.value.actions else st.actions + [CreateDirectory(dir)]
  {
    var record, header := u.entry.record, u.entry.header;
    var binPath := BinPath(a, u.entry.part);
    var actions := st.actions + [CreateDirectory(dir)];
    var outputFiles := st.outputFiles + {Lower(outputFile)};
    var written := st.written;
    if !FileExists(a, st.written, outputFile) {
      if header.isWave {
        var bytes := ReadFileFromTo(a.disk, binPath, record.offset, record.length);
        if bytes.Err? {
          return Err(bytes.error), actions;
        }
        actions := actions + [WriteAllBytes(outputFile, bytes.value)];
      } else {
        var stereoOffset := if u.stereo.Some? then u.stereo.value.record.offset else 0;
        var stereoLength := if u.stereo.Some? then u.stereo.value.record.length else 0;
        actions := actions + [Decompress(binPath, record.offset, record.length, stereoOffset, stereoLength,
                                         EffectiveRate(header.samples, u.stereo.Some?), outputFile)];
      }
      written := written + {Lower(outputFile)};
    }
    r := Ok(PlanState(actions, outputFiles, written, st.files + 1));
    performed := actions;
  }

  /** The body of the `for` loop over one unit, and its effects on disk. */
  method ProcessUnit(a: Archive, binaryHeader: bool, st: PlanState, u: Unit)
    returns (r: Result<PlanState>, performed: seq<Action>)
    ensures r == UnitStep(a, binaryHeader, st, u)
    ensures performed == StepPerformed(a, binaryHeader, st, u)
  {
    if u.channelSize > |u.entry.record.name| {
      return Err(OutOfRange), st.actions;
    }
    var dir, outputFile := PlaceUnit(a, binaryHeader, st.outputFiles, u);
    r, performed := ExtractUnit(a, st, u, dir, outputFile);
  }

  /** `ProcessRecordsAndHeaders`: sort by `(group, id)`, then walk the
      list, letting a pair skip its second record. */
  method ProcessRecordsAndHeaders(a: Archive, records: seq<Entry>, binaryHeader: bool)
    returns (r: Result<PlanState>, performed: seq<Action>)
    ensures r == Plan(a, binaryHeader, EmptyPlan(), Units(AsWritten, SortBy(GroupIdKey, records)))
    ensures performed == Performed(a, binaryHeader, EmptyPlan(), Units(AsWritten, SortBy(GroupIdKey, records)))
  {
    var sorted := SortBy(GroupIdKey, records);
    ghost var all := Units(AsWritten, sorted);
    var st := EmptyPlan();
    var index := 0;
    assert sorted[0..] == sorted;
    while index < |sorted|
      invariant index <= |sorted|
      invariant Plan(a, binaryHeader, EmptyPlan(), all) == Plan(a, binaryHeader, st, Units(AsWritten, sorted[index..]))
      invariant Performed(a, binaryHeader, EmptyPlan(), all) == Performed(a, binaryHeader, st, Units(AsWritten, sorted[index..]))
      decreases |sorted| - index
    {
      var entry := sorted[index];
      var stereo: Option<Entry> := None;
      var channelSize := 0;
      UnitsFrom(AsWritten, sorted, index);
      if index + 1 < |sorted| {
        var size := StereoChannelSizeAsWritten(entry.record.name, sorted[index + 1].record.name);
        if size.Some? {
          stereo := Some(sorted[index + 1]);
          channelSize := size.value;
        }
      }
      var unit := Unit(entry, stereo, channelSize);
      var next := if stereo.Some? then index + 2 else index + 1;
      PlanCons(a, binaryHeader, st, unit, Units(AsWritten, sorted[next..]));
      PerformedCons(a, binaryHeader, st, unit, Units(AsWritten, sorted[next..]));
      var step, done := ProcessUnit(a, binaryHeader, st, unit);
      if step.Err? {
        return Err(step.error), done;
      }
      st := step.value;
      index := next;
    }
    assert sorted[index..] == [];
    return Ok(st), st.actions;
  }

  /** The loop's results: every sorted record is in one unit, `files`
      counts the units, no file is written twice and every written path
      was registered in `outputFiles`. */
  lemma ProcessedRecords(rule: PairingRule, a: Archive, records: seq<Entry>, binaryHeader: bool)
    requires Plan(a, binaryHeader, EmptyPlan(), Units(rule, SortBy(GroupIdKey, records))).Ok?
    ensures var sorted := SortBy(GroupIdKey, records);
      var st := Plan(a, binaryHeader, EmptyPlan(), Units(rule, sorted)).value;
      && Members(Units(rule, sorted)) == sorted
      && multiset(sorted) == multiset(records)
      && st.files == |Units(rule, sorted)|
      && Consistent(st)
      && |st.outputFiles| <= st.files
  {
    var sorted := SortBy(GroupIdKey, records);
    UnitsCover(rule, sorted);
    PlanConsistent(a, binaryHeader, EmptyPlan(), Units(rule, sorted));
  }
}
