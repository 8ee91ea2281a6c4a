/** The .NET string operations the decompressor relies on, over `seq<char>`:
    `Trim`, `ToLower`, `EndsWith`, `IndexOf`, `Regex.Split` on CR LF,
    `int.ToString` and `int.Parse`. */
module Strings {
  import opened Base

  /** `char.IsWhiteSpace`: the controls U+0009 to U+000D, the space, U+0085,
      U+00A0 and the Unicode space, line and paragraph separators. */
  predicate IsWhiteSpace(c: char)
  {
    var n := c as int;
    n == 0x20 || 0x09 <= n <= 0x0D || n == 0x85 || n == 0xA0 || n == 0x1680
    || 0x2000 <= n <= 0x200A || n == 0x2028 || n == 0x2029 || n == 0x202F
    || n == 0x205F || n == 0x3000
  }

  /** No white space at either end. */
  predicate IsTrimmed(s: string)
  {
    s == [] || (!IsWhiteSpace(s[0]) && !IsWhiteSpace(s[|s| - 1]))
  }

  /** `TrimStart()`: the suffix left after dropping the leading white space. */
  function TrimStart(s: string): (r: string)
    ensures |r| <= |s| && r == s[|s| - |r|..]
    ensures forall i :: 0 <= i < |s| - |r| ==> IsWhiteSpace(s[i])
    ensures r != [] ==> !IsWhiteSpace(r[0])
  {
    if |s| > 0 && IsWhiteSpace(s[0]) then TrimStart(s[1..]) else s
  }

  /** `TrimEnd()`: the prefix left after dropping the trailing white space. */
  function TrimEnd(s: string): (r: string)
    ensures |r| <= |s| && r == s[..|r|]
    ensures forall i :: |r| <= i < |s| ==> IsWhiteSpace(s[i])
    ensures r != [] ==> !IsWhiteSpace(r[|r| - 1])
  {
    if |s| > 0 && IsWhiteSpace(s[|s| - 1]) then TrimEnd(s[..|s| - 1]) else s
  }

  /** `Trim()`: the middle of `s` between its leading and trailing white space. */
  function Trim(s: string): (r: string)
    ensures IsTrimmed(r) && |r| <= |s|
  {
    TrimEnd(TrimStart(s))
  }

  /** `Trim` keeps a contiguous slice of `s`: the one after the leading
      white space. */
  lemma TrimKeeps(s: string)
    ensures |s| - |TrimStart(s)| + |Trim(s)| <= |s|
    ensures forall k :: 0 <= k < |Trim(s)| ==> Trim(s)[k] == s[|s| - |TrimStart(s)| + k]
  {
    PrefixOfSuffix(s, TrimStart(s), Trim(s));
  }

  /** `Trim` cuts white space only, and only at the two ends. */
  lemma TrimCuts(s: string)
    ensures forall k :: 0 <= k < |s| - |TrimStart(s)| ==> IsWhiteSpace(s[k])
    ensures forall k :: |s| - |TrimStart(s)| + |Trim(s)| <= k < |s| ==> IsWhiteSpace(s[k])
  {
    PrefixOfSuffix(s, TrimStart(s), Trim(s));
  }

  /** Trimming a string that is already trimmed changes nothing. */
  lemma TrimTrimmed(s: string)
    requires IsTrimmed(s)
    ensures Trim(s) == s
  {
    assert TrimStart(s) == s;
  }

  /** `TrimStart` removes white space only: every other character keeps
      its number of occurrences. */
  lemma {:induction false} TrimStartCounts(s: string, c: char)
    requires !IsWhiteSpace(c)
    ensures multiset(TrimStart(s))[c] == multiset(s)[c]
    decreases |s|
  {
    if |s| > 0 && IsWhiteSpace(s[0]) {
      TrimStartCounts(s[1..], c);
      HeadTail(s);
      assert multiset(s) == multiset([s[0]]) + multiset(s[1..]);
    }
  }

  /** `TrimEnd` removes white space only. */
  lemma {:induction false} TrimEndCounts(s: string, c: char)
    requires !IsWhiteSpace(c)
    ensures multiset(TrimEnd(s))[c] == multiset(s)[c]
    decreases |s|
  {
    if |s| > 0 && IsWhiteSpace(s[|s| - 1]) {
      TrimEndCounts(s[..|s| - 1], c);
      assert s == s[..|s| - 1] + [s[|s| - 1]];
      assert multiset(s) == multiset(s[..|s| - 1]) + multiset([s[|s| - 1]]);
    }
  }

  /** `Trim` keeps every character that is not white space, as often as
      it occurs. */
  lemma TrimCounts(s: string, c: char)
    requires !IsWhiteSpace(c)
    ensures multiset(Trim(s))[c] == multiset(s)[c]
  {
    TrimStartCounts(s, c);
    TrimEndCounts(TrimStart(s), c);
  }

  /** `char.ToLower` restricted to ASCII: `A`..`Z` become `a`..`z`. */
  function LowerChar(c: char): char
  {
    if 'A' <= c <= 'Z' then (c as int + 32) as char else c
  }

  /** `char.ToUpperInvariant` restricted to ASCII: `a`..`z` become `A`..`Z`. */
  function UpperChar(c: char): char
  {
    if 'a' <= c <= 'z' then (c as int - 32) as char else c
  }

  /** `string.ToLower()` (ASCII letters only). */
  function Lower(s: string): (r: string)
    ensures |r| == |s| && forall i :: 0 <= i < |s| ==> r[i] == LowerChar(s[i])
  {
    seq(|s|, i requires 0 <= i < |s| => LowerChar(s[i]))
  }

  /** `string.ToUpperInvariant()` (ASCII letters only). */
  function Upper(s: string): (r: string)
    ensures |r| == |s| && forall i :: 0 <= i < |s| ==> r[i] == UpperChar(s[i])
  {
    seq(|s|, i requires 0 <= i < |s| => UpperChar(s[i]))
  }

  /** `s.EndsWith(suffix)` */
  predicate EndsWith(s: string, suffix: string)
  {
    |suffix| <= |s| && s[|s| - |suffix|..] == suffix
  }

  /** `s.StartsWith(prefix)` */
  predicate StartsWith(s: string, prefix: string)
  {
    |prefix| <= |s| && s[..|prefix|] == prefix
  }

  lemma EndsWithAppend(a: string, b: string)
    ensures EndsWith(a + b, b)
  {
    assert (a + b)[|a|..] == b;
  }

  lemma StartsWithAppend(a: string, b: string, prefix: string)
    requires StartsWith(a, prefix)
    ensures StartsWith(a + b, prefix)
  {
    assert (a + b)[..|prefix|] == a[..|prefix|];
  }

  lemma StartsWithSelf(a: string, b: string)
    ensures StartsWith(a + b, a)
  {
    assert (a + b)[..|a|] == a;
  }

  /** `pat` occurs in `s` starting at index `i`. */
  predicate OccursAt(s: string, pat: string, i: int)
  {
    0 <= i && i + |pat| <= |s| && s[i..i + |pat|] == pat
  }

  /** A slice ending at or before the first occurrence of a non-empty
      pattern holds no occurrence of it. */
  lemma NoOccurrenceBefore(text: string, pat: string, s: nat, e: nat)
    requires s <= e <= |text| && |pat| > 0
    requires forall j :: 0 <= j < e ==> !OccursAt(text, pat, j)
    ensures forall j :: !OccursAt(text[s..e], pat, j)
  {
    var t := text[s..e];
    forall j | OccursAt(t, pat, j) ensures OccursAt(text, pat, s + j) && s + j < e {
      SliceOfSlice(text, s, e, j, j + |pat|);
    }
  }

  /** The first occurrence of `pat` at or after `from`, or -1. */
  function IndexFrom(s: string, pat: string, from: nat): (r: int)
    requires from <= |s|
    decreases |s| + 1 - from
    ensures r == -1 || (from <= r && OccursAt(s, pat, r))
    ensures forall j :: from <= j && (r == -1 || j < r) ==> !OccursAt(s, pat, j)
  {
    if from + |pat| > |s| then -1
    else if s[from..from + |pat|] == pat then from
    else IndexFrom(s, pat, from + 1)
  }

  /** `s.IndexOf(pat)` compared character by character: the first
      occurrence, or -1 when there is none. */
  function IndexOf(s: string, pat: string): (r: int)
    ensures r == -1 <==> forall j :: !OccursAt(s, pat, j)
    ensures r != -1 ==> OccursAt(s, pat, r) && forall j :: 0 <= j < r ==> !OccursAt(s, pat, j)
  {
    IndexFrom(s, pat, 0)
  }

  /** `t` contains the two characters CR LF next to each other. */
  predicate HasCrLf(t: string)
  {
    exists i :: 0 <= i < |t| - 1 && t[i] == '\r' && t[i + 1] == '\n'
  }

  /** `Regex.Split(s, "\x0D\x0A")`: the pieces between the CR LF pairs,
      matched from the left; there is always at least one piece. */
  function SplitCrLf(s: string): (r: seq<string>)
    decreases |s|
    ensures |r| >= 1 && |r[0]| <= |s| && r[0] == s[..|r[0]|]
  {
    if |s| == 0 then [""]
    else if |s| >= 2 && s[0] == '\r' && s[1] == '\n' then [""] + SplitCrLf(s[2..])
    else
      var rest := SplitCrLf(s[1..]);
      [[s[0]] + rest[0]] + rest[1..]
  }

  /** `string.Join(sep, segments)` */
  function Join(segments: seq<string>, sep: string): string
    requires |segments| >= 1
    decreases |segments|
  {
    if |segments| == 1 then segments[0]
    else segments[0] + sep + Join(segments[1..], sep)
  }

  /** Prepending a character to the first segment prepends it to the join. */
  lemma JoinPrepend(c: char, segments: seq<string>, sep: string)
    requires |segments| >= 1
    ensures Join([[c] + segments[0]] + segments[1..], sep) == [c] + Join(segments, sep)
  {
    var r := [[c] + segments[0]] + segments[1..];
    assert r[1..] == segments[1..];
    if |segments| > 1 {
      assert Join(r, sep) == [c] + segments[0] + sep + Join(segments[1..], sep);
    }
  }

  /** Splitting loses nothing: joining the pieces with CR LF rebuilds `s`. */
  lemma {:induction false} JoinSplit(s: string)
    ensures Join(SplitCrLf(s), "\r\n") == s
  {
    if |s| == 0 {
    } else if |s| >= 2 && s[0] == '\r' && s[1] == '\n' {
      JoinSplit(s[2..]);
      assert s == "\r\n" + s[2..];
    } else {
      JoinSplit(s[1..]);
      JoinPrepend(s[0], SplitCrLf(s[1..]), "\r\n");
      HeadTail(s);
    }
  }

  /** Dropping the first character keeps a string free of CR LF. */
  lemma TailClean(a: string)
    requires |a| > 0 && !HasCrLf(a)
    ensures !HasCrLf(a[1..])
  {
    var t := a[1..];
    forall i | 0 <= i < |t| - 1 ensures !(t[i] == '\r' && t[i + 1] == '\n') {
      assert t[i] == a[i + 1] && t[i + 1] == a[i + 2];
    }
  }

  /** No piece of a split contains CR LF. */
  lemma {:induction false} SplitPiecesClean(s: string)
    ensures forall k :: 0 <= k < |SplitCrLf(s)| ==> !HasCrLf(SplitCrLf(s)[k])
  {
    if |s| == 0 {
    } else if |s| >= 2 && s[0] == '\r' && s[1] == '\n' {
      SplitPiecesClean(s[2..]);
      var r := SplitCrLf(s);
      forall k | 0 <= k < |r| ensures !HasCrLf(r[k]) {
        if k > 0 { assert r[k] == SplitCrLf(s[2..])[k - 1]; }
      }
    } else {
      var rest := SplitCrLf(s[1..]);
      SplitPiecesClean(s[1..]);
      var r := SplitCrLf(s);
      var head := [s[0]] + rest[0];
      assert r[0] == head;
      assert !HasCrLf(head) by {
        forall i | 0 <= i < |head| - 1 ensures !(head[i] == '\r' && head[i + 1] == '\n') {
          if i == 0 {
            assert head[1] == rest[0][0] == s[1];
          } else {
            assert head[i] == rest[0][i - 1] && head[i + 1] == rest[0][i];
          }
        }
      }
      forall k | 0 <= k < |r| ensures !HasCrLf(r[k]) {
        if k > 0 { assert r[k] == rest[k]; }
      }
    }
  }

  /** A string without CR LF is one piece. */
  lemma {:induction false} SplitClean(a: string)
    requires !HasCrLf(a)
    ensures SplitCrLf(a) == [a]
  {
    if |a| > 0 {
      var t := a[1..];
      TailClean(a);
      SplitClean(t);
      if |a| >= 2 { assert !(a[0] == '\r' && a[1] == '\n'); }
      assert a == [a[0]] + t;
    }
  }

  /** A first piece without CR LF is split off at the first separator. */
  lemma {:induction false} SplitAtSeparator(a: string, t: string)
    requires !HasCrLf(a)
    ensures SplitCrLf(a + "\r\n" + t) == [a] + SplitCrLf(t)
  {
    var s := a + "\r\n" + t;
    if |a| == 0 {
      assert s == "\r\n" + t;
      assert s[2..] == t;
    } else {
      var a' := a[1..];
      TailClean(a);
      SplitAtSeparator(a', t);
      AppendAssoc(a, "\r\n", t);
      AppendAssoc(a', "\r\n", t);
      TailOfAppend(a, "\r\n" + t);
      if |a| >= 2 {
        assert !(a[0] == '\r' && a[1] == '\n');
        assert s[1] == a[1];
      } else {
        assert s[1] == '\r';
      }
      HeadTail(a);
    }
  }

  /** Splitting undoes joining pieces that contain no CR LF. */
  lemma {:induction false} SplitJoin(segments: seq<string>)
    requires |segments| >= 1
    requires forall k :: 0 <= k < |segments| ==> !HasCrLf(segments[k])
    ensures SplitCrLf(Join(segments, "\r\n")) == segments
  {
    if |segments| == 1 {
      SplitClean(segments[0]);
    } else {
      SplitJoin(segments[1..]);
      SplitAtSeparator(segments[0], Join(segments[1..], "\r\n"));
      HeadTail(segments);
    }
  }

  predicate IsDigit(c: char) { '0' as int <= c as int <= '9' as int }

  function DigitChar(d: nat): (c: char)
    requires d < 10
    ensures IsDigit(c)
  {
    ('0' as int + d) as char
  }

  /** The decimal digits of `n`, most significant first. */
  function NatToString(n: nat): (s: string)
    ensures |s| > 0 && forall i :: 0 <= i < |s| ==> IsDigit(s[i])
  {
    if n < 10 then [DigitChar(n)] else NatToString(n / 10) + [DigitChar(n % 10)]
  }

  /** `int.ToString()`: a minus sign for negative values, then the digits. */
  function IntToString(n: int): string
  {
    if n < 0 then "-" + NatToString(-n) else NatToString(n)
  }

  function DigitValue(c: char): int { c as int - '0' as int }

  /** The value of a run of decimal digits (only ever applied to digits). */
  function DigitsValue(s: string): int
  {
    if |s| == 0 then 0 else 10 * DigitsValue(s[..|s| - 1]) + DigitValue(s[|s| - 1])
  }

  lemma {:induction false} NatToStringValue(n: nat)
    ensures DigitsValue(NatToString(n)) == n
  {
    if n >= 10 {
      var s := NatToString(n);
      assert s[..|s| - 1] == NatToString(n / 10);
      NatToStringValue(n / 10);
    }
  }

  /** The white space `int.Parse` skips around a number: U+0009 to U+000D and the space. */
  predicate IsParseWhite(c: char) { c == ' ' || '\t' <= c <= '\r' }

  /** The end of the run of characters satisfying `p` that starts at `i`. */
  function SkipWhile(s: string, i: nat, p: char -> bool): (j: nat)
    requires i <= |s|
    decreases |s| - i
    ensures i <= j <= |s|
  {
    if i < |s| && p(s[i]) then SkipWhile(s, i + 1, p) else i
  }

  /** `SkipWhile` stops at the first character not satisfying `p`. */
  lemma {:induction false} SkipWhileRun(s: string, i: nat, p: char -> bool)
    requires i <= |s|
    ensures forall k :: i <= k < SkipWhile(s, i, p) ==> p(s[k])
    ensures SkipWhile(s, i, p) < |s| ==> !p(s[SkipWhile(s, i, p)])
    decreases |s| - i
  {
    if i < |s| && p(s[i]) {
      SkipWhileRun(s, i + 1, p);
    }
  }

  predicate AllNul(t: string) { forall i :: 0 <= i < |t| ==> t[i] == '\0' }

  /** `int.Parse` with the default integer style: optional white space, an
      optional `+` or `-`, at least one decimal digit, optional white space,
      then only NUL characters. Anything else is a format error; a value
      outside the `int` range is an overflow. */
  function ParseInt32(s: string): (r: Result<int>)
    ensures r.Ok? ==> IsInt32(r.value)
    ensures r.Err? ==> r.error == Format || r.error == Overflow
  {
    var i := SkipWhile(s, 0, IsParseWhite);
    var negative := i < |s| && s[i] == '-';
    var j := if i < |s| && (s[i] == '-' || s[i] == '+') then i + 1 else i;
    var k := SkipWhile(s, j, IsDigit);
    var m := SkipWhile(s, k, IsParseWhite);
    if k == j || !AllNul(s[m..]) then Err(Format)
    else
      var d: int := DigitsValue(s[j..k]);
      var v := if negative then -d else d;
      if IsInt32(v) then Ok(v) else Err(Overflow)
  }

  /** Parsing what `int.ToString()` printed gives the number back. */
  lemma ParseFormatRoundTrip(n: int)
    requires IsInt32(n)
    ensures ParseInt32(IntToString(n)) == Ok(n)
  {
    var t := IntToString(n);
    var i := SkipWhile(t, 0, IsParseWhite);
    assert !IsParseWhite(t[0]);
    assert i == 0;
    var j := if n < 0 then 1 else 0;
    assert forall q :: j <= q < |t| ==> IsDigit(t[q]);
    var k := SkipWhile(t, j, IsDigit);
    SkipWhileRun(t, j, IsDigit);
    assert k == |t|;
    var d := if n < 0 then -n else n;
    assert t[j..k] == NatToString(d);
    NatToStringValue(d);
    assert SkipWhile(t, k, IsParseWhite) == |t|;
    assert AllNul(t[|t|..]);
    assert (t[0] == '-' || t[0] == '+') <==> n < 0;
  }
}
