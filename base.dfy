/** Bytes, little-endian integers, C# integer wrap-around and the failure type
    shared by every component of the decompressor model. */
module Base {

  /** An element of a C# `byte[]`. */
  type byte = x: int | 0 <= x < 0x100

  /** The range of a C# `int`. */
  predicate IsInt32(x: int) { -0x8000_0000 <= x < 0x8000_0000 }

  /** Why a step throws in the source. The source lets every such exception
      travel up to the per-archive `catch`, so each one ends the archive. */
  datatype Error =
    | OutOfRange      // a range or an index outside the array, list or string
    | Format          // `int.Parse` of text that is not an integer
    | Overflow        // `int.Parse` of an integer outside the `int` range
    | FileUnreadable  // a file that cannot be opened or read
    | NoBlobFile      // no sibling blob file next to a descriptor

  datatype Result<+T> = Ok(value: T) | Err(error: Error) {
    predicate IsFailure() { Err? }
    function PropagateFailure<U>(): Result<U> requires Err? { Err(error) }
    function Extract(): T requires Ok? { value }
  }

  datatype Option<+T> = None | Some(value: T)

  /** A non-empty sequence is its head before its tail. */
  lemma HeadTail<T>(s: seq<T>)
    requires |s| > 0
    ensures s == [s[0]] + s[1..]
  {
  }

  lemma AppendAssoc<T>(a: seq<T>, b: seq<T>, c: seq<T>)
    ensures a + b + c == a + (b + c)
  {
  }

  /** A prefix `r` of a suffix `t` of `s` is a slice of `s`. */
  lemma PrefixOfSuffix<T>(s: seq<T>, t: seq<T>, r: seq<T>)
    requires |t| <= |s| && t == s[|s| - |t|..] && |r| <= |t| && r == t[..|r|]
    ensures forall k :: 0 <= k < |r| ==> r[k] == s[|s| - |t| + k]
    ensures forall k :: |s| - |t| <= k < |s| ==> s[k] == t[k - (|s| - |t|)]
  {
  }

  lemma WholePrefix<T>(s: seq<T>)
    ensures s[..|s|] == s
  {
  }

  lemma SliceOfSlice<T>(a: seq<T>, s: nat, e: nat, i: nat, j: nat)
    requires s <= e <= |a| && i <= j <= e - s
    ensures a[s..e][i..j] == a[s + i..s + j]
  {
    var x, y := a[s..e][i..j], a[s + i..s + j];
    forall k | 0 <= k < j - i
      ensures x[k] == y[k]
    {
      assert x[k] == a[s..e][i + k] == a[s + (i + k)];
    }
  }

  lemma WholeSuffix<T>(s: seq<T>)
    ensures s[0..] == s && [] + s == s
  {
  }

  lemma TailOfAppend<T>(a: seq<T>, b: seq<T>)
    requires |a| > 0
    ensures (a + b)[1..] == a[1..] + b
  {
  }

  function Pow256(n: nat): nat { if n == 0 then 1 else 256 * Pow256(n - 1) }

  lemma Pow256Values()
    ensures Pow256(1) == 0x100 && Pow256(2) == 0x1_0000
    ensures Pow256(4) == 0x1_0000_0000 && Pow256(8) == 0x1_0000_0000_0000_0000
  {
    assert Pow256(1) == 256 * Pow256(0);
    assert Pow256(2) == 256 * Pow256(1);
    assert Pow256(3) == 256 * Pow256(2);
    assert Pow256(4) == 256 * Pow256(3);
    assert Pow256(5) == 256 * Pow256(4);
    assert Pow256(6) == 256 * Pow256(5);
    assert Pow256(7) == 256 * Pow256(6);
    assert Pow256(8) == 256 * Pow256(7);
  }

  /** The unsigned little-endian value of a byte run (the byte order of
      `BitConverter` and `BinaryWriter` on the x86 hosts the tool runs on). */
  function LittleEndian(bs: seq<byte>): nat
  {
    if |bs| == 0 then 0 else bs[0] + 256 * LittleEndian(bs[1..])
  }

  lemma {:induction false} LittleEndianBound(bs: seq<byte>)
    ensures LittleEndian(bs) < Pow256(|bs|)
  {
    if |bs| > 0 { LittleEndianBound(bs[1..]); }
  }

  /** The `n` little-endian bytes of `x` modulo 256^n. */
  function LittleEndianBytes(x: nat, n: nat): (r: seq<byte>)
    ensures |r| == n
  {
    if n == 0 then [] else [x % 256] + LittleEndianBytes(x / 256, n - 1)
  }

  /** Encoding and then decoding a value that fits gives it back. */
  lemma {:induction false} LittleEndianRoundTrip(x: nat, n: nat)
    requires x < Pow256(n)
    ensures LittleEndian(LittleEndianBytes(x, n)) == x
  {
    if n > 0 {
      var r := LittleEndianBytes(x, n);
      assert r[1..] == LittleEndianBytes(x / 256, n - 1);
      LittleEndianRoundTrip(x / 256, n - 1);
    }
  }

  /** The unsigned value of the first `n` bytes; `BitConverter` reads only
      those, and every caller hands over exactly `n` of them. */
  function Unsigned(b: seq<byte>, n: nat): nat
  {
    if |b| < n then 0 else LittleEndian(b[..n])
  }

  /** `b[0]`, the conversion of a one-byte read. */
  function FirstByte(b: seq<byte>): byte { if |b| > 0 then b[0] else 0 }

  /** `BitConverter.ToInt16`: two's complement of the first two bytes. */
  function Int16Of(b: seq<byte>): int
  {
    var u := Unsigned(b, 2);
    if u < 0x8000 then u else u - 0x1_0000
  }

  /** `BitConverter.ToInt32`: two's complement of the first four bytes. */
  function Int32Of(b: seq<byte>): int
  {
    var u := Unsigned(b, 4);
    if u < 0x8000_0000 then u else u - 0x1_0000_0000
  }

  /** `BitConverter.ToUInt64` of the first eight bytes. */
  function UInt64Of(b: seq<byte>): nat { Unsigned(b, 8) }

  /** `BinaryWriter.Write(short)`: two's complement, little-endian. */
  function Int16Bytes(x: int): (r: seq<byte>) ensures |r| == 2 { LittleEndianBytes(x % 0x1_0000, 2) }

  /** `BinaryWriter.Write(int)`: two's complement, little-endian. */
  function Int32Bytes(x: int): (r: seq<byte>) ensures |r| == 4 { LittleEndianBytes(x % 0x1_0000_0000, 4) }

  /** the eight little-endian bytes of an unsigned 64-bit value */
  function UInt64Bytes(x: nat): (r: seq<byte>) ensures |r| == 8 { LittleEndianBytes(x, 8) }

  lemma Int16RoundTrip(x: int)
    requires -0x8000 <= x < 0x8000
    ensures |Int16Bytes(x)| == 2 && Int16Of(Int16Bytes(x)) == x
  {
    Pow256Values();
    var b := Int16Bytes(x);
    LittleEndianRoundTrip(x % 0x1_0000, 2);
    assert b[..2] == b;
  }

  lemma Int32RoundTrip(x: int)
    requires IsInt32(x)
    ensures |Int32Bytes(x)| == 4 && Int32Of(Int32Bytes(x)) == x
  {
    Pow256Values();
    var b := Int32Bytes(x);
    LittleEndianRoundTrip(x % 0x1_0000_0000, 4);
    assert b[..4] == b;
  }

  lemma UInt64RoundTrip(x: nat)
    requires x < 0x1_0000_0000_0000_0000
    ensures |UInt64Bytes(x)| == 8 && UInt64Of(UInt64Bytes(x)) == x
  {
    Pow256Values();
    var b := UInt64Bytes(x);
    LittleEndianRoundTrip(x, 8);
    assert b[..8] == b;
  }

  /** Unchecked C# `int` arithmetic: the value modulo 2^32, read as two's complement. */
  function Wrap32(x: int): (r: int)
    ensures IsInt32(r)
    ensures (r - x) % 0x1_0000_0000 == 0
    ensures IsInt32(x) ==> r == x
    ensures r == 0 <==> x % 0x1_0000_0000 == 0
  {
    var m := x % 0x1_0000_0000;
    if m < 0x8000_0000 then m else m - 0x1_0000_0000
  }

  /** One character of `Encoding.ASCII.GetString`: bytes above 0x7F become `?`. */
  function AsciiChar(b: byte): char
  {
    if b < 0x80 then b as char else '?'
  }

  /** `Encoding.ASCII.GetString`, one character per byte. */
  function AsciiString(bs: seq<byte>): (s: string)
    ensures |s| == |bs|
    ensures forall i :: 0 <= i < |bs| ==> s[i] == AsciiChar(bs[i])
  {
    seq(|bs|, i requires 0 <= i < |bs| => AsciiChar(bs[i]))
  }

  /** Decoding a slice is slicing the decoding. */
  lemma AsciiSlice(bs: seq<byte>, i: nat, j: nat)
    requires i <= j <= |bs|
    ensures AsciiString(bs[i..j]) == AsciiString(bs)[i..j]
  {
    assert forall k :: 0 <= k < j - i ==> AsciiString(bs[i..j])[k] == AsciiString(bs)[i..j][k];
  }

  /** `Encoding.ASCII.GetBytes`: characters outside ASCII become `?` (0x3F). */
  function AsciiBytes(s: string): (bs: seq<byte>)
    ensures |bs| == |s|
  {
    seq(|s|, i requires 0 <= i < |s| => if s[i] as int < 0x80 then s[i] as int else 0x3F)
  }

  predicate IsAscii(s: string) { forall i :: 0 <= i < |s| ==> s[i] as int < 0x80 }

  /** Decoding the ASCII encoding of an ASCII string gives it back. */
  lemma AsciiRoundTrip(s: string)
    requires IsAscii(s)
    ensures AsciiString(AsciiBytes(s)) == s
  {
    var t := AsciiString(AsciiBytes(s));
    forall i | 0 <= i < |s| ensures t[i] == s[i] { }
  }

  lemma AsciiStringAppend(a: seq<byte>, b: seq<byte>)
    ensures AsciiString(a + b) == AsciiString(a) + AsciiString(b)
  {
    var l, r := AsciiString(a + b), AsciiString(a) + AsciiString(b);
    forall i | 0 <= i < |a| + |b| ensures l[i] == r[i] {
      if i < |a| { assert (a + b)[i] == a[i]; } else { assert (a + b)[i] == b[i - |a|]; }
    }
  }
}
