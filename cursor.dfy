/** The byte cursor: a buffer and a position threaded through pure reads
    that return the advanced position with the value read. */
module Cursor {
  import opened Base

  /** `ReadBytes`: the `size` bytes at `position` and the position after
      them. A C# range outside the array throws. The buffer is a value, so
      it is never modified. */
  function ReadBytes(arr: seq<byte>, position: int, size: int): (r: Result<(int, seq<byte>)>)
    ensures r.Ok? <==> 0 <= position && 0 <= size && position + size <= |arr|
    ensures r.Err? ==> r.error == OutOfRange
    ensures r.Ok? ==> (r.value.0 == position + size && |r.value.1| == size
                       && forall i :: 0 <= i < size ==> r.value.1[i] == arr[position + i])
  {
    if 0 <= position && 0 <= size && position + size <= |arr| then
      Ok((position + size, arr[position..position + size]))
    else
      Err(OutOfRange)
  }

  /** `ProcessBytes`: the conversion of the `size` bytes at `position`, and the position after them. */
  function ProcessBytes<T>(arr: seq<byte>, position: int, size: int, convert: seq<byte> -> T): (r: Result<(int, T)>)
    ensures r.Ok? <==> 0 <= position && 0 <= size && position + size <= |arr|
    ensures r.Err? ==> r.error == OutOfRange
    ensures r.Ok? ==> (r.value.0 == position + size
                       && r.value.1 == convert(arr[position..position + size]))
  {
    if 0 <= position && 0 <= size && position + size <= |arr| then
      Ok((position + size, convert(arr[position..position + size])))
    else
      Err(OutOfRange)
  }

  /** A slice of a run found at `p` is the same slice shifted by `p`. */
  lemma SliceOfRun(b: seq<byte>, p: nat, e: seq<byte>, x: nat, y: nat)
    requires p + |e| <= |b| && b[p..p + |e|] == e && x <= y <= |e|
    ensures b[p + x..p + y] == e[x..y]
  {
    forall i | 0 <= i < y - x ensures b[p + x..p + y][i] == e[x..y][i] {
      assert b[p + x..p + y][i] == b[p + x + i] == b[p..p + |e|][x + i];
    }
  }

  /** The middle piece of a concatenation is where its length says. */
  lemma PieceAt<T>(x: seq<T>, piece: seq<T>, y: seq<T>)
    ensures (x + piece + y)[|x|..|x| + |piece|] == piece
  {
    var t := x + piece + y;
    forall i | 0 <= i < |piece| ensures t[|x|..|x| + |piece|][i] == piece[i] {
      assert t[|x|..|x| + |piece|][i] == t[|x| + i];
    }
  }
}
