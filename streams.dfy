/** The two streams the WAV writers use: a `FileStream` opened on the raw
    temporary file and read through a buffer, and the output file written
    through a `BinaryWriter`; and `CopyStream`, which pumps one into the
    other. */
module Streams {
  import opened Base

  /** A file opened for reading: its bytes and the read position. */
  class InStream {
    const data: seq<byte>
    var pos: nat

    constructor (data: seq<byte>)
      ensures this.data == data && pos == 0
    {
      this.data := data;
      pos := 0;
    }

    predicate Valid()
      reads this
    {
      pos <= |data|
    }

    /** The bytes not read yet. */
    function Remaining(): (r: seq<byte>)
      reads this
      requires Valid()
      ensures |r| == |data| - pos
    {
      data[pos..]
    }

    /** `Stream.Read(buffer, 0, count)` of a file: the next `count` bytes,
        or all that are left when fewer remain; 0 only at the end. */
    method Read(buffer: array<byte>, count: nat) returns (n: nat)
      requires Valid() && count <= buffer.Length
      modifies this, buffer
      ensures Valid()
      ensures n == if count < |old(Remaining())| then count else |old(Remaining())|
      ensures buffer[..n] == old(Remaining())[..n]
      ensures Remaining() == old(Remaining())[n..]
    {
      n := if count < |data| - pos then count else |data| - pos;
      var i := 0;
      while i < n
        invariant i <= n && pos == old(pos) && n <= |data| - pos
        invariant forall k :: 0 <= k < i ==> buffer[k] == data[pos + k]
      {
        buffer[i] := data[pos + i];
        i := i + 1;
      }
      pos := pos + n;
    }
  }

  /** A file opened for writing: the bytes written so far. */
  class OutStream {
    var bytes: seq<byte>

    constructor ()
      ensures bytes == []
    {
      bytes := [];
    }

    /** `Stream.Write(buffer, 0, count)` */
    method Write(buffer: array<byte>, count: nat)
      requires count <= buffer.Length
      modifies this
      ensures bytes == old(bytes) + buffer[..count]
    {
      bytes := bytes + buffer[..count];
    }

    /** `BinaryWriter.Write(byte[])` */
    method WriteBytes(b: seq<byte>)
      modifies this
      ensures bytes == old(bytes) + b
    {
      bytes := bytes + b;
    }

    /** `BinaryWriter.Write(int)`: four bytes, least significant first. */
    method WriteInt32(v: int)
      requires IsInt32(v)
      modifies this
      ensures bytes == old(bytes) + Int32Bytes(v)
    {
      bytes := bytes + Int32Bytes(v);
    }

    /** `BinaryWriter.Write(short)`: two bytes, least significant first. */
    method WriteInt16(v: int)
      requires -0x8000 <= v < 0x8000
      modifies this
      ensures bytes == old(bytes) + Int16Bytes(v)
    {
      bytes := bytes + Int16Bytes(v);
    }
  }

  /** The buffer size of both `CopyStream`s: `0x2000` and `8 * 1024`. */
  const CopyBufferSize: nat := 0x2000

  /** `CopyStream`: read into the buffer until a read returns 0, writing
      each read's bytes after the previous ones. Every remaining byte of
      the input is appended to the output, in order. */
  method CopyStream(input: InStream, output: OutStream, bufferSize: nat)
    requires input.Valid() && bufferSize > 0
    modifies input, output
    ensures input.Valid() && input.Remaining() == []
    ensures output.bytes == old(output.bytes) + old(input.Remaining())
  {
    var buffer := new byte[bufferSize];
    while true
      invariant input.Valid()
      invariant output.bytes + input.Remaining() == old(output.bytes) + old(input.Remaining())
      decreases |input.Remaining()|
    {
      ghost var before := input.Remaining();
      var len := input.Read(buffer, buffer.Length);
      if len == 0 {
        break;
      }
      assert before == buffer[..len] + input.Remaining();
      AppendAssoc(output.bytes, buffer[..len], input.Remaining());
      output.Write(buffer, len);
    }
  }

  /** Copying a whole file into a fresh output yields exactly its bytes. */
  method CopyAll(data: seq<byte>) returns (copied: seq<byte>)
    ensures copied == data
  {
    var input := new InStream(data);
    var output := new OutStream();
    CopyStream(input, output, CopyBufferSize);
    copied := output.bytes;
  }
}
