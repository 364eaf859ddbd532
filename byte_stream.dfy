/**
 * The positioned byte source that the decoder reads from: the contents of
 * the opened IDX file and a read position, as a FileStream gives them.
 *
 * Each read consumes exactly the bytes its value needs and advances the
 * position by that many, or reports `Truncated` when fewer remain; after a
 * short read the position is not specified, since the decoder never reads
 * again after one. `Seek` may move past the end of the data, as a FileStream
 * allows; the read after it is then short.
 */
module ByteStreams {
  import opened Primitives

  class ByteStream {
    /** The file's bytes; the decoder never writes to the file. */
    const data: seq<byte>
    /** The read position, as an absolute byte offset. */
    var pos: nat

    constructor (contents: seq<byte>)
      ensures data == contents && pos == 0
    {
      data := contents;
      pos := 0;
    }

    /** Moves to an absolute offset (SeekOrigin.Begin). */
    method Seek(offset: nat)
      modifies this
      ensures pos == offset
    {
      pos := offset;
    }

    method ReadBool() returns (r: Read<bool>)
      modifies this
      ensures r.Got? <==> old(pos) + 1 <= |data|
      ensures r.Got? ==> r.value == BoolAt(data, old(pos)) && pos == old(pos) + 1
    {
      if pos + 1 <= |data| {
        r := Got(BoolAt(data, pos));
        pos := pos + 1;
      } else {
        r := Truncated;
      }
    }

    method ReadByte() returns (r: Read<byte>)
      modifies this
      ensures r.Got? <==> old(pos) + 1 <= |data|
      ensures r.Got? ==> r.value == data[old(pos)] && pos == old(pos) + 1
    {
      if pos + 1 <= |data| {
        r := Got(data[pos]);
        pos := pos + 1;
      } else {
        r := Truncated;
      }
    }

    method ReadUInt16() returns (r: Read<nat>)
      modifies this
      ensures r.Got? <==> old(pos) + 2 <= |data|
      ensures r.Got? ==> r.value == UInt16At(data, old(pos)) && pos == old(pos) + 2
    {
      if pos + 2 <= |data| {
        r := Got(UInt16At(data, pos));
        pos := pos + 2;
      } else {
        r := Truncated;
      }
    }

    method ReadInt32() returns (r: Read<int>)
      modifies this
      ensures r.Got? <==> old(pos) + 4 <= |data|
      ensures r.Got? ==> r.value == Int32At(data, old(pos)) && pos == old(pos) + 4
    {
      if pos + 4 <= |data| {
        r := Got(Int32At(data, pos));
        pos := pos + 4;
      } else {
        r := Truncated;
      }
    }

    /** A big-endian int64 of milliseconds since the Unix epoch. */
    method ReadJavaEpoch() returns (r: Read<Timestamp>)
      modifies this
      ensures r.Got? <==> old(pos) + 8 <= |data|
      ensures r.Got? ==> r.value == JavaMillis(Int64At(data, old(pos))) && pos == old(pos) + 8
    {
      if pos + 8 <= |data| {
        r := Got(JavaMillis(Int64At(data, pos)));
        pos := pos + 8;
      } else {
        r := Truncated;
      }
    }

    /** A string of exactly `length` bytes. */
    method ReadString(length: nat) returns (r: Read<Text>)
      modifies this
      ensures r.Got? <==> old(pos) + length <= |data|
      ensures r.Got? ==> r.value == TextAt(data, old(pos), length) && pos == old(pos) + length
    {
      if pos + length <= |data| {
        r := Got(TextAt(data, pos, length));
        pos := pos + length;
      } else {
        r := Truncated;
      }
    }

    /** A 16-bit length read with ReadUInt16, then a string of that many bytes. */
    method ReadPrefixedString() returns (r: Read<Text>)
      modifies this
      ensures r.Got? <==> PrefixedTextAt(data, old(pos)).Some?
      ensures r.Got? ==> (r.value, pos) == PrefixedTextAt(data, old(pos)).value
    {
      var length := ReadUInt16();
      if length.Truncated? {
        return Truncated;
      }
      r := ReadString(length.value);
    }
  }
}
