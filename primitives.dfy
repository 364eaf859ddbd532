/**
 * Big-endian primitive values of the IDX cache-entry format.
 *
 * The original program reads these through an external helper library
 * (StreamReaderHelper), whose code is not part of this model. Its behaviour
 * is written down here as it is used: every multi-byte integer is big-endian,
 * signed integers are two's complement, a boolean is one byte that is true
 * when non-zero, and a string of n bytes decodes to n characters, one per
 * byte (Latin-1). A timestamp is kept as the signed 64-bit count of
 * milliseconds since the Unix epoch that the file stores.
 */
module Primitives {

  /** One byte of the input file. */
  type byte = b: int | 0 <= b < 0x100

  /** Text decoded from the file, one character per byte. */
  type Text = seq<char>

  /** A value that may be missing; `None` also stands for a C# `null` string. */
  datatype Option<+T> = None | Some(value: T)

  /** What a stream read yields: the value, or the end of the input came first. */
  datatype Read<+T> = Got(value: T) | Truncated {
    predicate IsFailure() { Truncated? }

    function PropagateFailure(): Outcome
      requires Truncated?
    {
      Fail
    }

    function Extract(): T
      requires Got?
    {
      value
    }
  }

  /** Whether a block of reads ran to its end (`Pass`) or hit a short read (`Fail`). */
  datatype Outcome = Pass | Fail {
    predicate IsFailure() { Fail? }

    function PropagateFailure(): Outcome
      requires Fail?
    {
      Fail
    }
  }

  /**
   * A timestamp field of the entry. `Unset` is the value the field holds
   * before any read assigns it (C#'s default DateTime); `JavaMillis` holds the
   * raw milliseconds read from the file.
   */
  datatype Timestamp = Unset | JavaMillis(millis: int)

  const TwoTo16: int := 0x1_0000
  const TwoTo31: int := 0x8000_0000
  const TwoTo32: int := 0x1_0000_0000
  const TwoTo63: int := 0x8000_0000_0000_0000
  const TwoTo64: int := 0x1_0000_0000_0000_0000

  predicate IsInt32(v: int) { -TwoTo31 <= v < TwoTo31 }
  predicate IsInt64(v: int) { -TwoTo63 <= v < TwoTo63 }

  // ---------------------------------------------------------------------------
  // Decoding at an absolute offset

  function BoolAt(data: seq<byte>, o: nat): bool
    requires o < |data|
  {
    data[o] != 0
  }

  function UInt16At(data: seq<byte>, o: nat): (v: int)
    requires o + 2 <= |data|
    ensures 0 <= v < TwoTo16
  {
    (data[o] as int) * 0x100 + data[o + 1]
  }

  function UInt32At(data: seq<byte>, o: nat): (v: int)
    requires o + 4 <= |data|
    ensures 0 <= v < TwoTo32
  {
    UInt16At(data, o) * TwoTo16 + UInt16At(data, o + 2)
  }

  function UInt64At(data: seq<byte>, o: nat): (v: int)
    requires o + 8 <= |data|
    ensures 0 <= v < TwoTo64
  {
    UInt32At(data, o) * TwoTo32 + UInt32At(data, o + 4)
  }

  /** The two's-complement reading of a 32-bit pattern. */
  function Signed32(u: int): (v: int)
    requires 0 <= u < TwoTo32
    ensures IsInt32(v) && v % TwoTo32 == u
  {
    if u < TwoTo31 then u else u - TwoTo32
  }

  /** The two's-complement reading of a 64-bit pattern. */
  function Signed64(u: int): (v: int)
    requires 0 <= u < TwoTo64
    ensures IsInt64(v) && v % TwoTo64 == u
  {
    if u < TwoTo63 then u else u - TwoTo64
  }

  function Int32At(data: seq<byte>, o: nat): (v: int)
    requires o + 4 <= |data|
    ensures IsInt32(v)
  {
    Signed32(UInt32At(data, o))
  }

  function Int64At(data: seq<byte>, o: nat): (v: int)
    requires o + 8 <= |data|
    ensures IsInt64(v)
  {
    Signed64(UInt64At(data, o))
  }

  /** Bytes decoded as text, one character per byte, nothing lost. */
  function Latin1(bs: seq<byte>): (t: Text)
    ensures |t| == |bs|
    ensures forall i :: 0 <= i < |bs| ==> t[i] as int == bs[i]
  {
    if bs == [] then [] else [bs[0] as char] + Latin1(bs[1..])
  }

  function TextAt(data: seq<byte>, o: nat, n: nat): (t: Text)
    requires o + n <= |data|
    ensures |t| == n
  {
    Latin1(data[o..o + n])
  }

  /**
   * A string stored as a 16-bit big-endian length and that many bytes, read at
   * `o`: the text and the offset just past it, or None when the input ends first.
   */
  function PrefixedTextAt(data: seq<byte>, o: nat): (r: Option<(Text, nat)>)
    ensures r.Some? ==> o + 2 + |r.value.0| == r.value.1 <= |data|
  {
    if o + 2 > |data| then None
    else
      var n := UInt16At(data, o);
      if o + 2 + n > |data| then None
      else Some((TextAt(data, o + 2, n), o + 2 + n))
  }

  // ---------------------------------------------------------------------------
  // Encoding: the inverse of the readers above, used to state round trips

  predicate IsLatin1(t: Text) { forall i :: 0 <= i < |t| ==> t[i] as int < 0x100 }

  function EncodeBool(b: bool): (bs: seq<byte>)
    ensures |bs| == 1
  {
    [if b then 1 else 0]
  }

  function EncodeUInt16(v: int): (bs: seq<byte>)
    requires 0 <= v < TwoTo16
    ensures |bs| == 2
  {
    [v / 0x100, v % 0x100]
  }

  function EncodeUInt32(u: int): (bs: seq<byte>)
    requires 0 <= u < TwoTo32
    ensures |bs| == 4
  {
    EncodeUInt16(u / TwoTo16) + EncodeUInt16(u % TwoTo16)
  }

  function EncodeInt32(v: int): (bs: seq<byte>)
    requires IsInt32(v)
    ensures |bs| == 4
  {
    EncodeUInt32(v % TwoTo32)
  }

  function EncodeInt64(v: int): (bs: seq<byte>)
    requires IsInt64(v)
    ensures |bs| == 8
  {
    var u := v % TwoTo64;
    EncodeUInt32(u / TwoTo32) + EncodeUInt32(u % TwoTo32)
  }

  function EncodeLatin1(t: Text): (bs: seq<byte>)
    requires IsLatin1(t)
    ensures |bs| == |t|
    ensures forall i :: 0 <= i < |t| ==> bs[i] == t[i] as int
  {
    if t == [] then [] else [t[0] as int] + EncodeLatin1(t[1..])
  }

  /** A string as the format stores it: its length as a 16-bit big-endian count, then its bytes. */
  function EncodePrefixed(t: Text): (bs: seq<byte>)
    requires IsLatin1(t) && |t| < TwoTo16
    ensures |bs| == 2 + |t|
  {
    EncodeUInt16(|t|) + EncodeLatin1(t)
  }

  // ---------------------------------------------------------------------------
  // Round trips: a value written at any position reads back unchanged

  lemma UInt16RoundTrip(pre: seq<byte>, v: int, post: seq<byte>)
    requires 0 <= v < TwoTo16
    ensures UInt16At(pre + EncodeUInt16(v) + post, |pre|) == v
  {
    var d := pre + EncodeUInt16(v) + post;
    assert d[|pre|] == v / 0x100 && d[|pre| + 1] == v % 0x100;
  }

  lemma UInt32RoundTrip(pre: seq<byte>, u: int, post: seq<byte>)
    requires 0 <= u < TwoTo32
    ensures UInt32At(pre + EncodeUInt32(u) + post, |pre|) == u
  {
    var hi, lo := u / TwoTo16, u % TwoTo16;
    var d := pre + EncodeUInt32(u) + post;
    assert d == pre + EncodeUInt16(hi) + (EncodeUInt16(lo) + post);
    UInt16RoundTrip(pre, hi, EncodeUInt16(lo) + post);
    assert d == (pre + EncodeUInt16(hi)) + EncodeUInt16(lo) + post;
    UInt16RoundTrip(pre + EncodeUInt16(hi), lo, post);
  }

  lemma Int32RoundTrip(pre: seq<byte>, v: int, post: seq<byte>)
    requires IsInt32(v)
    ensures Int32At(pre + EncodeInt32(v) + post, |pre|) == v
  {
    UInt32RoundTrip(pre, v % TwoTo32, post);
  }

  lemma Int64RoundTrip(pre: seq<byte>, v: int, post: seq<byte>)
    requires IsInt64(v)
    ensures Int64At(pre + EncodeInt64(v) + post, |pre|) == v
  {
    var u := v % TwoTo64;
    var hi, lo := u / TwoTo32, u % TwoTo32;
    var d := pre + EncodeInt64(v) + post;
    assert d == pre + EncodeUInt32(hi) + (EncodeUInt32(lo) + post);
    UInt32RoundTrip(pre, hi, EncodeUInt32(lo) + post);
    assert d == (pre + EncodeUInt32(hi)) + EncodeUInt32(lo) + post;
    UInt32RoundTrip(pre + EncodeUInt32(hi), lo, post);
  }

  lemma TextRoundTrip(pre: seq<byte>, t: Text, post: seq<byte>)
    requires IsLatin1(t)
    ensures TextAt(pre + EncodeLatin1(t) + post, |pre|, |t|) == t
  {
    var d := pre + EncodeLatin1(t) + post;
    assert d[|pre|..|pre| + |t|] == EncodeLatin1(t);
    var back := Latin1(EncodeLatin1(t));
    assert forall i :: 0 <= i < |t| ==> back[i] == t[i];
  }

  lemma PrefixedTextRoundTrip(pre: seq<byte>, t: Text, post: seq<byte>)
    requires IsLatin1(t) && |t| < TwoTo16
    ensures PrefixedTextAt(pre + EncodePrefixed(t) + post, |pre|) == Some((t, |pre| + 2 + |t|))
  {
    var d := pre + EncodePrefixed(t) + post;
    assert d == pre + EncodeUInt16(|t|) + (EncodeLatin1(t) + post);
    UInt16RoundTrip(pre, |t|, EncodeLatin1(t) + post);
    assert d == (pre + EncodeUInt16(|t|)) + EncodeLatin1(t) + post;
    TextRoundTrip(pre + EncodeUInt16(|t|), t, post);
  }

  /** The other direction: four bytes read as an int32 and written back are the same bytes. */
  lemma Int32Encodes(data: seq<byte>, o: nat)
    requires o + 4 <= |data|
    ensures EncodeInt32(Int32At(data, o)) == data[o..o + 4]
  {
    var u := UInt32At(data, o);
    assert Int32At(data, o) % TwoTo32 == u;
    assert u / TwoTo16 == UInt16At(data, o);
    assert u % TwoTo16 == UInt16At(data, o + 2);
  }

  // ---------------------------------------------------------------------------
  // Locality: a value depends only on the bytes it is read from

  /**
   * `data` from `b` and `other` from `b'` hold the same `len` bytes, or, when
   * either input ends sooner, both end at the same distance and agree up to
   * there.
   */
  predicate SameBytes(data: seq<byte>, b: nat, other: seq<byte>, b': nat, len: nat) {
    if b + len <= |data| && b' + len <= |other| then data[b..b + len] == other[b'..b' + len]
    else |data| - b == |other| - b' && (b <= |data| ==> data[b..] == other[b'..])
  }

  lemma SliceOfSlice(s: seq<byte>, i: nat, j: nat, k: nat, w: nat)
    requires i <= j <= |s| && k + w <= j - i
    ensures s[i..j][k..k + w] == s[i + k..i + k + w]
  {
    var inner, direct := s[i..j][k..k + w], s[i + k..i + k + w];
    forall t | 0 <= t < w
      ensures inner[t] == direct[t]
    {
    }
  }

  lemma SameBytesWithin(data: seq<byte>, b: nat, other: seq<byte>, b': nat, len: nat, k: nat, w: nat)
    requires SameBytes(data, b, other, b', len) && k + w <= len
    ensures SameBytes(data, b + k, other, b' + k, w)
  {
    if b + len <= |data| && b' + len <= |other| {
      SliceOfSlice(data, b, b + len, k, w);
      SliceOfSlice(other, b', b' + len, k, w);
    } else if b + k + w <= |data| {
      SliceOfSlice(data, b, |data|, k, w);
      SliceOfSlice(other, b', |other|, k, w);
    } else if b + k <= |data| {
      SliceOfSlice(data, b, |data|, k, |data| - b - k);
      SliceOfSlice(other, b', |other|, k, |other| - b' - k);
      assert data[b..][k..] == data[b..][k..|data| - b];
      assert other[b'..][k..] == other[b'..][k..|other| - b'];
    }
  }

  lemma UInt16AtSame(data: seq<byte>, o: nat, other: seq<byte>, o': nat)
    requires o + 2 <= |data| && o' + 2 <= |other| && data[o..o + 2] == other[o'..o' + 2]
    ensures UInt16At(data, o) == UInt16At(other, o')
  {
    assert data[o] == data[o..o + 2][0] && data[o + 1] == data[o..o + 2][1];
    assert other[o'] == other[o'..o' + 2][0] && other[o' + 1] == other[o'..o' + 2][1];
  }

  lemma UInt32AtSame(data: seq<byte>, o: nat, other: seq<byte>, o': nat)
    requires o + 4 <= |data| && o' + 4 <= |other| && data[o..o + 4] == other[o'..o' + 4]
    ensures UInt32At(data, o) == UInt32At(other, o')
  {
    assert data[o..o + 2] == data[o..o + 4][..2] && other[o'..o' + 2] == other[o'..o' + 4][..2];
    assert data[o + 2..o + 4] == data[o..o + 4][2..] && other[o' + 2..o' + 4] == other[o'..o' + 4][2..];
    UInt16AtSame(data, o, other, o');
    UInt16AtSame(data, o + 2, other, o' + 2);
  }

  lemma UInt64AtSame(data: seq<byte>, o: nat, other: seq<byte>, o': nat)
    requires o + 8 <= |data| && o' + 8 <= |other| && data[o..o + 8] == other[o'..o' + 8]
    ensures UInt64At(data, o) == UInt64At(other, o')
  {
    assert data[o..o + 4] == data[o..o + 8][..4] && other[o'..o' + 4] == other[o'..o' + 8][..4];
    assert data[o + 4..o + 8] == data[o..o + 8][4..] && other[o' + 4..o' + 8] == other[o'..o' + 8][4..];
    UInt32AtSame(data, o, other, o');
    UInt32AtSame(data, o + 4, other, o' + 4);
  }

  /** The same bytes give the same text. */
  lemma TextAtSame(data: seq<byte>, o: nat, other: seq<byte>, o': nat, n: nat)
    requires o + n <= |data| && o' + n <= |other| && data[o..o + n] == other[o'..o' + n]
    ensures TextAt(data, o, n) == TextAt(other, o', n)
  {
  }
}
