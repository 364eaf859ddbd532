/**
 * The two header decoders as list transformations: what the standard decoder
 * and the version-602 decoder append for the pairs they read, proved against
 * an encoder for the stored pairs and against reference counts.
 */
module HeaderLists {
  import opened Primitives
  import opened IdxFormat
  import opened Locality

  // ---------------------------------------------------------------------------
  // The standard decoder

  /**
   * ReadHeaders appends one header per pair, in read order: a pair named
   * `<null>` becomes a header with an empty name, every other pair is kept
   * as read, and every value is kept.
   */
  lemma {:induction false} StandardHeadersPointwise(ps: seq<NameValue>)
    ensures |StandardHeaders(ps)| == |ps|
    ensures forall i :: 0 <= i < |ps| ==> StandardHeaders(ps)[i].value == ps[i].value
    ensures forall i :: 0 <= i < |ps| ==>
              StandardHeaders(ps)[i].name == if ps[i].name == NullName then "" else ps[i].name
  {
    if ps != [] {
      StandardHeadersPointwise(ps[..|ps| - 1]);
    }
  }

  /** The standard headers of two runs of pairs read one after the other. */
  lemma {:induction false} StandardHeadersConcat(a: seq<NameValue>, b: seq<NameValue>)
    ensures StandardHeaders(a + b) == StandardHeaders(a) + StandardHeaders(b)
  {
    StandardHeadersPointwise(a + b);
    StandardHeadersPointwise(a);
    StandardHeadersPointwise(b);
  }

  // ---------------------------------------------------------------------------
  // The version-602 decoder

  /** How many pairs in `ps` carry the name `name`. */
  function CountNamed(ps: seq<NameValue>, name: Text): (n: nat)
    ensures n <= |ps|
  {
    if ps == [] then 0
    else CountNamed(ps[..|ps| - 1], name) + if ps[|ps| - 1].name == name then 1 else 0
  }

  /**
   * ReadHeaders602 appends every pair not named for the codebase IP, and
   * only those: no header it appends carries that name, and the number of
   * headers is the number of pairs less the number of diverted ones.
   */
  lemma {:induction false} VisibleHeadersFilter(ps: seq<NameValue>)
    ensures |VisibleHeaders(ps)| == |ps| - CountNamed(ps, CodebaseIpName)
    ensures forall h :: h in VisibleHeaders(ps) ==> h in ps && h.name != CodebaseIpName
    ensures forall h :: h in ps && h.name != CodebaseIpName ==> h in VisibleHeaders(ps)
  {
    if ps != [] {
      var init := ps[..|ps| - 1];
      VisibleHeadersFilter(init);
      assert ps == init + [ps[|ps| - 1]];
    }
  }

  /** The version-602 headers of two runs read one after the other: order is kept. */
  lemma {:induction false} VisibleHeadersConcat(a: seq<NameValue>, b: seq<NameValue>)
    ensures VisibleHeaders(a + b) == VisibleHeaders(a) + VisibleHeaders(b)
    decreases |b|
  {
    if b == [] {
      assert a + b == a;
    } else {
      var init := b[..|b| - 1];
      var last := b[|b| - 1];
      assert (a + b)[..|a + b| - 1] == a + init;
      assert (a + b)[|a + b| - 1] == last;
      VisibleHeadersConcat(a, init);
      var tail := if last.name == CodebaseIpName then [] else [last];
      assert VisibleHeaders(a) + VisibleHeaders(init) + tail == VisibleHeaders(a) + (VisibleHeaders(init) + tail);
    }
  }

  /** With no pair named for the codebase IP, ReadHeaders602 leaves the codebase IP as it was. */
  lemma {:induction false} CodebaseIpKept(ps: seq<NameValue>, prior: Option<Text>)
    requires forall i :: 0 <= i < |ps| ==> ps[i].name != CodebaseIpName
    ensures LastCodebaseIp(ps, prior) == prior
  {
    if ps != [] {
      CodebaseIpKept(ps[..|ps| - 1], prior);
    }
  }

  /** The codebase IP after ReadHeaders602 is the value of the last pair named for it. */
  lemma {:induction false} LastCodebaseIpWins(ps: seq<NameValue>, prior: Option<Text>, i: nat)
    requires i < |ps| && ps[i].name == CodebaseIpName
    requires forall j :: i < j < |ps| ==> ps[j].name != CodebaseIpName
    ensures LastCodebaseIp(ps, prior) == Some(ps[i].value)
  {
    if i < |ps| - 1 {
      var init := ps[..|ps| - 1];
      assert init[i] == ps[i];
      LastCodebaseIpWins(init, prior, i);
    }
  }

  // ---------------------------------------------------------------------------
  // Counts

  /**
   * A header list whose count is not positive appends nothing and keeps the
   * error flag; one read without an error appends exactly `count` headers in
   * the standard decoder, and `count` less the diverted pairs in the
   * version-602 decoder, after the headers already there.
   */
  lemma HeaderListCounts(data: seq<byte>, p: nat, e: Entry)
    requires p + 4 <= |data|
    ensures Int32At(data, p) <= 0 ==> StandardHeaderList(data, p, e) == e && LegacyHeaderList(data, p, e) == e
    ensures var r := StandardHeaderList(data, p, e);
      !r.error ==> (|r.headers| == |e.headers| + (if Int32At(data, p) > 0 then Int32At(data, p) else 0)
                    && r.headers[..|e.headers|] == e.headers)
    ensures var r := LegacyHeaderList(data, p, e);
      !r.error ==> (|r.headers| + CountNamed(ReadPairs(data, p + 4, Int32At(data, p)).pairs, CodebaseIpName)
                      == |e.headers| + (if Int32At(data, p) > 0 then Int32At(data, p) else 0)
                    && r.headers[..|e.headers|] == e.headers)
  {
    var run := ReadPairs(data, p + 4, Int32At(data, p));
    StandardHeadersPointwise(run.pairs);
    VisibleHeadersFilter(run.pairs);
    assert e.headers + [] == e.headers;
    assert (e.headers + StandardHeaders(run.pairs))[..|e.headers|] == e.headers;
    assert (e.headers + VisibleHeaders(run.pairs))[..|e.headers|] == e.headers;
  }

  // ---------------------------------------------------------------------------
  // Truncated input: the pairs read before a failure stay

  /**
   * Reading pairs from a truncated copy of the input yields a prefix of what
   * the whole input yields, and all of it when the truncated read completes.
   */
  lemma {:induction false} ReadPairsTruncated(data: seq<byte>, k: nat, p: nat, n: int)
    requires k <= |data|
    ensures ReadPairs(data[..k], p, n).pairs <= ReadPairs(data, p, n).pairs
    ensures ReadPairs(data[..k], p, n).complete ==> ReadPairs(data[..k], p, n) == ReadPairs(data, p, n)
    decreases if n > 0 then n else 0
  {
    if n > 0 {
      var cut := data[..k];
      assert Covers(cut, data, 0) by {
        assert cut[0..] == cut && data[0..|cut|] == cut;
      }
      assert ReadPairs(cut, p, n) == PairsFrom(cut, p, n);
      assert ReadPairs(data, p, n) == PairsFrom(data, p, n);
      ReadPairCovered(cut, data, 0, p);
      match ReadPair(cut, p)
      case None =>
      case Some((nv, q)) =>
        ReadPairsTruncated(data, k, q, n - 1);
    }
  }

  lemma AppendedPrefix(h: seq<NameValue>, short: seq<NameValue>, full: seq<NameValue>)
    requires short <= full
    ensures h + StandardHeaders(short) <= h + StandardHeaders(full)
  {
    assert full == short + full[|short|..];
    StandardHeadersConcat(short, full[|short|..]);
    assert h + StandardHeaders(full) == (h + StandardHeaders(short)) + StandardHeaders(full[|short|..]);
  }

  /**
   * A standard header list read from a truncated copy of the input appends a
   * prefix of the headers the whole input appends: the headers read before a
   * read came up short stay in the list.
   */
  lemma StandardHeaderListTruncated(data: seq<byte>, k: nat, p: nat, e: Entry)
    requires p + 4 <= k <= |data|
    ensures StandardHeaderList(data[..k], p, e).headers <= StandardHeaderList(data, p, e).headers
    ensures !StandardHeaderList(data[..k], p, e).error ==> StandardHeaderList(data[..k], p, e) == StandardHeaderList(data, p, e)
  {
    SliceOfSlice(data, 0, k, p, 4);
    UInt32AtSame(data[..k], p, data, p);
    var n := Int32At(data, p);
    ReadPairsTruncated(data, k, p + 4, n);
    AppendedPrefix(e.headers, ReadPairs(data[..k], p + 4, n).pairs, ReadPairs(data, p + 4, n).pairs);
  }

  lemma VisibleAppendedPrefix(h: seq<NameValue>, short: seq<NameValue>, full: seq<NameValue>)
    requires short <= full
    ensures h + VisibleHeaders(short) <= h + VisibleHeaders(full)
  {
    assert full == short + full[|short|..];
    VisibleHeadersConcat(short, full[|short|..]);
    assert h + VisibleHeaders(full) == (h + VisibleHeaders(short)) + VisibleHeaders(full[|short|..]);
  }

  /**
   * The same for the version-602 header list: the headers appended before a
   * read came up short stay in the list, a prefix of what the whole input appends.
   */
  lemma LegacyHeaderListTruncated(data: seq<byte>, k: nat, p: nat, e: Entry)
    requires p + 4 <= k <= |data|
    ensures LegacyHeaderList(data[..k], p, e).headers <= LegacyHeaderList(data, p, e).headers
    ensures !LegacyHeaderList(data[..k], p, e).error ==> LegacyHeaderList(data[..k], p, e) == LegacyHeaderList(data, p, e)
  {
    SliceOfSlice(data, 0, k, p, 4);
    UInt32AtSame(data[..k], p, data, p);
    var n := Int32At(data, p);
    ReadPairsTruncated(data, k, p + 4, n);
    VisibleAppendedPrefix(e.headers, ReadPairs(data[..k], p + 4, n).pairs, ReadPairs(data, p + 4, n).pairs);
  }

  // ---------------------------------------------------------------------------
  // Round trip against an encoder for stored pairs

  /** A pair the format can store: both strings fit one byte per character and a 16-bit length. */
  predicate Storable(nv: NameValue) {
    IsLatin1(nv.name) && |nv.name| < TwoTo16 && IsLatin1(nv.value) && |nv.value| < TwoTo16
  }

  /** A pair as stored: the name, then the value, each a length-prefixed string. */
  function EncodePair(nv: NameValue): (bs: seq<byte>)
    requires Storable(nv)
    ensures |bs| == 4 + |nv.name| + |nv.value|
  {
    EncodePrefixed(nv.name) + EncodePrefixed(nv.value)
  }

  function EncodePairs(ps: seq<NameValue>): seq<byte>
    requires forall i :: 0 <= i < |ps| ==> Storable(ps[i])
  {
    if ps == [] then [] else EncodePair(ps[0]) + EncodePairs(ps[1..])
  }

  /** Regrouping a concatenation of four parts. */
  lemma Regroup(a: seq<byte>, b: seq<byte>, c: seq<byte>, d: seq<byte>)
    ensures a + (b + c) + d == a + b + (c + d) == (a + b) + c + d
  {
  }

  lemma PairRoundTrip(pre: seq<byte>, nv: NameValue, post: seq<byte>)
    requires Storable(nv)
    ensures ReadPair(pre + EncodePair(nv) + post, |pre|) == Some((nv, |pre| + |EncodePair(nv)|))
  {
    var name, value := EncodePrefixed(nv.name), EncodePrefixed(nv.value);
    Regroup(pre, name, value, post);
    PrefixedTextRoundTrip(pre, nv.name, value + post);
    PrefixedTextRoundTrip(pre + name, nv.value, post);
  }

  lemma PairsFromStep(data: seq<byte>, p: nat, n: int, nv: NameValue, q: nat)
    requires n > 0 && ReadPair(data, p) == Some((nv, q))
    ensures ReadPairs(data, p, n) == Prepend([nv], ReadPairs(data, q, n - 1))
  {
    assert ReadPairs(data, p, n) == PairsFrom(data, p, n);
  }

  /** A stored pair found at `p` reads back as the same pair. */
  lemma PairAt(data: seq<byte>, p: nat, nv: NameValue)
    requires Storable(nv) && p + |EncodePair(nv)| <= |data| && data[p..p + |EncodePair(nv)|] == EncodePair(nv)
    ensures ReadPair(data, p) == Some((nv, p + |EncodePair(nv)|))
  {
    var pre, post := data[..p], data[p + |EncodePair(nv)|..];
    assert data == pre + EncodePair(nv) + post;
    PairRoundTrip(pre, nv, post);
  }

  /** The pairs `ps` are stored one after another from `p` in `data`. */
  predicate StoredAt(data: seq<byte>, p: nat, ps: seq<NameValue>)
    decreases |ps|
  {
    ps == [] ||
    (Storable(ps[0]) && p + |EncodePair(ps[0])| <= |data| && data[p..p + |EncodePair(ps[0])|] == EncodePair(ps[0])
     && StoredAt(data, p + |EncodePair(ps[0])|, ps[1..]))
  }

  lemma {:induction false} EncodedPairsStored(pre: seq<byte>, ps: seq<NameValue>, post: seq<byte>)
    requires forall i :: 0 <= i < |ps| ==> Storable(ps[i])
    ensures StoredAt(pre + EncodePairs(ps) + post, |pre|, ps)
    decreases |ps|
  {
    if ps != [] {
      var first, rest := EncodePair(ps[0]), EncodePairs(ps[1..]);
      assert EncodePairs(ps) == first + rest;
      Regroup(pre, first, rest, post);
      var data := pre + EncodePairs(ps) + post;
      assert data[|pre|..|pre| + |first|] == first;
      EncodedPairsStored(pre + first, ps[1..], post);
    }
  }

  /** The pair at `p`, then the rest of the run. */
  lemma PairsAtStep(data: seq<byte>, p: nat, nv: NameValue, tail: seq<NameValue>)
    requires Storable(nv) && p + |EncodePair(nv)| <= |data| && data[p..p + |EncodePair(nv)|] == EncodePair(nv)
    requires ReadPairs(data, p + |EncodePair(nv)|, |tail|) == PairRun(tail, true)
    ensures ReadPairs(data, p, |tail| + 1) == PairRun([nv] + tail, true)
  {
    PairAt(data, p, nv);
    PairsFromStep(data, p, |tail| + 1, nv, p + |EncodePair(nv)|);
  }

  lemma {:induction false} PairsAt(data: seq<byte>, p: nat, ps: seq<NameValue>)
    requires StoredAt(data, p, ps)
    ensures ReadPairs(data, p, |ps|) == PairRun(ps, true)
    decreases |ps|
  {
    if ps != [] {
      var nv, tail := ps[0], ps[1..];
      PairsAt(data, p + |EncodePair(nv)|, tail);
      PairsAtStep(data, p, nv, tail);
      assert [nv] + tail == ps;
    }
  }

  /** Stored pairs, wherever they sit in the input, read back as the same pairs, all of them. */
  lemma PairsRoundTrip(pre: seq<byte>, ps: seq<NameValue>, post: seq<byte>)
    requires forall i :: 0 <= i < |ps| ==> Storable(ps[i])
    ensures ReadPairs(pre + EncodePairs(ps) + post, |pre|, |ps|) == PairRun(ps, true)
  {
    EncodedPairsStored(pre, ps, post);
    PairsAt(pre + EncodePairs(ps) + post, |pre|, ps);
  }

  /** A stored standard header list decodes to the pairs it holds, `<null>` names emptied, without an error. */
  lemma StandardHeaderListRoundTrip(pre: seq<byte>, ps: seq<NameValue>, post: seq<byte>, e: Entry)
    requires forall i :: 0 <= i < |ps| ==> Storable(ps[i])
    requires IsInt32(|ps|)
    ensures StandardHeaderList(pre + EncodeInt32(|ps|) + EncodePairs(ps) + post, |pre|, e)
         == e.(headers := e.headers + StandardHeaders(ps))
  {
    Regroup(pre, EncodeInt32(|ps|), EncodePairs(ps), post);
    Int32RoundTrip(pre, |ps|, EncodePairs(ps) + post);
    PairsRoundTrip(pre + EncodeInt32(|ps|), ps, post);
  }

  /**
   * A stored version-602 header list decodes to the pairs not named for the
   * codebase IP, with the codebase IP from the last pair that is, without an error.
   */
  lemma LegacyHeaderListRoundTrip(pre: seq<byte>, ps: seq<NameValue>, post: seq<byte>, e: Entry)
    requires forall i :: 0 <= i < |ps| ==> Storable(ps[i])
    requires IsInt32(|ps|)
    ensures LegacyHeaderList(pre + EncodeInt32(|ps|) + EncodePairs(ps) + post, |pre|, e)
         == e.(headers := e.headers + VisibleHeaders(ps), codebaseIp := LastCodebaseIp(ps, e.codebaseIp))
  {
    Regroup(pre, EncodeInt32(|ps|), EncodePairs(ps), post);
    Int32RoundTrip(pre, |ps|, EncodePairs(ps) + post);
    PairsRoundTrip(pre + EncodeInt32(|ps|), ps, post);
  }
}
