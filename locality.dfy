/**
 * What each reader of the format depends on: a fixed-offset field only on
 * its own bytes, and a string, a header list or the secondary section only on
 * the input from where it starts. The decode theorems rest on these lemmas.
 */
module Locality {
  import opened Primitives
  import opened IdxFormat

  /**
   * `other` holds the same bytes as `data` from `lo` to the end of `data`,
   * and is at least as long: `data` from `lo` on is a prefix of `other` from `lo` on.
   */
  predicate Covers(data: seq<byte>, other: seq<byte>, lo: nat) {
    lo <= |data| <= |other| && data[lo..] == other[lo..|data|]
  }

  lemma CoversSameBytes(data: seq<byte>, other: seq<byte>, lo: nat, b: nat, len: nat)
    requires Covers(data, other, lo) && lo <= b
    requires |data| == |other| || b + len <= |data|
    ensures SameBytes(data, b, other, b, len)
  {
    assert data[lo..] == data[lo..|data|];
    if b + len <= |data| {
      SliceOfSlice(data, lo, |data|, b - lo, len);
      SliceOfSlice(other, lo, |data|, b - lo, len);
    } else if b <= |data| {
      SliceOfSlice(data, lo, |data|, b - lo, |data| - b);
      SliceOfSlice(other, lo, |data|, b - lo, |data| - b);
      assert data[b..] == data[b..|data|] && other[b..] == other[b..|data|];
    }
  }

  /** Inputs that agree from `b` and from `b'` to their ends hold the same bytes there, however many are read. */
  lemma SuffixSameBytes(data: seq<byte>, b: nat, other: seq<byte>, b': nat, len: nat)
    requires b <= |data| && b' <= |other| && data[b..] == other[b'..]
    ensures SameBytes(data, b, other, b', len)
  {
    if b + len <= |data| {
      SliceOfSlice(data, b, |data|, 0, len);
      SliceOfSlice(other, b', |other|, 0, len);
      assert data[b..] == data[b..|data|] && other[b'..] == other[b'..|other|];
    }
  }

  /** Inputs that agree up to `m` hold the same bytes in any window that ends by `m`. */
  lemma PrefixSameBytes(data: seq<byte>, other: seq<byte>, m: nat, b: nat, len: nat)
    requires m <= |data| && m <= |other| && data[..m] == other[..m] && b + len <= m
    ensures SameBytes(data, b, other, b, len)
  {
    SliceOfSlice(data, 0, m, b, len);
    SliceOfSlice(other, 0, m, b, len);
  }

  // ---------------------------------------------------------------------------
  // Fixed-offset fields

  lemma BoolOrSame(data: seq<byte>, o: nat, other: seq<byte>, o': nat, prior: bool)
    requires SameBytes(data, o, other, o', 1)
    ensures BoolOr(data, o, prior) == BoolOr(other, o', prior)
  {
    if o + 1 <= |data| && o' + 1 <= |other| {
      assert data[o] == data[o..o + 1][0] && other[o'] == other[o'..o' + 1][0];
    }
  }

  lemma Int32OrSame(data: seq<byte>, o: nat, other: seq<byte>, o': nat, prior: int)
    requires SameBytes(data, o, other, o', 4)
    ensures Int32Or(data, o, prior) == Int32Or(other, o', prior)
  {
    if o + 4 <= |data| && o' + 4 <= |other| {
      UInt32AtSame(data, o, other, o');
    }
  }

  lemma TimestampOrSame(data: seq<byte>, o: nat, other: seq<byte>, o': nat, prior: Timestamp)
    requires SameBytes(data, o, other, o', 8)
    ensures TimestampOr(data, o, prior) == TimestampOr(other, o', prior)
  {
    if o + 8 <= |data| && o' + 8 <= |other| {
      UInt64AtSame(data, o, other, o');
    }
  }

  lemma ContentFieldsSame(data: seq<byte>, b: nat, other: seq<byte>, b': nat, f: FixedFields)
    requires SameBytes(data, b, other, b', 5)
    ensures ContentFields(data, b, f) == ContentFields(other, b', f)
  {
    SameBytesWithin(data, b, other, b', 5, 0, 1);
    BoolOrSame(data, b, other, b', f.isShortcutImage);
    SameBytesWithin(data, b, other, b', 5, 1, 4);
    Int32OrSame(data, b + 1, other, b' + 1, f.contentLength);
  }

  lemma DateFieldsSame(data: seq<byte>, b: nat, other: seq<byte>, b': nat, f: FixedFields)
    requires SameBytes(data, b, other, b', 16)
    ensures DateFields(data, b, f) == DateFields(other, b', f)
  {
    SameBytesWithin(data, b, other, b', 16, 0, 8);
    TimestampOrSame(data, b, other, b', f.lastModified);
    SameBytesWithin(data, b, other, b', 16, 8, 8);
    TimestampOrSame(data, b + 8, other, b' + 8, f.expirationDate);
  }

  /** The resource fields depend only on their 21 bytes. */
  lemma ResourceFieldsSame(data: seq<byte>, b: nat, other: seq<byte>, b': nat, f: FixedFields)
    requires SameBytes(data, b, other, b', ResourceFieldsLength)
    ensures ResourceFields(data, b, f) == ResourceFields(other, b', f)
  {
    SameBytesWithin(data, b, other, b', ResourceFieldsLength, 0, 5);
    ContentFieldsSame(data, b, other, b', f);
    SameBytesWithin(data, b, other, b', ResourceFieldsLength, 5, 16);
    DateFieldsSame(data, b + 5, other, b' + 5, ContentFields(data, b, f));
  }

  lemma SignatureFieldsSame(data: seq<byte>, b: nat, other: seq<byte>, b': nat, f: FixedFields)
    requires SameBytes(data, b, other, b', 13)
    ensures SignatureFields(data, b, f) == SignatureFields(other, b', f)
  {
    SameBytesWithin(data, b, other, b', 13, 0, 8);
    TimestampOrSame(data, b, other, b', f.validationTimestamp);
    SameBytesWithin(data, b, other, b', 13, 8, 1);
    BoolOrSame(data, b + 8, other, b' + 8, f.knownToBeSigned);
    SameBytesWithin(data, b, other, b', 13, 9, 4);
    Int32OrSame(data, b + 9, other, b' + 9, f.section2Length);
  }

  lemma SectionLengthsSame(data: seq<byte>, b: nat, other: seq<byte>, b': nat, f: FixedFields)
    requires SameBytes(data, b, other, b', 12)
    ensures SectionLengths(data, b, f) == SectionLengths(other, b', f)
  {
    SameBytesWithin(data, b, other, b', 12, 0, 4);
    Int32OrSame(data, b, other, b', f.section3Length);
    SameBytesWithin(data, b, other, b', 12, 4, 4);
    Int32OrSame(data, b + 4, other, b' + 4, f.section4Length);
    SameBytesWithin(data, b, other, b', 12, 8, 4);
    Int32OrSame(data, b + 8, other, b' + 8, f.section5Length);
  }

  lemma CertificateFieldsSame(data: seq<byte>, b: nat, other: seq<byte>, b': nat, f: FixedFields)
    requires SameBytes(data, b, other, b', 17)
    ensures CertificateFields(data, b, f) == CertificateFields(other, b', f)
  {
    SameBytesWithin(data, b, other, b', 17, 0, 8);
    TimestampOrSame(data, b, other, b', f.blackListValidationTime);
    SameBytesWithin(data, b, other, b', 17, 8, 8);
    TimestampOrSame(data, b + 8, other, b' + 8, f.certExpirationDate);
    SameBytesWithin(data, b, other, b', 17, 16, 1);
    BoolOrSame(data, b + 16, other, b' + 16, f.classVerificationStatus);
  }

  lemma ManifestFieldsSame(data: seq<byte>, b: nat, other: seq<byte>, b': nat, f: FixedFields)
    requires SameBytes(data, b, other, b', 9)
    ensures ManifestFields(data, b, f) == ManifestFields(other, b', f)
  {
    SameBytesWithin(data, b, other, b', 9, 0, 4);
    Int32OrSame(data, b, other, b', f.reducedManifestLength);
    SameBytesWithin(data, b, other, b', 9, 4, 4);
    Int32OrSame(data, b + 4, other, b' + 4, f.section4Pre15Length);
    SameBytesWithin(data, b, other, b', 9, 8, 1);
    BoolOrSame(data, b + 8, other, b' + 8, f.hasOnlySignedEntries);
  }

  lemma CodeSourceFieldsSame(data: seq<byte>, b: nat, other: seq<byte>, b': nat, f: FixedFields)
    requires SameBytes(data, b, other, b', 9)
    ensures CodeSourceFields(data, b, f) == CodeSourceFields(other, b', f)
  {
    SameBytesWithin(data, b, other, b', 9, 0, 1);
    BoolOrSame(data, b, other, b', f.hasSingleCodeSource);
    SameBytesWithin(data, b, other, b', 9, 1, 4);
    Int32OrSame(data, b + 1, other, b' + 1, f.section4CertsLength);
    SameBytesWithin(data, b, other, b', 9, 5, 4);
    Int32OrSame(data, b + 5, other, b' + 5, f.section4SignersLength);
  }

  lemma LibraryFieldsSame(data: seq<byte>, b: nat, other: seq<byte>, b': nat, f: FixedFields)
    requires SameBytes(data, b, other, b', 13)
    ensures LibraryFields(data, b, f) == LibraryFields(other, b', f)
  {
    SameBytesWithin(data, b, other, b', 13, 0, 1);
    BoolOrSame(data, b, other, b', f.hasMissingSignedEntries);
    SameBytesWithin(data, b, other, b', 13, 1, 8);
    TimestampOrSame(data, b + 1, other, b' + 1, f.trustedLibrariesValidationTime);
    SameBytesWithin(data, b, other, b', 13, 9, 4);
    Int32OrSame(data, b + 9, other, b' + 9, f.reducedManifest2Length);
  }

  /** The signing fields depend only on their 73 bytes. */
  lemma SigningFieldsSame(data: seq<byte>, b: nat, other: seq<byte>, b': nat, f: FixedFields)
    requires SameBytes(data, b, other, b', SigningFieldsLength)
    ensures SigningFields(data, b, f) == SigningFields(other, b', f)
  {
    var f1 := SignatureFields(data, b, f);
    var f2 := SectionLengths(data, b + 13, f1);
    var f3 := CertificateFields(data, b + 25, f2);
    var f4 := ManifestFields(data, b + 42, f3);
    var f5 := CodeSourceFields(data, b + 51, f4);
    SameBytesWithin(data, b, other, b', SigningFieldsLength, 0, 13);
    SignatureFieldsSame(data, b, other, b', f);
    SameBytesWithin(data, b, other, b', SigningFieldsLength, 13, 12);
    SectionLengthsSame(data, b + 13, other, b' + 13, f1);
    SameBytesWithin(data, b, other, b', SigningFieldsLength, 25, 17);
    CertificateFieldsSame(data, b + 25, other, b' + 25, f2);
    SameBytesWithin(data, b, other, b', SigningFieldsLength, 42, 9);
    ManifestFieldsSame(data, b + 42, other, b' + 42, f3);
    SameBytesWithin(data, b, other, b', SigningFieldsLength, 51, 9);
    CodeSourceFieldsSame(data, b + 51, other, b' + 51, f4);
    SameBytesWithin(data, b, other, b', SigningFieldsLength, 60, 13);
    LibraryFieldsSame(data, b + 60, other, b' + 60, f5);
  }

  // ---------------------------------------------------------------------------
  // Strings and header lists: a read that fits in `data` reads the same from `other`

  lemma PrefixedTextAtCovered(data: seq<byte>, other: seq<byte>, lo: nat, o: nat)
    requires Covers(data, other, lo) && lo <= o
    ensures PrefixedTextAt(data, o).Some? ==> PrefixedTextAt(other, o) == PrefixedTextAt(data, o)
    ensures |data| == |other| ==> PrefixedTextAt(other, o) == PrefixedTextAt(data, o)
  {
    if o + 2 <= |data| {
      CoversSameBytes(data, other, lo, o, 2);
      UInt16AtSame(data, o, other, o);
      var n := UInt16At(data, o);
      if o + 2 + n <= |data| {
        CoversSameBytes(data, other, lo, o + 2, n);
        TextAtSame(data, o + 2, other, o + 2, n);
      }
    }
  }

  lemma ReadPairCovered(data: seq<byte>, other: seq<byte>, lo: nat, p: nat)
    requires Covers(data, other, lo) && lo <= p
    ensures ReadPair(data, p).Some? ==> ReadPair(other, p) == ReadPair(data, p)
    ensures |data| == |other| ==> ReadPair(other, p) == ReadPair(data, p)
  {
    PrefixedTextAtCovered(data, other, lo, p);
    match PrefixedTextAt(data, p)
    case None =>
    case Some((_, q)) => PrefixedTextAtCovered(data, other, lo, q);
  }

  lemma {:induction false} ReadPairsCovered(data: seq<byte>, other: seq<byte>, lo: nat, p: nat, n: int)
    requires Covers(data, other, lo) && lo <= p
    ensures ReadPairs(data, p, n).complete ==> ReadPairs(other, p, n) == ReadPairs(data, p, n)
    ensures |data| == |other| ==> ReadPairs(other, p, n) == ReadPairs(data, p, n)
    decreases if n > 0 then n else 0
  {
    if n > 0 {
      assert ReadPairs(data, p, n) == PairsFrom(data, p, n);
      assert ReadPairs(other, p, n) == PairsFrom(other, p, n);
      ReadPairCovered(data, other, lo, p);
      match ReadPair(data, p)
      case None =>
      case Some((_, q)) => ReadPairsCovered(data, other, lo, q, n - 1);
    }
  }

  lemma StandardHeaderListCovered(data: seq<byte>, other: seq<byte>, lo: nat, p: nat, e: Entry)
    requires Covers(data, other, lo) && lo <= p
    ensures !StandardHeaderList(data, p, e).error ==> StandardHeaderList(other, p, e) == StandardHeaderList(data, p, e)
    ensures |data| == |other| ==> StandardHeaderList(other, p, e) == StandardHeaderList(data, p, e)
  {
    if p + 4 <= |data| {
      CoversSameBytes(data, other, lo, p, 4);
      UInt32AtSame(data, p, other, p);
      ReadPairsCovered(data, other, lo, p + 4, Int32At(data, p));
    }
  }

  lemma LegacyHeaderListCovered(data: seq<byte>, other: seq<byte>, lo: nat, p: nat, e: Entry)
    requires Covers(data, other, lo) && lo <= p
    ensures !LegacyHeaderList(data, p, e).error ==> LegacyHeaderList(other, p, e) == LegacyHeaderList(data, p, e)
    ensures |data| == |other| ==> LegacyHeaderList(other, p, e) == LegacyHeaderList(data, p, e)
  {
    if p + 4 <= |data| {
      CoversSameBytes(data, other, lo, p, 4);
      UInt32AtSame(data, p, other, p);
      ReadPairsCovered(data, other, lo, p + 4, Int32At(data, p));
    }
  }

  lemma Strings602Covered(data: seq<byte>, other: seq<byte>, lo: nat, p: nat, e: Entry)
    requires Covers(data, other, lo) && lo <= p
    ensures !Strings602(data, p, e).error ==> Strings602(other, p, e) == Strings602(data, p, e)
    ensures |data| == |other| ==> Strings602(other, p, e) == Strings602(data, p, e)
  {
    PrefixedTextAtCovered(data, other, lo, p);
    match PrefixedTextAt(data, p)
    case None =>
    case Some((_, p1)) =>
      PrefixedTextAtCovered(data, other, lo, p1);
      match PrefixedTextAt(data, p1)
      case None =>
      case Some((_, p2)) =>
        PrefixedTextAtCovered(data, other, lo, p2);
        match PrefixedTextAt(data, p2)
        case None =>
        case Some((namespaceId, p3)) =>
          var e3 := Strings602(data, p, e);
          LegacyHeaderListCovered(data, other, lo, p3,
            e.(version := Some(PrefixedTextAt(data, p).value.0),
               url := Some(PrefixedTextAt(data, p1).value.0),
               namespaceId := Some(namespaceId)));
  }

  lemma SectionTwoCovered(data: seq<byte>, other: seq<byte>, lo: nat, e: Entry)
    requires Covers(data, other, lo) && lo <= SectionTwoOffset
    ensures !SectionTwo(data, e).error ==> SectionTwo(other, e) == SectionTwo(data, e)
    ensures |data| == |other| ==> SectionTwo(other, e) == SectionTwo(data, e)
  {
    var p0 := SectionTwoOffset;
    PrefixedTextAtCovered(data, other, lo, p0);
    match PrefixedTextAt(data, p0)
    case None =>
    case Some((version, p1)) =>
      PrefixedTextAtCovered(data, other, lo, p1);
      match PrefixedTextAt(data, p1)
      case None =>
      case Some((url, p2)) =>
        PrefixedTextAtCovered(data, other, lo, p2);
        match PrefixedTextAt(data, p2)
        case None =>
        case Some((namespaceId, p3)) =>
          PrefixedTextAtCovered(data, other, lo, p3);
          match PrefixedTextAt(data, p3)
          case None =>
          case Some((codebaseIp, p4)) =>
            StandardHeaderListCovered(data, other, lo, p4,
              e.(version := Some(version), url := Some(url), namespaceId := Some(namespaceId),
                 codebaseIp := Some(codebaseIp)));
  }

  // ---------------------------------------------------------------------------
  // Whole layouts

  lemma CoveredByte(data: seq<byte>, other: seq<byte>, lo: nat, o: nat)
    requires Covers(data, other, lo) && lo <= o < |data|
    ensures other[o] == data[o]
  {
    assert data[o] == data[lo..][o - lo];
  }

  lemma SignedPart603Covered(data: seq<byte>, other: seq<byte>, lo: nat, b: nat, e: Entry)
    requires Covers(data, other, lo) && lo <= b && b + SigningFieldsLength <= SectionTwoOffset
    ensures !e.error && !SignedPart603(data, b, e).error ==> SignedPart603(other, b, e) == SignedPart603(data, b, e)
    ensures |data| == |other| ==> SignedPart603(other, b, e) == SignedPart603(data, b, e)
  {
    if |data| == |other| || b + SigningFieldsLength <= |data| {
      CoversSameBytes(data, other, lo, b, SigningFieldsLength);
      SigningFieldsSame(data, b, other, b, e.fixed);
      SectionTwoCovered(data, other, lo, e.(fixed := SigningFields(data, b, e.fixed)));
    }
  }

  lemma SignedPart605Covered(data: seq<byte>, other: seq<byte>, lo: nat, b: nat, e: Entry)
    requires Covers(data, other, lo) && lo <= b && b + SigningFieldsLength < SectionTwoOffset
    ensures !e.error && !SignedPart605(data, b, e).error ==> SignedPart605(other, b, e) == SignedPart605(data, b, e)
    ensures |data| == |other| ==> SignedPart605(other, b, e) == SignedPart605(data, b, e)
  {
    var end := b + SigningFieldsLength;
    if end < |data| {
      CoversSameBytes(data, other, lo, b, SigningFieldsLength);
      SigningFieldsSame(data, b, other, b, e.fixed);
      CoveredByte(data, other, lo, end);
      var e2 := e.(fixed := SigningFields(data, b, e.fixed));
      SectionTwoCovered(data, other, lo, e2.(fixed := e2.fixed.(isProxied := BoolAt(data, end))));
    } else if |data| == |other| {
      CoversSameBytes(data, other, lo, b, SigningFieldsLength);
      SigningFieldsSame(data, b, other, b, e.fixed);
    }
  }

  /** The version-602 layout reads nothing before `lo` when `lo` is at most where its fields start. */
  lemma Decode602Covered(data: seq<byte>, other: seq<byte>, lo: nat, e: Entry)
    requires Covers(data, other, lo) && lo <= LeadingLength
    ensures !e.error && !Decode602(data, e).error ==> Decode602(other, e) == Decode602(data, e)
    ensures |data| == |other| ==> Decode602(other, e) == Decode602(data, e)
  {
    if |data| == |other| || 8 + ResourceFieldsLength <= |data| {
      CoversSameBytes(data, other, lo, 8, ResourceFieldsLength);
      ResourceFieldsSame(data, 8, other, 8, e.fixed);
      Strings602Covered(data, other, lo, 29, e.(fixed := ResourceFields(data, 8, e.fixed)));
    }
  }

  /** The layout of versions 603 and 604 reads nothing before `lo` when `lo` is at most where its fields start. */
  lemma Decode603Covered(data: seq<byte>, other: seq<byte>, lo: nat, e: Entry)
    requires Covers(data, other, lo) && lo <= LeadingLength
    ensures !e.error && !Decode603(data, e).error ==> Decode603(other, e) == Decode603(data, e)
    ensures |data| == |other| ==> Decode603(other, e) == Decode603(data, e)
  {
    if |data| == |other| || 8 + ResourceFieldsLength <= |data| {
      CoversSameBytes(data, other, lo, 8, ResourceFieldsLength);
      ResourceFieldsSame(data, 8, other, 8, e.fixed);
      SignedPart603Covered(data, other, lo, 29, e.(fixed := ResourceFields(data, 8, e.fixed)));
    }
  }

  /** The version-605 layout reads nothing before `lo` when `lo` is at most where its fields start. */
  lemma Decode605Covered(data: seq<byte>, other: seq<byte>, lo: nat, e: Entry)
    requires Covers(data, other, lo) && lo <= LeadingLength
    ensures !e.error && !Decode605(data, e).error ==> Decode605(other, e) == Decode605(data, e)
    ensures |data| == |other| ==> Decode605(other, e) == Decode605(data, e)
  {
    if |data| == |other| || 6 + ResourceFieldsLength <= |data| {
      CoversSameBytes(data, other, lo, 6, ResourceFieldsLength);
      ResourceFieldsSame(data, 6, other, 6, e.fixed);
      SignedPart605Covered(data, other, lo, 27, e.(fixed := ResourceFields(data, 6, e.fixed)));
    }
  }
}
