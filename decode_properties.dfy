/**
 * Properties of what the constructor leaves in a CacheEntry, stated over
 * `Decode`, which the CacheEntry class is proved to compute.
 */
module DecodeProperties {
  import opened Primitives
  import opened IdxFormat
  import opened Locality

  /** Two entries agree on the busy flag, the incomplete flag and the cache version. */
  predicate SameLeading(a: Entry, b: Entry) {
    a.busy == b.busy && a.incomplete == b.incomplete && a.cacheVersion == b.cacheVersion
  }

  lemma HeaderListsKeep(data: seq<byte>, p: nat, e: Entry)
    ensures SameLeading(StandardHeaderList(data, p, e), e) && StandardHeaderList(data, p, e).fixed == e.fixed
    ensures SameLeading(LegacyHeaderList(data, p, e), e) && LegacyHeaderList(data, p, e).fixed == e.fixed
  {
  }

  /** Version 602's strings and headers assign nothing of the leading fields or the fixed block. */
  lemma Strings602Keeps(data: seq<byte>, p: nat, e: Entry)
    ensures SameLeading(Strings602(data, p, e), e) && Strings602(data, p, e).fixed == e.fixed
  {
    match PrefixedTextAt(data, p)
    case None =>
    case Some((version, p1)) =>
      var e1 := e.(version := Some(version));
      match PrefixedTextAt(data, p1)
      case None =>
      case Some((url, p2)) =>
        var e2 := e1.(url := Some(url));
        match PrefixedTextAt(data, p2)
        case None =>
        case Some((namespaceId, p3)) => HeaderListsKeep(data, p3, e2.(namespaceId := Some(namespaceId)));
  }

  /** The secondary section assigns nothing of the leading fields or the fixed block. */
  lemma SectionTwoKeeps(data: seq<byte>, e: Entry)
    ensures SameLeading(OptionalSectionTwo(data, e), e) && OptionalSectionTwo(data, e).fixed == e.fixed
  {
    match PrefixedTextAt(data, SectionTwoOffset)
    case None =>
    case Some((version, p1)) =>
      var e1 := e.(version := Some(version));
      match PrefixedTextAt(data, p1)
      case None =>
      case Some((url, p2)) =>
        var e2 := e1.(url := Some(url));
        match PrefixedTextAt(data, p2)
        case None =>
        case Some((namespaceId, p3)) =>
          var e3 := e2.(namespaceId := Some(namespaceId));
          match PrefixedTextAt(data, p3)
          case None =>
          case Some((codebaseIp, p4)) => HeaderListsKeep(data, p4, e3.(codebaseIp := Some(codebaseIp)));
  }

  lemma SignedPartsKeepLeading(data: seq<byte>, b: nat, e: Entry)
    ensures SameLeading(SignedPart603(data, b, e), e)
    ensures SameLeading(SignedPart605(data, b, e), e)
  {
    var e2 := e.(fixed := SigningFields(data, b, e.fixed));
    SectionTwoKeeps(data, e2);
    if b + SigningFieldsLength < |data| {
      SectionTwoKeeps(data, e2.(fixed := e2.fixed.(isProxied := BoolAt(data, b + SigningFieldsLength))));
    }
  }

  /** Every version's layout leaves the leading fields as they were. */
  lemma LayoutsKeepLeading(data: seq<byte>, e: Entry)
    ensures SameLeading(Decode602(data, e), e)
    ensures SameLeading(Decode603(data, e), e)
    ensures SameLeading(Decode605(data, e), e)
  {
    var e1 := e.(fixed := ResourceFields(data, 8, e.fixed));
    Strings602Keeps(data, 29, e1);
    SignedPartsKeepLeading(data, 29, e1);
    SignedPartsKeepLeading(data, 27, e.(fixed := ResourceFields(data, 6, e.fixed)));
  }

  /**
   * Every decode starts with the busy flag from byte 0, the incomplete flag
   * from byte 1 and the cache version from bytes 2 to 5; an input too short
   * for them sets the error flag and assigns nothing else.
   */
  lemma LeadingFields(data: seq<byte>)
    ensures Decode(data).busy == (|data| >= 1 && data[0] != 0)
    ensures Decode(data).incomplete == (|data| >= 2 && data[1] != 0)
    ensures Decode(data).cacheVersion == if |data| >= LeadingLength then Int32At(data, 2) else 0
    ensures |data| < LeadingLength ==> Decode(data).error && Decode(data).(busy := false, incomplete := false, error := false) == Initial
  {
    LayoutsKeepLeading(data, Leading(data));
  }

  /** A version code outside 602 to 605 ends the decode after the leading fields, without an error. */
  lemma UnsupportedVersion(data: seq<byte>)
    requires |data| >= LeadingLength && Int32At(data, 2) !in {602, 603, 604, 605}
    ensures !Decode(data).error && Decode(data).headers == []
    ensures Decode(data) == Initial.(busy := data[0] != 0, incomplete := data[1] != 0, cacheVersion := Int32At(data, 2))
  {
  }

  /** With an unsupported version code, no byte after the leading fields is read. */
  lemma UnsupportedVersionReadsNoFurther(data: seq<byte>, other: seq<byte>)
    requires |data| >= LeadingLength && Int32At(data, 2) !in {602, 603, 604, 605}
    requires |other| >= LeadingLength && other[..LeadingLength] == data[..LeadingLength]
    ensures Decode(other) == Decode(data)
  {
    assert other[0] == other[..LeadingLength][0] && data[0] == data[..LeadingLength][0];
    assert other[1] == other[..LeadingLength][1] && data[1] == data[..LeadingLength][1];
    SliceOfSlice(data, 0, LeadingLength, 2, 4);
    SliceOfSlice(other, 0, LeadingLength, 2, 4);
    UInt32AtSame(data, 2, other, 2);
  }

  /**
   * No version's layout reads the six leading bytes again: on inputs of one
   * length that agree from byte 6 on, each layout assigns the same.
   */
  lemma LayoutsStartAfterLeading(data: seq<byte>, other: seq<byte>, e: Entry)
    requires |data| == |other| >= LeadingLength && data[LeadingLength..] == other[LeadingLength..]
    ensures Decode602(other, e) == Decode602(data, e)
    ensures Decode603(other, e) == Decode603(data, e)
    ensures Decode605(other, e) == Decode605(data, e)
  {
    assert Covers(data, other, LeadingLength) by {
      assert other[LeadingLength..|data|] == other[LeadingLength..];
    }
    Decode602Covered(data, other, LeadingLength, e);
    Decode603Covered(data, other, LeadingLength, e);
    Decode605Covered(data, other, LeadingLength, e);
  }

  // ---------------------------------------------------------------------------
  // Reads past what the decode needs

  /** The leading fields read the same from any input that starts with the same six bytes. */
  lemma LeadingSame(data: seq<byte>, other: seq<byte>)
    requires |data| >= LeadingLength && |other| >= LeadingLength && data[..LeadingLength] == other[..LeadingLength]
    ensures Leading(other) == Leading(data)
  {
    assert other[0] == other[..LeadingLength][0] && data[0] == data[..LeadingLength][0];
    assert other[1] == other[..LeadingLength][1] && data[1] == data[..LeadingLength][1];
    SliceOfSlice(data, 0, LeadingLength, 2, 4);
    SliceOfSlice(other, 0, LeadingLength, 2, 4);
    UInt32AtSame(data, 2, other, 2);
  }

  /**
   * A decode that ends without an error read nothing past the end of its
   * input: bytes appended to the file change nothing.
   */
  lemma ExtendedInput(data: seq<byte>, extra: seq<byte>)
    requires !Decode(data).error
    ensures Decode(data + extra) == Decode(data)
  {
    var other := data + extra;
    assert |data| >= LeadingLength;
    assert other[..|data|] == data;
    assert Covers(data, other, 0) by {
      assert data[0..] == data && other[0..|data|] == data;
    }
    assert other[..LeadingLength] == data[..LeadingLength];
    LeadingSame(data, other);
    var e := Leading(data);
    Decode602Covered(data, other, 0, e);
    Decode603Covered(data, other, 0, e);
    Decode605Covered(data, other, 0, e);
  }

  // ---------------------------------------------------------------------------
  // Versions 603 and 604 share one layout

  lemma HeaderListCommutes(data: seq<byte>, p: nat, e: Entry, v: int)
    ensures StandardHeaderList(data, p, e.(cacheVersion := v)) == StandardHeaderList(data, p, e).(cacheVersion := v)
  {
  }

  lemma SectionTwoCommutes(data: seq<byte>, e: Entry, v: int)
    ensures SectionTwo(data, e.(cacheVersion := v)) == SectionTwo(data, e).(cacheVersion := v)
  {
    var ev := e.(cacheVersion := v);
    match PrefixedTextAt(data, SectionTwoOffset)
    case None =>
    case Some((version, p1)) =>
      match PrefixedTextAt(data, p1)
      case None =>
      case Some((url, p2)) =>
        match PrefixedTextAt(data, p2)
        case None =>
        case Some((namespaceId, p3)) =>
          match PrefixedTextAt(data, p3)
          case None =>
          case Some((codebaseIp, p4)) =>
            var e4 := e.(version := Some(version), url := Some(url), namespaceId := Some(namespaceId),
                         codebaseIp := Some(codebaseIp));
            assert ev.(version := Some(version), url := Some(url), namespaceId := Some(namespaceId),
                       codebaseIp := Some(codebaseIp)) == e4.(cacheVersion := v);
            HeaderListCommutes(data, p4, e4, v);
  }
  lemma SignedPart603Commutes(data: seq<byte>, b: nat, e: Entry, v: int)
    ensures SignedPart603(data, b, e.(cacheVersion := v)) == SignedPart603(data, b, e).(cacheVersion := v)
  {
    var e2 := e.(fixed := SigningFields(data, b, e.fixed));
    assert e.(cacheVersion := v).(fixed := e2.fixed) == e2.(cacheVersion := v);
    if |data| >= b + SigningFieldsLength && e2.fixed.section2Length > 0 {
      SectionTwoCommutes(data, e2, v);
    }
  }

  /** The layout of versions 603 and 604 never looks at the cache version it starts from. */
  lemma Decode603Commutes(data: seq<byte>, e: Entry, v: int)
    ensures Decode603(data, e.(cacheVersion := v)) == Decode603(data, e).(cacheVersion := v)
  {
    var e1 := e.(fixed := ResourceFields(data, 8, e.fixed));
    assert e.(cacheVersion := v).(fixed := e1.fixed) == e1.(cacheVersion := v);
    SignedPart603Commutes(data, 29, e1, v);
  }

  /**
   * Versions 603 and 604 are decoded by one layout: writing either code over
   * the other changes the decoded entry in its cache version and nowhere else.
   */
  lemma Versions603And604Agree(data: seq<byte>, v: int)
    requires |data| >= LeadingLength && Int32At(data, 2) in {603, 604} && v in {603, 604}
    ensures Decode(data[..2] + EncodeInt32(v) + data[LeadingLength..]) == Decode(data).(cacheVersion := v)
  {
    var other := data[..2] + EncodeInt32(v) + data[LeadingLength..];
    Int32RoundTrip(data[..2], v, data[LeadingLength..]);
    assert other[0] == data[0] && other[1] == data[1];
    assert Leading(other) == Leading(data).(cacheVersion := v);
    assert Covers(data, other, LeadingLength) by {
      assert other[LeadingLength..] == data[LeadingLength..];
    }
    Decode603Covered(data, other, LeadingLength, Leading(other));
    Decode603Commutes(data, Leading(data), v);
  }

  // ---------------------------------------------------------------------------
  // Version 605 against versions 603 and 604

  /** The signed parts end with the signing fields in the fixed block; version 605 adds the proxied flag. */
  lemma SignedPartsFixed(data: seq<byte>, b: nat, e: Entry)
    ensures SignedPart603(data, b, e).fixed == SigningFields(data, b, e.fixed)
    ensures SignedPart605(data, b, e).fixed.(isProxied := e.fixed.isProxied) == SigningFields(data, b, e.fixed)
    ensures b + SigningFieldsLength < |data| ==> SignedPart605(data, b, e).fixed.isProxied == BoolAt(data, b + SigningFieldsLength)
  {
    var e2 := e.(fixed := SigningFields(data, b, e.fixed));
    SectionTwoKeeps(data, e2);
    if b + SigningFieldsLength < |data| {
      SectionTwoKeeps(data, e2.(fixed := e2.fixed.(isProxied := BoolAt(data, b + SigningFieldsLength))));
    }
  }

  lemma ShiftedWindows(data: seq<byte>, gap: seq<byte>)
    requires |data| >= LeadingLength && |gap| == ReservedLength
    ensures var other := data[..LeadingLength] + gap + data[LeadingLength..];
      SameBytes(data, 6, other, 8, ResourceFieldsLength) && SameBytes(data, 27, other, 29, SigningFieldsLength)
  {
    var other := data[..LeadingLength] + gap + data[LeadingLength..];
    assert other[8..] == data[6..];
    SuffixSameBytes(data, 6, other, 8, ResourceFieldsLength + SigningFieldsLength);
    SameBytesWithin(data, 6, other, 8, ResourceFieldsLength + SigningFieldsLength, 0, ResourceFieldsLength);
    SameBytesWithin(data, 6, other, 8, ResourceFieldsLength + SigningFieldsLength, ResourceFieldsLength, SigningFieldsLength);
  }

  /**
   * The fixed block of version 605 is that of versions 603 and 604 without
   * the two reserved bytes, followed by the proxied flag: with two bytes put
   * back after the version code, the 603 layout reads every other fixed field
   * alike, and the 605 layout takes the proxied flag from the byte right
   * after the signing fields.
   */
  lemma Version605Shift(data: seq<byte>, gap: seq<byte>, e: Entry)
    requires |data| >= LeadingLength && |gap| == ReservedLength
    ensures Decode605(data, e).fixed.(isProxied := e.fixed.isProxied)
         == Decode603(data[..LeadingLength] + gap + data[LeadingLength..], e).fixed
    ensures |data| > 100 ==> Decode605(data, e).fixed.isProxied == (data[100] != 0)
  {
    var other := data[..LeadingLength] + gap + data[LeadingLength..];
    ShiftedWindows(data, gap);
    ResourceFieldsSame(data, 6, other, 8, e.fixed);
    var e1 := e.(fixed := ResourceFields(data, 6, e.fixed));
    SigningFieldsSame(data, 27, other, 29, e1.fixed);
    SignedPartsFixed(data, 27, e1);
    SignedPartsFixed(other, 29, e1);
  }

  // ---------------------------------------------------------------------------
  // The secondary section starts at offset 128

  /** Where the fixed block of a version's layout ends. */
  function FixedBlockEnd(version: int): nat {
    if version == 602 then LeadingLength + ReservedLength + ResourceFieldsLength
    else if version == 605 then 101
    else 102
  }

  lemma Decode603Gap(data: seq<byte>, other: seq<byte>, e: Entry)
    requires |data| == |other| >= SectionTwoOffset
    requires data[..102] == other[..102] && data[SectionTwoOffset..] == other[SectionTwoOffset..]
    ensures Decode603(other, e) == Decode603(data, e)
  {
    PrefixSameBytes(data, other, 102, 8, ResourceFieldsLength);
    ResourceFieldsSame(data, 8, other, 8, e.fixed);
    var e1 := e.(fixed := ResourceFields(data, 8, e.fixed));
    PrefixSameBytes(data, other, 102, 29, SigningFieldsLength);
    SigningFieldsSame(data, 29, other, 29, e1.fixed);
    SectionTwoCovered(data, other, SectionTwoOffset, e1.(fixed := SigningFields(data, 29, e1.fixed)));
  }

  lemma Decode605Gap(data: seq<byte>, other: seq<byte>, e: Entry)
    requires |data| == |other| >= SectionTwoOffset
    requires data[..101] == other[..101] && data[SectionTwoOffset..] == other[SectionTwoOffset..]
    ensures Decode605(other, e) == Decode605(data, e)
  {
    PrefixSameBytes(data, other, 101, 6, ResourceFieldsLength);
    ResourceFieldsSame(data, 6, other, 6, e.fixed);
    var e1 := e.(fixed := ResourceFields(data, 6, e.fixed));
    PrefixSameBytes(data, other, 101, 27, SigningFieldsLength + 1);
    SameBytesWithin(data, 27, other, 27, SigningFieldsLength + 1, 0, SigningFieldsLength);
    SigningFieldsSame(data, 27, other, 27, e1.fixed);
    assert data[100] == data[..101][100] && other[100] == other[..101][100];
    var e2 := e1.(fixed := SigningFields(data, 27, e1.fixed));
    SectionTwoCovered(data, other, SectionTwoOffset, e2.(fixed := e2.fixed.(isProxied := BoolAt(data, 100))));
  }

  /**
   * ReadSection2 seeks to offset 128 whatever the version: the bytes between
   * the end of the fixed block and offset 128 are never read.
   */
  lemma SectionTwoAtFixedOffset(data: seq<byte>, other: seq<byte>)
    requires |data| == |other| >= SectionTwoOffset && Int32At(data, 2) in {603, 604, 605}
    requires data[..FixedBlockEnd(Int32At(data, 2))] == other[..FixedBlockEnd(Int32At(data, 2))]
    requires data[SectionTwoOffset..] == other[SectionTwoOffset..]
    ensures Decode(other) == Decode(data)
  {
    var m := FixedBlockEnd(Int32At(data, 2));
    assert data[..LeadingLength] == data[..m][..LeadingLength];
    assert other[..LeadingLength] == other[..m][..LeadingLength];
    LeadingSame(data, other);
    if m == 102 {
      Decode603Gap(data, other, Leading(data));
    } else {
      Decode605Gap(data, other, Leading(data));
    }
  }

  /** What a layout decoded before its secondary section leaves unset. */
  predicate NoSectionTwoYet(e: Entry) {
    e.version == None && e.url == None && e.namespaceId == None && e.codebaseIp == None && e.headers == []
  }

  lemma OptionalSectionTwoFacts(data: seq<byte>, e: Entry)
    requires NoSectionTwoYet(e)
    ensures OptionalSectionTwo(data, e).fixed.section2Length <= 0 ==> NoSectionTwoYet(OptionalSectionTwo(data, e))
    ensures !OptionalSectionTwo(data, e).error && OptionalSectionTwo(data, e).fixed.section2Length > 0 ==>
              var r := OptionalSectionTwo(data, e);
              r.version.Some? && r.url.Some? && r.namespaceId.Some? && r.codebaseIp.Some?
  {
    SectionTwoKeeps(data, e);
  }

  lemma SignedPartsSectionTwo(data: seq<byte>, b: nat, e: Entry)
    requires NoSectionTwoYet(e)
    ensures var r := SignedPart603(data, b, e);
      (r.fixed.section2Length <= 0 ==> NoSectionTwoYet(r)) &&
      (!r.error && r.fixed.section2Length > 0 ==> r.version.Some? && r.url.Some? && r.namespaceId.Some? && r.codebaseIp.Some?)
    ensures var r := SignedPart605(data, b, e);
      (r.fixed.section2Length <= 0 ==> NoSectionTwoYet(r)) &&
      (!r.error && r.fixed.section2Length > 0 ==> r.version.Some? && r.url.Some? && r.namespaceId.Some? && r.codebaseIp.Some?)
  {
    var e2 := e.(fixed := SigningFields(data, b, e.fixed));
    OptionalSectionTwoFacts(data, e2);
    if b + SigningFieldsLength < |data| {
      OptionalSectionTwoFacts(data, e2.(fixed := e2.fixed.(isProxied := BoolAt(data, b + SigningFieldsLength))));
    }
  }

  /**
   * For versions 603 to 605 the strings and headers come only from the
   * secondary section: when its recorded length is not positive none of them
   * is set, and a decode without an error that read a positive length has
   * all four strings.
   */
  lemma SectionTwoOnlyWhenRecorded(data: seq<byte>)
    requires |data| >= LeadingLength && Int32At(data, 2) in {603, 604, 605}
    ensures Decode(data).fixed.section2Length <= 0 ==> NoSectionTwoYet(Decode(data))
    ensures !Decode(data).error && Decode(data).fixed.section2Length > 0 ==>
              Decode(data).version.Some? && Decode(data).url.Some? && Decode(data).namespaceId.Some? && Decode(data).codebaseIp.Some?
  {
    var e := Leading(data);
    if Int32At(data, 2) == 605 {
      SignedPartsSectionTwo(data, 27, e.(fixed := ResourceFields(data, 6, e.fixed)));
    } else {
      SignedPartsSectionTwo(data, 29, e.(fixed := ResourceFields(data, 8, e.fixed)));
    }
  }

  /** Every supported version fails on an input that ends inside its fixed block. */
  lemma ShortFixedBlock(data: seq<byte>)
    requires |data| >= LeadingLength && Int32At(data, 2) in {602, 603, 604, 605} && |data| < FixedBlockEnd(Int32At(data, 2))
    ensures Decode(data).error
  {
  }
}
