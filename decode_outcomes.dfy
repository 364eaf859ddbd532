/**
 * When a decode ends without the error flag, and what the strings and the
 * header list then hold: each layout decodes a stored record's strings and
 * headers back exactly, and the secondary section is read from offset 128.
 */
module DecodeOutcomes {
  import opened Primitives
  import opened IdxFormat
  import opened HeaderLists
  import opened DecodeProperties

  /** Where a version's fixed block keeps the section-2 length. */
  function SectionTwoLengthAt(version: int): nat {
    if version == 605 then 36 else 38
  }

  /** A string the format can store: one byte per character and a 16-bit length. */
  predicate StorableText(t: Text) {
    IsLatin1(t) && |t| < TwoTo16
  }

  /** A header list the format can store: storable pairs and a count that fits an int32. */
  predicate StorableList(ps: seq<NameValue>) {
    IsInt32(|ps|) && forall i :: 0 <= i < |ps| ==> Storable(ps[i])
  }

  // ---------------------------------------------------------------------------
  // Versions 603 to 605 without a secondary section

  /**
   * For versions 603 to 605, an input that holds the whole fixed block
   * records the section-2 length found at its offset, and when that length
   * is not positive the decode ends there without an error.
   */
  lemma CompleteFixedBlock(data: seq<byte>)
    requires |data| >= LeadingLength && Int32At(data, 2) in {603, 604, 605}
    requires |data| >= FixedBlockEnd(Int32At(data, 2))
    ensures Decode(data).fixed.section2Length == Int32At(data, SectionTwoLengthAt(Int32At(data, 2)))
    ensures Int32At(data, SectionTwoLengthAt(Int32At(data, 2))) <= 0 ==> !Decode(data).error
  {
    var e := Leading(data);
    if Int32At(data, 2) == 605 {
      SignedPartsFixed(data, 27, e.(fixed := ResourceFields(data, 6, e.fixed)));
    } else {
      SignedPartsFixed(data, 29, e.(fixed := ResourceFields(data, 8, e.fixed)));
    }
  }

  /** A secondary section read from a string stored at offset 128 takes that string as its version. */
  lemma SectionTwoVersion(data: seq<byte>, e: Entry)
    requires PrefixedTextAt(data, SectionTwoOffset).Some?
    ensures SectionTwo(data, e).version == Some(PrefixedTextAt(data, SectionTwoOffset).value.0)
  {
  }

  lemma SignedPartsVersion(data: seq<byte>, b: nat, e: Entry)
    requires b + SigningFieldsLength < SectionTwoOffset && PrefixedTextAt(data, SectionTwoOffset).Some?
    ensures SignedPart603(data, b, e).fixed.section2Length > 0 ==>
              SignedPart603(data, b, e).version == Some(PrefixedTextAt(data, SectionTwoOffset).value.0)
    ensures SignedPart605(data, b, e).fixed.section2Length > 0 ==>
              SignedPart605(data, b, e).version == Some(PrefixedTextAt(data, SectionTwoOffset).value.0)
  {
    SignedPartsFixed(data, b, e);
    var e2 := e.(fixed := SigningFields(data, b, e.fixed));
    SectionTwoVersion(data, e2);
    SectionTwoVersion(data, e2.(fixed := e2.fixed.(isProxied := BoolAt(data, b + SigningFieldsLength))));
  }

  /**
   * For versions 603 to 605, the version string comes from offset 128: when
   * the section is recorded and a string is stored there, it is that string.
   */
  lemma SectionTwoVersionAt128(data: seq<byte>)
    requires |data| >= LeadingLength && Int32At(data, 2) in {603, 604, 605}
    ensures Decode(data).fixed.section2Length > 0 && PrefixedTextAt(data, SectionTwoOffset).Some? ==>
              Decode(data).version == Some(PrefixedTextAt(data, SectionTwoOffset).value.0)
  {
    if PrefixedTextAt(data, SectionTwoOffset).Some? {
      var e := Leading(data);
      if Int32At(data, 2) == 605 {
        SignedPartsVersion(data, 27, e.(fixed := ResourceFields(data, 6, e.fixed)));
      } else {
        SignedPartsVersion(data, 29, e.(fixed := ResourceFields(data, 8, e.fixed)));
      }
    }
  }

  // ---------------------------------------------------------------------------
  // A stored secondary section

  /** A secondary section as stored: four prefixed strings, then a count and the pairs. */
  function EncodeSectionTwo(version: Text, url: Text, namespaceId: Text, codebaseIp: Text, ps: seq<NameValue>): seq<byte>
    requires StorableText(version) && StorableText(url) && StorableText(namespaceId) && StorableText(codebaseIp)
    requires StorableList(ps)
  {
    EncodePrefixed(version) + EncodePrefixed(url) + EncodePrefixed(namespaceId) + EncodePrefixed(codebaseIp)
    + EncodeInt32(|ps|) + EncodePairs(ps)
  }

  /** The stored secondary section split after each of its strings. */
  lemma NestSectionTwo(h: seq<byte>, x1: seq<byte>, x2: seq<byte>, x3: seq<byte>, x4: seq<byte>,
                       y1: seq<byte>, y2: seq<byte>, post: seq<byte>)
    ensures var data := h + (x1 + x2 + x3 + x4 + y1 + y2) + post;
      var list := y1 + y2 + post;
      && data == h + (x1 + (x2 + (x3 + (x4 + list))))
      && data == (h + x1) + (x2 + (x3 + (x4 + list)))
      && data == (h + x1 + x2) + (x3 + (x4 + list))
      && data == (h + x1 + x2 + x3) + (x4 + list)
      && data == (h + x1 + x2 + x3 + x4) + y1 + y2 + post
  {
  }

  /** The stored version-602 strings split after each of them. */
  lemma Nest602(h: seq<byte>, x1: seq<byte>, x2: seq<byte>, x3: seq<byte>, y1: seq<byte>, y2: seq<byte>, post: seq<byte>)
    ensures var data := h + (x1 + x2 + x3 + y1 + y2) + post;
      var list := y1 + y2 + post;
      && data == h + (x1 + (x2 + (x3 + list)))
      && data == (h + x1) + (x2 + (x3 + list))
      && data == (h + x1 + x2) + (x3 + list)
      && data == (h + x1 + x2 + x3) + y1 + y2 + post
  {
  }

  /** A stored string followed by anything reads back as itself, wherever it sits. */
  lemma PrefixedAt(pre: seq<byte>, t: Text, rest: seq<byte>)
    requires StorableText(t)
    ensures PrefixedTextAt(pre + (EncodePrefixed(t) + rest), |pre|) == Some((t, |pre + EncodePrefixed(t)|))
  {
    assert pre + (EncodePrefixed(t) + rest) == pre + EncodePrefixed(t) + rest;
    PrefixedTextRoundTrip(pre, t, rest);
  }

  /**
   * A stored secondary section at offset 128 decodes to its four strings and
   * its pairs, `<null>` names emptied, without an error.
   */
  lemma SectionTwoRoundTrip(head: seq<byte>, version: Text, url: Text, namespaceId: Text, codebaseIp: Text,
                            ps: seq<NameValue>, post: seq<byte>, e: Entry)
    requires |head| == SectionTwoOffset
    requires StorableText(version) && StorableText(url) && StorableText(namespaceId) && StorableText(codebaseIp)
    requires StorableList(ps)
    ensures SectionTwo(head + EncodeSectionTwo(version, url, namespaceId, codebaseIp, ps) + post, e)
         == e.(version := Some(version), url := Some(url), namespaceId := Some(namespaceId),
               codebaseIp := Some(codebaseIp), headers := e.headers + StandardHeaders(ps))
  {
    var list := EncodeInt32(|ps|) + EncodePairs(ps) + post;
    var a1 := head + EncodePrefixed(version);
    var a2 := a1 + EncodePrefixed(url);
    var a3 := a2 + EncodePrefixed(namespaceId);
    var a4 := a3 + EncodePrefixed(codebaseIp);
    NestSectionTwo(head, EncodePrefixed(version), EncodePrefixed(url), EncodePrefixed(namespaceId), EncodePrefixed(codebaseIp),
                   EncodeInt32(|ps|), EncodePairs(ps), post);
    PrefixedAt(head, version, EncodePrefixed(url) + (EncodePrefixed(namespaceId) + (EncodePrefixed(codebaseIp) + list)));
    PrefixedAt(a1, url, EncodePrefixed(namespaceId) + (EncodePrefixed(codebaseIp) + list));
    PrefixedAt(a2, namespaceId, EncodePrefixed(codebaseIp) + list);
    PrefixedAt(a3, codebaseIp, list);
    var e4 := e.(version := Some(version), url := Some(url), namespaceId := Some(namespaceId), codebaseIp := Some(codebaseIp));
    StandardHeaderListRoundTrip(a4, ps, post, e4);
  }

  /** A leading part keeps the int32 at `o` whatever follows it. */
  lemma Int32InHead(head: seq<byte>, rest: seq<byte>, o: nat)
    requires o + 4 <= |head|
    ensures Int32At(head + rest, o) == Int32At(head, o)
  {
    assert (head + rest)[o..o + 4] == head[o..o + 4];
    UInt32AtSame(head + rest, o, head, o);
  }

  /**
   * For versions 603 to 605, a fixed block that records a positive section-2
   * length, followed by a stored secondary section at offset 128, decodes
   * without an error to the strings and headers stored there.
   */
  lemma SectionTwoDecoded(head: seq<byte>, version: Text, url: Text, namespaceId: Text, codebaseIp: Text,
                          ps: seq<NameValue>, post: seq<byte>)
    requires |head| == SectionTwoOffset && Int32At(head, 2) in {603, 604, 605}
    requires Int32At(head, SectionTwoLengthAt(Int32At(head, 2))) > 0
    requires StorableText(version) && StorableText(url) && StorableText(namespaceId) && StorableText(codebaseIp)
    requires StorableList(ps)
    ensures var r := Decode(head + EncodeSectionTwo(version, url, namespaceId, codebaseIp, ps) + post);
      !r.error && r.version == Some(version) && r.url == Some(url) && r.namespaceId == Some(namespaceId)
      && r.codebaseIp == Some(codebaseIp) && r.headers == StandardHeaders(ps)
  {
    var rest := EncodeSectionTwo(version, url, namespaceId, codebaseIp, ps) + post;
    var data := head + EncodeSectionTwo(version, url, namespaceId, codebaseIp, ps) + post;
    assert data == head + rest;
    Int32InHead(head, rest, 2);
    var at := SectionTwoLengthAt(Int32At(head, 2));
    Int32InHead(head, rest, at);
    var e := Leading(data);
    if Int32At(head, 2) == 605 {
      var e1 := e.(fixed := ResourceFields(data, 6, e.fixed));
      var e2 := e1.(fixed := SigningFields(data, 27, e1.fixed));
      var e3 := e2.(fixed := e2.fixed.(isProxied := BoolAt(data, 100)));
      assert e3.fixed.section2Length == Int32At(data, 36);
      assert Decode(data) == SectionTwo(data, e3);
      SectionTwoRoundTrip(head, version, url, namespaceId, codebaseIp, ps, post, e3);
    } else {
      var e1 := e.(fixed := ResourceFields(data, 8, e.fixed));
      var e2 := e1.(fixed := SigningFields(data, 29, e1.fixed));
      assert e2.fixed.section2Length == Int32At(data, 38);
      assert Decode(data) == SectionTwo(data, e2);
      SectionTwoRoundTrip(head, version, url, namespaceId, codebaseIp, ps, post, e2);
    }
  }

  // ---------------------------------------------------------------------------
  // A stored version-602 record

  /** The variable part of a version-602 record: three prefixed strings, then a count and the pairs. */
  function Encode602Strings(version: Text, url: Text, namespaceId: Text, ps: seq<NameValue>): seq<byte>
    requires StorableText(version) && StorableText(url) && StorableText(namespaceId)
    requires StorableList(ps)
  {
    EncodePrefixed(version) + EncodePrefixed(url) + EncodePrefixed(namespaceId) + EncodeInt32(|ps|) + EncodePairs(ps)
  }

  /**
   * Version 602's stored strings and header list decode to those strings,
   * the pairs not named for the codebase IP and the last codebase IP, without an error.
   */
  lemma Strings602RoundTrip(pre: seq<byte>, version: Text, url: Text, namespaceId: Text,
                            ps: seq<NameValue>, post: seq<byte>, e: Entry)
    requires StorableText(version) && StorableText(url) && StorableText(namespaceId)
    requires StorableList(ps)
    ensures Strings602(pre + Encode602Strings(version, url, namespaceId, ps) + post, |pre|, e)
         == e.(version := Some(version), url := Some(url), namespaceId := Some(namespaceId),
               headers := e.headers + VisibleHeaders(ps), codebaseIp := LastCodebaseIp(ps, e.codebaseIp))
  {
    var list := EncodeInt32(|ps|) + EncodePairs(ps) + post;
    var a1 := pre + EncodePrefixed(version);
    var a2 := a1 + EncodePrefixed(url);
    var a3 := a2 + EncodePrefixed(namespaceId);
    Nest602(pre, EncodePrefixed(version), EncodePrefixed(url), EncodePrefixed(namespaceId), EncodeInt32(|ps|), EncodePairs(ps), post);
    PrefixedAt(pre, version, EncodePrefixed(url) + (EncodePrefixed(namespaceId) + list));
    PrefixedAt(a1, url, EncodePrefixed(namespaceId) + list);
    PrefixedAt(a2, namespaceId, list);
    var e3 := e.(version := Some(version), url := Some(url), namespaceId := Some(namespaceId));
    LegacyHeaderListRoundTrip(a3, ps, post, e3);
  }

  /**
   * A version-602 fixed block followed by stored strings and a stored header
   * list decodes without an error to those strings and headers, the codebase
   * IP taken from the last pair named for it.
   */
  lemma Version602Decoded(head: seq<byte>, version: Text, url: Text, namespaceId: Text,
                          ps: seq<NameValue>, post: seq<byte>)
    requires |head| == FixedBlockEnd(602) && Int32At(head, 2) == 602
    requires StorableText(version) && StorableText(url) && StorableText(namespaceId)
    requires StorableList(ps)
    ensures var r := Decode(head + Encode602Strings(version, url, namespaceId, ps) + post);
      !r.error && r.version == Some(version) && r.url == Some(url) && r.namespaceId == Some(namespaceId)
      && r.headers == VisibleHeaders(ps) && r.codebaseIp == LastCodebaseIp(ps, None)
  {
    var rest := Encode602Strings(version, url, namespaceId, ps) + post;
    var data := head + Encode602Strings(version, url, namespaceId, ps) + post;
    assert data == head + rest;
    Int32InHead(head, rest, 2);
    var e := Leading(data);
    var e1 := e.(fixed := ResourceFields(data, 8, e.fixed));
    assert Decode(data) == Strings602(data, |head|, e1);
    Strings602RoundTrip(head, version, url, namespaceId, ps, post, e1);
  }
}
