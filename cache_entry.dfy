/**
 * The CacheEntry object: its constructor parses the file, assigning the
 * entry's fields one after another as it reads them from the stream. Each
 * source method that wraps its reads in try/catch is modelled as a pair: a
 * `Try...` method holding the try block, whose reads give up on the first
 * short read through `:-`, and the method itself, which plays the catch
 * block by setting the error flag.
 *
 * The fields of the fixed-offset block are kept together in the record-valued
 * field `fixed`, and every read that assigns one of them updates that one
 * component. The long run of reads the source performs for those fields is
 * split into methods of a few reads each, one per run of IdxFormat.
 *
 * Every method is proved against the decoding functions of IdxFormat, so the
 * constructor leaves the object equal to `Decode` of the file's bytes.
 */
module CacheEntries {
  import opened Primitives
  import opened IdxFormat
  import opened ByteStreams
  import HeadersDisplay
  import HeaderLists

  /** The entry after a try block: the catch sets the error flag when the block failed. */
  function Caught(r: Outcome, e: Entry): (e': Entry)
    ensures e'.error == (e.error || r.Fail?)
    ensures e'.(error := e.error) == e
  {
    if r.Fail? then WithError(e) else e
  }

  /** One stored header pair: a prefixed name, then a prefixed value. */
  method ReadStoredPair(s: ByteStream) returns (r: Read<NameValue>)
    modifies s
    ensures r.Got? <==> ReadPair(s.data, old(s.pos)).Some?
    ensures r.Got? ==> (r.value, s.pos) == ReadPair(s.data, old(s.pos)).value
  {
    var name := s.ReadPrefixedString();
    if name.Truncated? {
      return Truncated;
    }
    var value := s.ReadPrefixedString();
    if value.Truncated? {
      return Truncated;
    }
    r := Got(NameValue(name.value, value.value));
  }

  /** The loop's step for the standard list: the one-pair case of HeaderLists.StandardHeadersConcat. */
  lemma StandardHeadersAppend(h0: seq<NameValue>, ps: seq<NameValue>, nv: NameValue)
    ensures h0 + StandardHeaders(ps + [nv]) == (h0 + StandardHeaders(ps)) + [NullToEmpty(nv)]
  {
    HeaderLists.StandardHeadersConcat(ps, [nv]);
    assert [nv][..0] == [];
    assert h0 + (StandardHeaders(ps) + [NullToEmpty(nv)]) == (h0 + StandardHeaders(ps)) + [NullToEmpty(nv)];
  }

  /** The loop's step for the version-602 list: the one-pair case of HeaderLists.VisibleHeadersConcat. */
  lemma VisibleHeadersAppend(h0: seq<NameValue>, ps: seq<NameValue>, nv: NameValue, prior: Option<Text>)
    ensures nv.name == CodebaseIpName ==> h0 + VisibleHeaders(ps + [nv]) == h0 + VisibleHeaders(ps)
    ensures nv.name != CodebaseIpName ==> h0 + VisibleHeaders(ps + [nv]) == (h0 + VisibleHeaders(ps)) + [nv]
    ensures LastCodebaseIp(ps + [nv], prior) == if nv.name == CodebaseIpName then Some(nv.value) else LastCodebaseIp(ps, prior)
  {
    HeaderLists.VisibleHeadersConcat(ps, [nv]);
    assert (ps + [nv])[..|ps|] == ps;
    assert [nv][..0] == [];
    assert h0 + (VisibleHeaders(ps) + [nv]) == (h0 + VisibleHeaders(ps)) + [nv];
    assert VisibleHeaders(ps) + [] == VisibleHeaders(ps);
  }

  /** One more pair read: the run so far grows by that pair. */
  lemma ReadPairsAdvance(data: seq<byte>, p0: nat, count: int, seen: seq<NameValue>, p: nat, index: int)
    requires index > 0 && ReadPair(data, p).Some?
    requires ReadPairs(data, p0, count) == Prepend(seen, ReadPairs(data, p, index))
    ensures ReadPairs(data, p0, count)
         == Prepend(seen + [ReadPair(data, p).value.0], ReadPairs(data, ReadPair(data, p).value.1, index - 1))
  {
    assert ReadPairs(data, p, index) == PairsFrom(data, p, index);
    var rest := ReadPairs(data, ReadPair(data, p).value.1, index - 1);
    assert seen + ([ReadPair(data, p).value.0] + rest.pairs) == (seen + [ReadPair(data, p).value.0]) + rest.pairs;
  }

  /** A pair that does not fit ends the run, incomplete. */
  lemma ReadPairsStop(data: seq<byte>, p0: nat, count: int, seen: seq<NameValue>, p: nat, index: int)
    requires index > 0 && ReadPair(data, p).None?
    requires ReadPairs(data, p0, count) == Prepend(seen, ReadPairs(data, p, index))
    ensures ReadPairs(data, p0, count) == PairRun(seen, false)
  {
    assert ReadPairs(data, p, index) == PairsFrom(data, p, index);
    assert seen + [] == seen;
  }

  /** A count run down to zero ends the run, complete. */
  lemma ReadPairsDone(data: seq<byte>, p0: nat, count: int, seen: seq<NameValue>, p: nat, index: int)
    requires index <= 0
    requires ReadPairs(data, p0, count) == Prepend(seen, ReadPairs(data, p, index))
    ensures ReadPairs(data, p0, count) == PairRun(seen, true)
  {
    assert seen + [] == seen;
  }

  class CacheEntry {
    var busy: bool
    var incomplete: bool
    var cacheVersion: int
    /** IsShortcutImage through IsProxied: the fields at fixed offsets after the version code. */
    var fixed: FixedFields
    var version: Option<Text>
    var url: Option<Text>
    var namespaceId: Option<Text>
    var codebaseIp: Option<Text>
    var headers: seq<NameValue>
    var error: bool

    /** The object's fields as an Entry value. */
    function Snapshot(): Entry
      reads this
    {
      Entry(busy, incomplete, cacheVersion, fixed, version, url, namespaceId, codebaseIp, headers, error)
    }

    /** Creates the entry for a file whose contents are `contents`, parsing it at once. */
    constructor (contents: seq<byte>)
      ensures Snapshot() == Decode(contents)
    {
      busy, incomplete, cacheVersion := false, false, 0;
      fixed := InitialFixed;
      version, url, namespaceId, codebaseIp := None, None, None, None;
      headers := [];
      error := false;
      new;
      var stream := new ByteStream(contents);
      Parse(stream);
    }

    method Parse(s: ByteStream)
      requires s.pos == 0 && Snapshot() == Initial
      modifies this, s
      ensures Snapshot() == Decode(s.data)
    {
      var r := TryParse(s);
      if r.Fail? {
        error := true;
      }
    }

    /** The leading fields, then the layout the cache version selects. */
    method TryParse(s: ByteStream) returns (r: Outcome)
      requires s.pos == 0 && Snapshot() == Initial
      modifies this, s
      ensures Caught(r, Snapshot()) == Decode(s.data)
    {
      r := Pass;
      busy :- s.ReadBool();
      incomplete :- s.ReadBool();
      cacheVersion :- s.ReadInt32();
      if cacheVersion == 602 {
        r := TryParse602(s);
      } else if cacheVersion == 603 || cacheVersion == 604 {
        r := TryParse603(s);
      } else if cacheVersion == 605 {
        r := TryParse605(s);
      }
      // any other version: the entry keeps only its leading fields
    }

    method TryParse602(s: ByteStream) returns (r: Outcome)
      requires s.pos == LeadingLength
      modifies this`fixed, this`version, this`url, this`namespaceId, this`codebaseIp, this`headers, this`error, s
      ensures Caught(r, Snapshot()) == Decode602(s.data, old(Snapshot()))
    {
      r := Pass;
      var reserved :- s.ReadByte();
      reserved :- s.ReadByte();
      :- TryReadResourceFields(s);
      r := TryReadStrings602(s);
    }

    /** Version 602 keeps its strings and its header list right after the resource fields. */
    method TryReadStrings602(s: ByteStream) returns (r: Outcome)
      modifies this`version, this`url, this`namespaceId, this`codebaseIp, this`headers, this`error, s
      ensures Caught(r, Snapshot()) == Strings602(s.data, old(s.pos), old(Snapshot()))
    {
      r := Pass;
      var text :- s.ReadPrefixedString();
      version := Some(text);
      text :- s.ReadPrefixedString();
      url := Some(text);
      text :- s.ReadPrefixedString();
      namespaceId := Some(text);
      ReadHeaders602(s);
    }

    method TryParse603(s: ByteStream) returns (r: Outcome)
      requires s.pos == LeadingLength
      modifies this`fixed, this`version, this`url, this`namespaceId, this`codebaseIp, this`headers, this`error, s
      ensures Caught(r, Snapshot()) == Decode603(s.data, old(Snapshot()))
    {
      r := Pass;
      var reserved :- s.ReadByte();
      reserved :- s.ReadByte();
      :- TryReadResourceFields(s);
      r := TryReadSignedPart603(s);
    }

    /** The signing fields of versions 603 and 604, then the secondary section if it has a length. */
    method TryReadSignedPart603(s: ByteStream) returns (r: Outcome)
      modifies this`fixed, this`version, this`url, this`namespaceId, this`codebaseIp, this`headers, this`error, s
      ensures Caught(r, Snapshot()) == SignedPart603(s.data, old(s.pos), old(Snapshot()))
    {
      r := Pass;
      :- TryReadSigningFields(s);
      if fixed.section2Length > 0 {
        ReadSection2(s);
      }
    }

    method TryParse605(s: ByteStream) returns (r: Outcome)
      requires s.pos == LeadingLength
      modifies this`fixed, this`version, this`url, this`namespaceId, this`codebaseIp, this`headers, this`error, s
      ensures Caught(r, Snapshot()) == Decode605(s.data, old(Snapshot()))
    {
      r := Pass;
      :- TryReadResourceFields(s);
      r := TryReadSignedPart605(s);
    }

    /** The signing fields of version 605, the proxied flag, then the secondary section if it has a length. */
    method TryReadSignedPart605(s: ByteStream) returns (r: Outcome)
      modifies this`fixed, this`version, this`url, this`namespaceId, this`codebaseIp, this`headers, this`error, s
      ensures Caught(r, Snapshot()) == SignedPart605(s.data, old(s.pos), old(Snapshot()))
    {
      r := Pass;
      :- TryReadSigningFields(s);
      var proxied :- s.ReadBool();
      fixed := fixed.(isProxied := proxied);
      if fixed.section2Length > 0 {
        ReadSection2(s);
      }
    }

    // -------------------------------------------------------------------------
    // The fixed-offset fields, a few reads at a time

    method TryReadResourceFields(s: ByteStream) returns (r: Outcome)
      modifies this`fixed, s
      ensures r.Pass? <==> old(s.pos) + ResourceFieldsLength <= |s.data|
      ensures r.Pass? ==> s.pos == old(s.pos) + ResourceFieldsLength
      ensures fixed == ResourceFields(s.data, old(s.pos), old(fixed))
    {
      r := Pass;
      :- TryReadContentFields(s);
      :- TryReadDateFields(s);
    }

    method TryReadContentFields(s: ByteStream) returns (r: Outcome)
      modifies this`fixed, s
      ensures r.Pass? <==> old(s.pos) + 5 <= |s.data|
      ensures r.Pass? ==> s.pos == old(s.pos) + 5
      ensures fixed == ContentFields(s.data, old(s.pos), old(fixed))
    {
      r := Pass;
      var flag :- s.ReadBool();
      fixed := fixed.(isShortcutImage := flag);
      var length :- s.ReadInt32();
      fixed := fixed.(contentLength := length);
    }

    method TryReadDateFields(s: ByteStream) returns (r: Outcome)
      modifies this`fixed, s
      ensures r.Pass? <==> old(s.pos) + 16 <= |s.data|
      ensures r.Pass? ==> s.pos == old(s.pos) + 16
      ensures fixed == DateFields(s.data, old(s.pos), old(fixed))
    {
      r := Pass;
      var time :- s.ReadJavaEpoch();
      fixed := fixed.(lastModified := time);
      time :- s.ReadJavaEpoch();
      fixed := fixed.(expirationDate := time);
    }

    method TryReadSigningFields(s: ByteStream) returns (r: Outcome)
      modifies this`fixed, s
      ensures r.Pass? <==> old(s.pos) + SigningFieldsLength <= |s.data|
      ensures r.Pass? ==> s.pos == old(s.pos) + SigningFieldsLength
      ensures fixed == SigningFields(s.data, old(s.pos), old(fixed))
    {
      r := Pass;
      :- TryReadSignatureFields(s);
      :- TryReadSectionLengths(s);
      :- TryReadCertificateFields(s);
      :- TryReadManifestFields(s);
      :- TryReadCodeSourceFields(s);
      :- TryReadLibraryFields(s);
    }

    method TryReadSignatureFields(s: ByteStream) returns (r: Outcome)
      modifies this`fixed, s
      ensures r.Pass? <==> old(s.pos) + 13 <= |s.data|
      ensures r.Pass? ==> s.pos == old(s.pos) + 13
      ensures fixed == SignatureFields(s.data, old(s.pos), old(fixed))
    {
      r := Pass;
      var time :- s.ReadJavaEpoch();
      fixed := fixed.(validationTimestamp := time);
      var flag :- s.ReadBool();
      fixed := fixed.(knownToBeSigned := flag);
      var length :- s.ReadInt32();
      fixed := fixed.(section2Length := length);
    }

    method TryReadSectionLengths(s: ByteStream) returns (r: Outcome)
      modifies this`fixed, s
      ensures r.Pass? <==> old(s.pos) + 12 <= |s.data|
      ensures r.Pass? ==> s.pos == old(s.pos) + 12
      ensures fixed == SectionLengths(s.data, old(s.pos), old(fixed))
    {
      r := Pass;
      var length :- s.ReadInt32();
      fixed := fixed.(section3Length := length);
      length :- s.ReadInt32();
      fixed := fixed.(section4Length := length);
      length :- s.ReadInt32();
      fixed := fixed.(section5Length := length);
    }

    method TryReadCertificateFields(s: ByteStream) returns (r: Outcome)
      modifies this`fixed, s
      ensures r.Pass? <==> old(s.pos) + 17 <= |s.data|
      ensures r.Pass? ==> s.pos == old(s.pos) + 17
      ensures fixed == CertificateFields(s.data, old(s.pos), old(fixed))
    {
      r := Pass;
      var time :- s.ReadJavaEpoch();
      fixed := fixed.(blackListValidationTime := time);
      time :- s.ReadJavaEpoch();
      fixed := fixed.(certExpirationDate := time);
      var flag :- s.ReadBool();
      fixed := fixed.(classVerificationStatus := flag);
    }

    method TryReadManifestFields(s: ByteStream) returns (r: Outcome)
      modifies this`fixed, s
      ensures r.Pass? <==> old(s.pos) + 9 <= |s.data|
      ensures r.Pass? ==> s.pos == old(s.pos) + 9
      ensures fixed == ManifestFields(s.data, old(s.pos), old(fixed))
    {
      r := Pass;
      var length :- s.ReadInt32();
      fixed := fixed.(reducedManifestLength := length);
      length :- s.ReadInt32();
      fixed := fixed.(section4Pre15Length := length);
      var flag :- s.ReadBool();
      fixed := fixed.(hasOnlySignedEntries := flag);
    }

    method TryReadCodeSourceFields(s: ByteStream) returns (r: Outcome)
      modifies this`fixed, s
      ensures r.Pass? <==> old(s.pos) + 9 <= |s.data|
      ensures r.Pass? ==> s.pos == old(s.pos) + 9
      ensures fixed == CodeSourceFields(s.data, old(s.pos), old(fixed))
    {
      r := Pass;
      var flag :- s.ReadBool();
      fixed := fixed.(hasSingleCodeSource := flag);
      var length :- s.ReadInt32();
      fixed := fixed.(section4CertsLength := length);
      length :- s.ReadInt32();
      fixed := fixed.(section4SignersLength := length);
    }

    method TryReadLibraryFields(s: ByteStream) returns (r: Outcome)
      modifies this`fixed, s
      ensures r.Pass? <==> old(s.pos) + 13 <= |s.data|
      ensures r.Pass? ==> s.pos == old(s.pos) + 13
      ensures fixed == LibraryFields(s.data, old(s.pos), old(fixed))
    {
      r := Pass;
      var flag :- s.ReadBool();
      fixed := fixed.(hasMissingSignedEntries := flag);
      var time :- s.ReadJavaEpoch();
      fixed := fixed.(trustedLibrariesValidationTime := time);
      var length :- s.ReadInt32();
      fixed := fixed.(reducedManifest2Length := length);
    }

    // -------------------------------------------------------------------------
    // The secondary section and the header lists

    method ReadSection2(s: ByteStream)
      modifies this`version, this`url, this`namespaceId, this`codebaseIp, this`headers, this`error, s
      ensures Snapshot() == SectionTwo(s.data, old(Snapshot()))
    {
      var r := TryReadSection2(s);
      if r.Fail? {
        error := true;
      }
    }

    /** Seeks to offset 128 and reads four strings and the standard header list. */
    method TryReadSection2(s: ByteStream) returns (r: Outcome)
      modifies this`version, this`url, this`namespaceId, this`codebaseIp, this`headers, this`error, s
      ensures Caught(r, Snapshot()) == SectionTwo(s.data, old(Snapshot()))
    {
      r := Pass;
      s.Seek(SectionTwoOffset);
      var text :- s.ReadPrefixedString();
      version := Some(text);
      text :- s.ReadPrefixedString();
      url := Some(text);
      text :- s.ReadPrefixedString();
      namespaceId := Some(text);
      text :- s.ReadPrefixedString();
      codebaseIp := Some(text);
      ReadHeaders(s);
    }

    method ReadHeaders(s: ByteStream)
      modifies this`headers, this`error, s
      ensures Snapshot() == StandardHeaderList(s.data, old(s.pos), old(Snapshot()))
    {
      var r := TryReadHeaders(s);
      if r.Fail? {
        error := true;
      }
    }

    /** The standard decoder's step for one pair: a `<null>` name is stored as an empty name. */
    method AppendStandardHeader(pair: NameValue)
      modifies this`headers
      ensures headers == old(headers) + [NullToEmpty(pair)]
    {
      var name := pair.name;
      if name == NullName {
        name := "";
      }
      headers := headers + [NameValue(name, pair.value)];
    }

    /** The version-602 decoder's step for one pair: a codebase-IP pair sets the codebase IP, any other is appended. */
    method AppendLegacyHeader(pair: NameValue)
      modifies this`headers, this`codebaseIp
      ensures pair.name == CodebaseIpName ==> headers == old(headers) && codebaseIp == Some(pair.value)
      ensures pair.name != CodebaseIpName ==> headers == old(headers) + [pair] && codebaseIp == old(codebaseIp)
    {
      if pair.name == CodebaseIpName {
        codebaseIp := Some(pair.value);
      } else {
        headers := headers + [pair];
      }
    }

    /** The stored count, then the pairs it announces. */
    method TryReadHeaders(s: ByteStream) returns (r: Outcome)
      modifies this`headers, s
      ensures Caught(r, Snapshot()) == StandardHeaderList(s.data, old(s.pos), old(Snapshot()))
    {
      var count :- s.ReadInt32();
      r := TryAppendHeaders(s, count);
    }

    /** Counts down from `count`, appending each pair read with a `<null>` name emptied. */
    method TryAppendHeaders(s: ByteStream, count: int) returns (r: Outcome)
      modifies this`headers, s
      ensures headers == old(headers) + StandardHeaders(ReadPairs(s.data, old(s.pos), count).pairs)
      ensures r.Pass? <==> ReadPairs(s.data, old(s.pos), count).complete
    {
      ghost var h0, p0 := headers, s.pos;
      ghost var seen: seq<NameValue> := [];
      var index := count;
      while index > 0
        invariant headers == h0 + StandardHeaders(seen)
        invariant ReadPairs(s.data, p0, count) == Prepend(seen, ReadPairs(s.data, s.pos, index))
        decreases index
      {
        ghost var start := s.pos;
        var pair := ReadStoredPair(s);
        if pair.Truncated? {
          ReadPairsStop(s.data, p0, count, seen, start, index);
          return Fail;
        }
        AppendStandardHeader(pair.value);
        StandardHeadersAppend(h0, seen, pair.value);
        ReadPairsAdvance(s.data, p0, count, seen, start, index);
        seen := seen + [pair.value];
        index := index - 1;
      }
      ReadPairsDone(s.data, p0, count, seen, s.pos, index);
      r := Pass;
    }

    method ReadHeaders602(s: ByteStream)
      modifies this`headers, this`codebaseIp, this`error, s
      ensures Snapshot() == LegacyHeaderList(s.data, old(s.pos), old(Snapshot()))
    {
      var r := TryReadHeaders602(s);
      if r.Fail? {
        error := true;
      }
    }

    /** The stored count, then the pairs it announces. */
    method TryReadHeaders602(s: ByteStream) returns (r: Outcome)
      modifies this`headers, this`codebaseIp, s
      ensures Caught(r, Snapshot()) == LegacyHeaderList(s.data, old(s.pos), old(Snapshot()))
    {
      var count :- s.ReadInt32();
      r := TryAppendHeaders602(s, count);
    }

    /** Counts down from `count`; a codebase-IP pair sets the codebase IP, any other pair is appended. */
    method TryAppendHeaders602(s: ByteStream, count: int) returns (r: Outcome)
      modifies this`headers, this`codebaseIp, s
      ensures headers == old(headers) + VisibleHeaders(ReadPairs(s.data, old(s.pos), count).pairs)
      ensures codebaseIp == LastCodebaseIp(ReadPairs(s.data, old(s.pos), count).pairs, old(codebaseIp))
      ensures r.Pass? <==> ReadPairs(s.data, old(s.pos), count).complete
    {
      ghost var h0, c0, p0 := headers, codebaseIp, s.pos;
      ghost var seen: seq<NameValue> := [];
      var index := count;
      while index > 0
        invariant headers == h0 + VisibleHeaders(seen)
        invariant codebaseIp == LastCodebaseIp(seen, c0)
        invariant ReadPairs(s.data, p0, count) == Prepend(seen, ReadPairs(s.data, s.pos, index))
        decreases index
      {
        ghost var start := s.pos;
        var pair := ReadStoredPair(s);
        if pair.Truncated? {
          ReadPairsStop(s.data, p0, count, seen, start, index);
          return Fail;
        }
        AppendLegacyHeader(pair.value);
        VisibleHeadersAppend(h0, seen, pair.value, c0);
        ReadPairsAdvance(s.data, p0, count, seen, start, index);
        seen := seen + [pair.value];
        index := index - 1;
      }
      ReadPairsDone(s.data, p0, count, seen, s.pos, index);
      r := Pass;
    }

    // -------------------------------------------------------------------------
    // HeadersText

    /** HeadersText: one item per header, collected in list order, then joined with commas. */
    method HeadersText() returns (text: Text)
      ensures text == HeadersDisplay.HeadersText(headers)
    {
      var items: seq<Text> := [];
      for i := 0 to |headers|
        invariant items == HeadersDisplay.Rendered(headers[..i])
      {
        var h := headers[i];
        var item: Text;
        if |HeadersDisplay.Trim(h.name)| > 0 {
          item := " " + h.name + ": " + h.value;
        } else {
          item := " " + h.value;
        }
        assert headers[..i + 1][..i] == headers[..i];
        items := items + [item];
      }
      assert headers[..|headers|] == headers;
      text := HeadersDisplay.Join(",", items);
    }
  }
}
