/**
 * The IDX cache-entry record and what decoding a file yields, stated as
 * functions of the file's bytes.
 *
 * The decoder stops at the first read that runs past the end of the input
 * and sets the error flag; every field it assigned before that keeps its
 * value. Up to the optional secondary section every field has a fixed
 * offset, so a field of that leading part is assigned exactly when the input
 * reaches the end of that field; the strings and the header list that follow
 * have variable lengths and are read one after another.
 */
module IdxFormat {
  import opened Primitives

  /** busy (1), incomplete (1), cache version (4). */
  const LeadingLength: nat := 6
  /** Two reserved bytes that versions 602, 603 and 604 skip. */
  const ReservedLength: nat := 2
  /** Shortcut-image flag, content length, last-modified and expiration timestamps. */
  const ResourceFieldsLength: nat := 21
  /** The fields from the validation timestamp to the second reduced-manifest length. */
  const SigningFieldsLength: nat := 73
  /** The secondary section always starts here (SECTION1_HEADER_LENGTH). */
  const SectionTwoOffset: nat := 128

  /** The header name that the standard header list reads as an empty name. */
  const NullName: Text := "<null>"
  /** The header name that the version-602 header list turns into the codebase IP. */
  const CodebaseIpName: Text := "deploy_resource_codebase_ip"

  datatype NameValue = NameValue(name: Text, value: Text)

  /** The fields of the fixed-offset block that follows the leading fields. */
  datatype FixedFields = FixedFields(
    isShortcutImage: bool,
    contentLength: int,
    lastModified: Timestamp,
    expirationDate: Timestamp,
    validationTimestamp: Timestamp,
    knownToBeSigned: bool,
    section2Length: int,
    section3Length: int,
    section4Length: int,
    section5Length: int,
    blackListValidationTime: Timestamp,
    certExpirationDate: Timestamp,
    classVerificationStatus: bool,
    reducedManifestLength: int,
    section4Pre15Length: int,
    hasOnlySignedEntries: bool,
    hasSingleCodeSource: bool,
    section4CertsLength: int,
    section4SignersLength: int,
    hasMissingSignedEntries: bool,
    trustedLibrariesValidationTime: Timestamp,
    reducedManifest2Length: int,
    isProxied: bool)

  /** The observable state of a cache entry once decoding is over. */
  datatype Entry = Entry(
    busy: bool,
    incomplete: bool,
    cacheVersion: int,
    fixed: FixedFields,
    version: Option<Text>,
    url: Option<Text>,
    namespaceId: Option<Text>,
    codebaseIp: Option<Text>,
    headers: seq<NameValue>,
    error: bool)

  const InitialFixed: FixedFields :=
    FixedFields(false, 0, Unset, Unset, Unset, false, 0, 0, 0, 0, Unset, Unset, false,
                0, 0, false, false, 0, 0, false, Unset, 0, false)

  /** A newly constructed entry: default field values and an empty header list. */
  const Initial: Entry := Entry(false, false, 0, InitialFixed, None, None, None, None, [], false)

  /** The entry as the catch block leaves it after a short read. */
  function WithError(e: Entry): Entry { e.(error := true) }

  // ---------------------------------------------------------------------------
  // ---------------------------------------------------------------------------
  // Fixed-offset fields: assigned when the input reaches the field's end

  function BoolOr(data: seq<byte>, o: nat, prior: bool): bool {
    if o + 1 <= |data| then BoolAt(data, o) else prior
  }

  function Int32Or(data: seq<byte>, o: nat, prior: int): int {
    if o + 4 <= |data| then Int32At(data, o) else prior
  }

  function TimestampOr(data: seq<byte>, o: nat, prior: Timestamp): Timestamp {
    if o + 8 <= |data| then JavaMillis(Int64At(data, o)) else prior
  }

  // The fixed-offset block is read in short runs of consecutive fields. Each
  // run below starts at offset `b`; when the input ends at or before `b` the
  // run assigns nothing.

  /** Shortcut-image flag (1 byte) and content length (4). */
  function ContentFields(data: seq<byte>, b: nat, f: FixedFields): (g: FixedFields)
    ensures |data| <= b ==> g == f
  {
    f.(isShortcutImage := BoolOr(data, b, f.isShortcutImage),
       contentLength := Int32Or(data, b + 1, f.contentLength))
  }

  /** Last-modified (8 bytes) and expiration (8) timestamps. */
  function DateFields(data: seq<byte>, b: nat, f: FixedFields): (g: FixedFields)
    ensures |data| <= b ==> g == f
  {
    f.(lastModified := TimestampOr(data, b, f.lastModified),
       expirationDate := TimestampOr(data, b + 8, f.expirationDate))
  }

  /** The four resource fields every supported version reads: 21 bytes from `b`. */
  function ResourceFields(data: seq<byte>, b: nat, f: FixedFields): FixedFields {
    DateFields(data, b + 5, ContentFields(data, b, f))
  }

  /** Validation timestamp (8 bytes), known-to-be-signed flag (1), section 2 length (4). */
  function SignatureFields(data: seq<byte>, b: nat, f: FixedFields): (g: FixedFields)
    ensures |data| <= b ==> g == f
  {
    f.(validationTimestamp := TimestampOr(data, b, f.validationTimestamp),
       knownToBeSigned := BoolOr(data, b + 8, f.knownToBeSigned),
       section2Length := Int32Or(data, b + 9, f.section2Length))
  }

  /** Section 3, 4 and 5 lengths (4 bytes each). */
  function SectionLengths(data: seq<byte>, b: nat, f: FixedFields): (g: FixedFields)
    ensures |data| <= b ==> g == f
  {
    f.(section3Length := Int32Or(data, b, f.section3Length),
       section4Length := Int32Or(data, b + 4, f.section4Length),
       section5Length := Int32Or(data, b + 8, f.section5Length))
  }

  /** Blacklist validation time (8 bytes), certificate expiration (8), class verification status (1). */
  function CertificateFields(data: seq<byte>, b: nat, f: FixedFields): (g: FixedFields)
    ensures |data| <= b ==> g == f
  {
    f.(blackListValidationTime := TimestampOr(data, b, f.blackListValidationTime),
       certExpirationDate := TimestampOr(data, b + 8, f.certExpirationDate),
       classVerificationStatus := BoolOr(data, b + 16, f.classVerificationStatus))
  }

  /** Reduced manifest length (4 bytes), section 4 pre-1.5 length (4), only-signed-entries flag (1). */
  function ManifestFields(data: seq<byte>, b: nat, f: FixedFields): (g: FixedFields)
    ensures |data| <= b ==> g == f
  {
    f.(reducedManifestLength := Int32Or(data, b, f.reducedManifestLength),
       section4Pre15Length := Int32Or(data, b + 4, f.section4Pre15Length),
       hasOnlySignedEntries := BoolOr(data, b + 8, f.hasOnlySignedEntries))
  }

  /** Single-code-source flag (1 byte), section 4 certificates length (4), signers length (4). */
  function CodeSourceFields(data: seq<byte>, b: nat, f: FixedFields): (g: FixedFields)
    ensures |data| <= b ==> g == f
  {
    f.(hasSingleCodeSource := BoolOr(data, b, f.hasSingleCodeSource),
       section4CertsLength := Int32Or(data, b + 1, f.section4CertsLength),
       section4SignersLength := Int32Or(data, b + 5, f.section4SignersLength))
  }

  /** Missing-signed-entries flag (1 byte), trusted-libraries validation time (8), second reduced manifest length (4). */
  function LibraryFields(data: seq<byte>, b: nat, f: FixedFields): (g: FixedFields)
    ensures |data| <= b ==> g == f
  {
    f.(hasMissingSignedEntries := BoolOr(data, b, f.hasMissingSignedEntries),
       trustedLibrariesValidationTime := TimestampOr(data, b + 1, f.trustedLibrariesValidationTime),
       reducedManifest2Length := Int32Or(data, b + 9, f.reducedManifest2Length))
  }

  /** The signing and trust fields of versions 603 to 605: 73 bytes from `b`. */
  function SigningFields(data: seq<byte>, b: nat, f: FixedFields): FixedFields {
    var f1 := SignatureFields(data, b, f);
    var f2 := SectionLengths(data, b + 13, f1);
    var f3 := CertificateFields(data, b + 25, f2);
    var f4 := ManifestFields(data, b + 42, f3);
    var f5 := CodeSourceFields(data, b + 51, f4);
    LibraryFields(data, b + 60, f5)
  }

  // ---------------------------------------------------------------------------
  // Length-prefixed strings and name/value pairs

  /** A name and a value, each a prefixed string, exactly as stored. */
  function ReadPair(data: seq<byte>, p: nat): (r: Option<(NameValue, nat)>)
    ensures r.Some? ==> p < r.value.1 <= |data|
  {
    match PrefixedTextAt(data, p)
    case None => None
    case Some((name, q)) =>
      match PrefixedTextAt(data, q)
      case None => None
      case Some((value, q')) => Some((NameValue(name, value), q'))
  }

  /** The pairs a count-down loop reads before it finishes or a read comes up short. */
  datatype PairRun = PairRun(pairs: seq<NameValue>, complete: bool)

  function Prepend(ps: seq<NameValue>, run: PairRun): PairRun {
    PairRun(ps + run.pairs, run.complete)
  }

  /**
   * Reads up to `n` pairs from `p` (none when `n` is not positive): all of
   * them, or those before the first pair that does not fit in the input.
   */
  function ReadPairs(data: seq<byte>, p: nat, n: int): (run: PairRun)
    ensures run.complete ==> |run.pairs| == if n > 0 then n else 0
    ensures !run.complete ==> |run.pairs| < n
    decreases if n > 0 then n else 0, 1
  {
    if n <= 0 then PairRun([], true) else PairsFrom(data, p, n)
  }

  /** The run of `n` pairs from `p`, for a positive `n`: the pair at `p`, then the rest. */
  function PairsFrom(data: seq<byte>, p: nat, n: int): (run: PairRun)
    requires n > 0
    ensures run.complete ==> |run.pairs| == n
    ensures !run.complete ==> |run.pairs| < n
    decreases n, 0
  {
    match ReadPair(data, p)
    case None => PairRun([], false)
    case Some((nv, q)) => Prepend([nv], ReadPairs(data, q, n - 1))
  }

  /** The standard decoder's view of one stored pair: `<null>` becomes an empty name. */
  function NullToEmpty(nv: NameValue): NameValue {
    if nv.name == NullName then nv.(name := "") else nv
  }

  /** The headers the standard decoder appends for the pairs it read. */
  function StandardHeaders(ps: seq<NameValue>): seq<NameValue> {
    if ps == [] then []
    else StandardHeaders(ps[..|ps| - 1]) + [NullToEmpty(ps[|ps| - 1])]
  }

  /** The headers the version-602 decoder appends: every pair not named for the codebase IP. */
  function VisibleHeaders(ps: seq<NameValue>): seq<NameValue> {
    if ps == [] then []
    else
      var last := ps[|ps| - 1];
      VisibleHeaders(ps[..|ps| - 1]) + if last.name == CodebaseIpName then [] else [last]
  }

  /** The codebase IP after the version-602 decoder read `ps`, starting from `prior`. */
  function LastCodebaseIp(ps: seq<NameValue>, prior: Option<Text>): Option<Text> {
    if ps == [] then prior
    else if ps[|ps| - 1].name == CodebaseIpName then Some(ps[|ps| - 1].value)
    else LastCodebaseIp(ps[..|ps| - 1], prior)
  }

  /** ReadHeaders: an int32 count, then that many pairs, appended with `<null>` names emptied. */
  function StandardHeaderList(data: seq<byte>, p: nat, e: Entry): Entry {
    if p + 4 > |data| then WithError(e)
    else
      var run := ReadPairs(data, p + 4, Int32At(data, p));
      var e' := e.(headers := e.headers + StandardHeaders(run.pairs));
      if run.complete then e' else WithError(e')
  }

  /** ReadHeaders602: like the standard list, but codebase-IP pairs set the codebase IP instead. */
  function LegacyHeaderList(data: seq<byte>, p: nat, e: Entry): Entry {
    if p + 4 > |data| then WithError(e)
    else
      var run := ReadPairs(data, p + 4, Int32At(data, p));
      var e' := e.(headers := e.headers + VisibleHeaders(run.pairs),
                   codebaseIp := LastCodebaseIp(run.pairs, e.codebaseIp));
      if run.complete then e' else WithError(e')
  }

  // ---------------------------------------------------------------------------
  // The variable-length parts

  /** Version 602: version, URL and namespace id from `p`, then the inline legacy header list. */
  function Strings602(data: seq<byte>, p: nat, e: Entry): Entry {
    match PrefixedTextAt(data, p)
    case None => WithError(e)
    case Some((version, p1)) =>
      var e1 := e.(version := Some(version));
      match PrefixedTextAt(data, p1)
      case None => WithError(e1)
      case Some((url, p2)) =>
        var e2 := e1.(url := Some(url));
        match PrefixedTextAt(data, p2)
        case None => WithError(e2)
        case Some((namespaceId, p3)) => LegacyHeaderList(data, p3, e2.(namespaceId := Some(namespaceId)))
  }

  /** ReadSection2: version, URL, namespace id and codebase IP from offset 128, then the standard header list. */
  function SectionTwo(data: seq<byte>, e: Entry): Entry {
    match PrefixedTextAt(data, SectionTwoOffset)
    case None => WithError(e)
    case Some((version, p1)) =>
      var e1 := e.(version := Some(version));
      match PrefixedTextAt(data, p1)
      case None => WithError(e1)
      case Some((url, p2)) =>
        var e2 := e1.(url := Some(url));
        match PrefixedTextAt(data, p2)
        case None => WithError(e2)
        case Some((namespaceId, p3)) =>
          var e3 := e2.(namespaceId := Some(namespaceId));
          match PrefixedTextAt(data, p3)
          case None => WithError(e3)
          case Some((codebaseIp, p4)) => StandardHeaderList(data, p4, e3.(codebaseIp := Some(codebaseIp)))
  }

  /** The secondary section is read only when its recorded length is positive. */
  function OptionalSectionTwo(data: seq<byte>, e: Entry): Entry {
    if e.fixed.section2Length > 0 then SectionTwo(data, e) else e
  }

  // ---------------------------------------------------------------------------
  // The whole record

  /** A new entry after the busy flag, the incomplete flag and the version code, as far as the input reaches. */
  function Leading(data: seq<byte>): Entry {
    Initial.(busy := BoolOr(data, 0, false),
             incomplete := BoolOr(data, 1, false),
             cacheVersion := Int32Or(data, 2, 0))
  }

  /** Version 602: two reserved bytes, the resource fields, then three strings and the legacy header list. */
  function Decode602(data: seq<byte>, e: Entry): Entry {
    var b := LeadingLength + ReservedLength;
    if |data| < b then WithError(e)
    else
      var e1 := e.(fixed := ResourceFields(data, b, e.fixed));
      if |data| < b + ResourceFieldsLength then WithError(e1)
      else Strings602(data, b + ResourceFieldsLength, e1)
  }

  /** Versions 603 and 604: two reserved bytes, the resource fields, then the signed part. */
  function Decode603(data: seq<byte>, e: Entry): Entry {
    var b := LeadingLength + ReservedLength;
    if |data| < b then WithError(e)
    else
      var e1 := e.(fixed := ResourceFields(data, b, e.fixed));
      if |data| < b + ResourceFieldsLength then WithError(e1)
      else SignedPart603(data, b + ResourceFieldsLength, e1)
  }

  /** Versions 603 and 604 from the validation timestamp at `b`: the signing fields, then the optional secondary section. */
  function SignedPart603(data: seq<byte>, b: nat, e: Entry): Entry {
    var e2 := e.(fixed := SigningFields(data, b, e.fixed));
    if |data| < b + SigningFieldsLength then WithError(e2)
    else OptionalSectionTwo(data, e2)
  }

  /** Version 605: no reserved bytes; the resource fields, then the signed part. */
  function Decode605(data: seq<byte>, e: Entry): Entry {
    var b := LeadingLength;
    var e1 := e.(fixed := ResourceFields(data, b, e.fixed));
    if |data| < b + ResourceFieldsLength then WithError(e1)
    else SignedPart605(data, b + ResourceFieldsLength, e1)
  }

  /** Version 605 from the validation timestamp at `b`: the signing fields, the proxied flag, then the optional secondary section. */
  function SignedPart605(data: seq<byte>, b: nat, e: Entry): Entry {
    var e2 := e.(fixed := SigningFields(data, b, e.fixed));
    var end := b + SigningFieldsLength;
    if |data| < end + 1 then WithError(e2)
    else OptionalSectionTwo(data, e2.(fixed := e2.fixed.(isProxied := BoolAt(data, end))))
  }

  /** What a CacheEntry holds after it has been constructed from a file with contents `data`. */
  function Decode(data: seq<byte>): Entry {
    var e := Leading(data);
    if |data| < LeadingLength then WithError(e)
    else if e.cacheVersion == 602 then Decode602(data, e)
    else if e.cacheVersion == 603 || e.cacheVersion == 604 then Decode603(data, e)
    else if e.cacheVersion == 605 then Decode605(data, e)
    else e
  }
}
