# javaidx cache-entry decoder in Dafny

This project models the decoder at the heart of javaidx. javaidx reads the
`.idx` files that the Java plug-in and Java Web Start keep beside every
cached download. Each `.idx` file is one cache entry: a big-endian binary
record. The record has these parts:

- Two flag bytes (busy, incomplete) and a 32-bit cache-version code.
- A fixed-offset block whose layout depends on the version: 602, 603/604 or 605.
- For 603, 604 and 605, an optional secondary section at absolute offset 128.
  It holds four length-prefixed strings (version, URL, namespace id, codebase
  IP) and a count-prefixed list of HTTP response headers (name/value pairs).
- Version 602 keeps three strings and its header list straight after the
  fixed block. In its list, a pair named `deploy_resource_codebase_ip` is
  not a header: its value becomes the codebase IP.

`HeadersText` flattens the header list into one display string.

The model has three layers:

- **Stream and value readers.** `Primitives` holds big-endian readers
  (`UInt16At`, `Int32At`, `Int64At`, `PrefixedTextAt`, …) and their encoders,
  with round-trip lemmas. The class `ByteStreams.ByteStream` is the file
  stream: its byte contents and a cursor that reads advance and `Seek` moves.
- **Declarative decoder.** `IdxFormat` holds the entry record (`Entry`,
  `FixedFields`, `NameValue`) and `Decode`. `Decode` maps the file's bytes to
  the entry the constructor leaves behind, run by run, exactly as the C#
  code assigns fields.
- **Imperative decoder.** The class `CacheEntries.CacheEntry` mirrors the C#
  class. Its constructor parses the stream and assigns fields one after
  another. `ReadSection2` seeks to offset 128. `ReadHeaders` and
  `ReadHeaders602` run the count-down loops that append to `headers`. Every
  method is proved against `IdxFormat`, so the constructor ensures
  `Snapshot() == Decode(contents)`.

Failure handling follows the code:

- Each `catch` block sets the error flag, modelled by `Caught` and by the
  `Try…` / wrapper method pairs.
- Fields and headers read before a failing read keep their values; the
  record is not all-or-nothing.
- The program's callers discard any entry whose error flag is set
  (`Source/Program.cs:55-59`, `Source/Program.cs:69-73`). That gives the
  all-or-nothing effect seen from outside, but the entry itself keeps its
  partial fields, and the model keeps them too.

Properties proved about `Decode`:

- Where the leading fields come from.
- Unsupported versions stop after six bytes.
- Versions 603 and 604 agree.
- The version-605 block is the 603 block shifted two bytes earlier, plus
  the proxied flag.
- The secondary section is read from offset 128 whatever lies between the
  fixed block and it. It is read only when its recorded length is positive.
- Inputs that end inside the fixed block fail, for every supported version.
- A complete fixed block with no secondary section decodes without an error.
  Stored strings and headers (from offset 128, or after the version-602
  block) decode back exactly, without an error.
- Bytes appended after a successful decode change nothing.

Properties proved about the two header decoders:

- Counts, order and name mapping.
- The last codebase-IP pair wins.
- Truncation keeps a prefix, in both decoders.
- Round trips through an encoder for stored pairs.

Properties proved about `HeadersText`:

- The form of each item.
- Emptiness.
- Splitting at commas recovers the items.

## Model

| member | source | states |
|---|---|---|
| CacheEntries.CacheEntry.constructor | Source/CacheEntry.cs:59-64 | a new entry over a file's bytes holds exactly `Decode` of those bytes: every field and the error flag |
| CacheEntries.CacheEntry.Parse | Source/CacheEntry.cs:72-175 | starting from the initial entry at stream position 0, the entry becomes `Decode(data)`; a failure anywhere in the try block sets the error flag (catch at 171-174) |
| CacheEntries.CacheEntry.TryParse | Source/CacheEntry.cs:81-168 | reads busy, incomplete and the version code, then runs the layout the code selects; any other code stops after the leading fields; with the catch applied the result is `Decode(data)` |
| CacheEntries.Caught | Source/CacheEntry.cs:171-174 | a catch block sets the error flag exactly when its try block failed and changes nothing else |
| CacheEntries.CacheEntry.TryParse602 | Source/CacheEntry.cs:87-102 | skips two reserved bytes, reads the resource fields, then the strings and legacy header list; equals `Decode602` of the entry it started from |
| CacheEntries.CacheEntry.TryReadStrings602 | Source/CacheEntry.cs:94-101 | reads version, URL and namespace id as prefixed strings, then the legacy header list; equals `Strings602` |
| CacheEntries.CacheEntry.TryParse603 | Source/CacheEntry.cs:103-134 | versions 603 and 604: two reserved bytes, resource fields, then the signed part; equals `Decode603` |
| CacheEntries.CacheEntry.TryReadSignedPart603 | Source/CacheEntry.cs:111-133 | the signing fields, then the secondary section only when the section-2 length just read is positive; equals `SignedPart603` |
| CacheEntries.CacheEntry.TryParse605 | Source/CacheEntry.cs:135-164 | version 605: no reserved bytes, resource fields, then the signed part; equals `Decode605` |
| CacheEntries.CacheEntry.TryReadSignedPart605 | Source/CacheEntry.cs:140-163 | the signing fields, the proxied flag, then the secondary section only when its length is positive; equals `SignedPart605` |
| CacheEntries.CacheEntry.TryReadResourceFields | Source/CacheEntry.cs:107-110 | succeeds exactly when 21 bytes remain, advances by 21 and sets shortcut-image flag, content length, last-modified and expiration dates as `ResourceFields` says, also on failure |
| CacheEntries.CacheEntry.TryReadContentFields | Source/CacheEntry.cs:107-108 | succeeds exactly when 5 bytes remain; shortcut-image flag and content length as `ContentFields` |
| CacheEntries.CacheEntry.TryReadDateFields | Source/CacheEntry.cs:109-110 | succeeds exactly when 16 bytes remain; last-modified and expiration dates as `DateFields` |
| CacheEntries.CacheEntry.TryReadSigningFields | Source/CacheEntry.cs:111-128 | succeeds exactly when 73 bytes remain, advances by 73; the signing fields as `SigningFields`, each set when the input reaches its end |
| CacheEntries.CacheEntry.TryReadSignatureFields | Source/CacheEntry.cs:111-113 | validation time, known-to-be-signed flag and section-2 length as `SignatureFields` |
| CacheEntries.CacheEntry.TryReadSectionLengths | Source/CacheEntry.cs:114-116 | section 3, 4 and 5 lengths as `SectionLengths` |
| CacheEntries.CacheEntry.TryReadCertificateFields | Source/CacheEntry.cs:117-119 | black-list validation time, certificate expiration date and class-verification status as `CertificateFields` |
| CacheEntries.CacheEntry.TryReadManifestFields | Source/CacheEntry.cs:120-122 | reduced-manifest length, section-4 pre-1.5 length and only-signed-entries flag as `ManifestFields` |
| CacheEntries.CacheEntry.TryReadCodeSourceFields | Source/CacheEntry.cs:123-125 | single-code-source flag, section-4 certificates and signers lengths as `CodeSourceFields` |
| CacheEntries.CacheEntry.TryReadLibraryFields | Source/CacheEntry.cs:126-128 | missing-signed-entries flag, trusted-libraries validation time and second reduced-manifest length as `LibraryFields` |
| CacheEntries.CacheEntry.ReadSection2 | Source/CacheEntry.cs:181-202 | the entry becomes `SectionTwo` of the data: seek to 128, four strings, standard header list, error flag on any failure |
| CacheEntries.CacheEntry.TryReadSection2 | Source/CacheEntry.cs:183-197 | the try block of ReadSection2, equal to `SectionTwo` once its catch is applied |
| CacheEntries.CacheEntry.ReadHeaders | Source/CacheEntry.cs:208-230 | the entry becomes `StandardHeaderList` at the current position: the pairs read are appended, the error flag set when a read fails |
| CacheEntries.CacheEntry.TryReadHeaders | Source/CacheEntry.cs:210-225 | reads the count, then the pairs; with the catch applied equals `StandardHeaderList` |
| CacheEntries.CacheEntry.TryAppendHeaders | Source/CacheEntry.cs:212-224 | the count-down loop appends `StandardHeaders` of the pairs `ReadPairs` finds, in order, and succeeds exactly when all `count` pairs were read |
| CacheEntries.CacheEntry.AppendStandardHeader | Source/CacheEntry.cs:216-223 | appends one pair, with the name `<null>` replaced by the empty name |
| CacheEntries.ReadStoredPair | Source/CacheEntry.cs:214-221 | a length-prefixed name then a length-prefixed value; succeeds exactly when `ReadPair` does and ends where it says |
| CacheEntries.CacheEntry.ReadHeaders602 | Source/CacheEntry.cs:236-263 | the entry becomes `LegacyHeaderList` at the current position |
| CacheEntries.CacheEntry.TryReadHeaders602 | Source/CacheEntry.cs:238-257 | reads the count, then the pairs; with the catch applied equals `LegacyHeaderList` |
| CacheEntries.CacheEntry.TryAppendHeaders602 | Source/CacheEntry.cs:240-256 | the loop appends the pairs not named for the codebase IP, in order; the codebase IP becomes the last such pair's value (or stays); succeeds exactly when all `count` pairs were read |
| CacheEntries.CacheEntry.AppendLegacyHeader | Source/CacheEntry.cs:244-255 | a codebase-IP pair sets the codebase IP and leaves the list alone; any other pair is appended and the codebase IP kept |
| CacheEntries.CacheEntry.HeadersText | Source/CacheEntry.cs:270-289 | the loop collecting one item per header and the join return `HeadersDisplay.HeadersText(headers)` |
| CacheEntries.ReadPairsAdvance | Source/CacheEntry.cs:212-224 | one pair read extends the run read so far by that pair |
| CacheEntries.ReadPairsStop | Source/CacheEntry.cs:226-229 | a pair that does not fit ends the run as incomplete with the pairs read so far |
| CacheEntries.ReadPairsDone | Source/CacheEntry.cs:212 | a count run down to zero ends the run as complete |
| ByteStreams.ByteStream.constructor | Source/CacheEntry.cs:79 | a stream over the file's contents positioned at 0 |
| ByteStreams.ByteStream.Seek | Source/CacheEntry.cs:186 | the cursor moves to the given absolute offset, wherever it was |
| ByteStreams.ByteStream.ReadBool | Source/CacheEntry.cs:81 | succeeds exactly when one byte remains; true when that byte is non-zero; advances by 1 |
| ByteStreams.ByteStream.ReadByte | Source/CacheEntry.cs:88-89 | succeeds exactly when one byte remains; returns it and advances by 1 |
| ByteStreams.ByteStream.ReadUInt16 | Source/CacheEntry.cs:94 | succeeds exactly when two bytes remain; big-endian unsigned value; advances by 2 |
| ByteStreams.ByteStream.ReadInt32 | Source/CacheEntry.cs:83 | succeeds exactly when four bytes remain; big-endian two's-complement value; advances by 4 |
| ByteStreams.ByteStream.ReadJavaEpoch | Source/CacheEntry.cs:92 | succeeds exactly when eight bytes remain; the big-endian signed milliseconds; advances by 8 |
| ByteStreams.ByteStream.ReadString | Source/CacheEntry.cs:95 | succeeds exactly when `length` bytes remain; one character per byte; advances by `length` |
| ByteStreams.ByteStream.ReadPrefixedString | Source/CacheEntry.cs:94-95 | a 16-bit length, then that many bytes of text; succeeds exactly when `PrefixedTextAt` does |
| Primitives.Int32At | Source/CacheEntry.cs:83 | the value read is a signed 32-bit integer |
| Primitives.Signed32 | Source/CacheEntry.cs:83 | the two's-complement reading of an unsigned 32-bit value is in range and congruent to it modulo 2^32 |
| Primitives.Latin1 | Source/CacheEntry.cs:95 | the text has one character per byte, each with the byte's code |
| Primitives.PrefixedTextAt | Source/CacheEntry.cs:94-95 | a successful read ends right after the length field and the text, inside the data |
| Primitives.UInt16RoundTrip | Source/CacheEntry.cs:94 | an encoded 16-bit length reads back as itself wherever it sits |
| Primitives.Int32RoundTrip | Source/CacheEntry.cs:83 | an encoded signed 32-bit value reads back as itself |
| Primitives.Int64RoundTrip | Source/CacheEntry.cs:92 | an encoded signed 64-bit timestamp reads back as itself |
| Primitives.TextRoundTrip | Source/CacheEntry.cs:95 | one-byte-per-character text reads back as itself |
| Primitives.PrefixedTextRoundTrip | Source/CacheEntry.cs:94-95 | a length-prefixed string reads back as itself, ending right after it |
| Primitives.Int32Encodes | Source/CacheEntry.cs:83 | encoding the value read gives back the four bytes it was read from |
| IdxFormat.ContentFields | Source/CacheEntry.cs:107-108 | a run starting past the end of input changes no field |
| IdxFormat.SignatureFields | Source/CacheEntry.cs:111-113 | a run starting past the end of input changes no field |
| IdxFormat.ReadPair | Source/CacheEntry.cs:214-221 | a pair read ends after where it started and inside the data |
| IdxFormat.ReadPairs | Source/CacheEntry.cs:212-224 | a complete run holds exactly `count` pairs (none when `count <= 0`); an incomplete one holds fewer |
| IdxFormat.Decode | Source/CacheEntry.cs:72-175 | what the constructor leaves: the leading fields, then the layout the version selects; short input sets the error flag |
| IdxFormat.Leading | Source/CacheEntry.cs:81-83 | busy, incomplete and version code, each set when the input reaches its end |
| IdxFormat.Decode602 | Source/CacheEntry.cs:87-102 | two reserved bytes, the resource fields, then the strings and the legacy list |
| IdxFormat.Decode603 | Source/CacheEntry.cs:103-134 | two reserved bytes, the resource fields, then the signed part |
| IdxFormat.SignedPart603 | Source/CacheEntry.cs:111-133 | the signing fields, then the secondary section when its length is positive |
| IdxFormat.Decode605 | Source/CacheEntry.cs:135-164 | the resource fields from byte 6, then the signed part |
| IdxFormat.SignedPart605 | Source/CacheEntry.cs:140-163 | the signing fields, the proxied flag, then the secondary section when its length is positive |
| IdxFormat.Strings602 | Source/CacheEntry.cs:94-101 | three prefixed strings, then the legacy header list |
| IdxFormat.SectionTwo | Source/CacheEntry.cs:181-202 | four prefixed strings from offset 128, then the standard header list |
| IdxFormat.OptionalSectionTwo | Source/CacheEntry.cs:130-133 | the secondary section only when its recorded length is positive |
| IdxFormat.StandardHeaderList | Source/CacheEntry.cs:208-230 | a count, then the pairs read, appended with `<null>` names emptied; the error flag when a read falls short |
| IdxFormat.LegacyHeaderList | Source/CacheEntry.cs:236-263 | a count, then the pairs read; codebase-IP pairs set the codebase IP, the others are appended |
| IdxFormat.StandardHeaders | Source/CacheEntry.cs:216-223 | the headers appended for the pairs read, in order |
| IdxFormat.VisibleHeaders | Source/CacheEntry.cs:244-255 | the pairs not named for the codebase IP, in order |
| IdxFormat.LastCodebaseIp | Source/CacheEntry.cs:244-249 | the codebase IP after the pairs: the last such pair's value, or the prior one |
| IdxFormat.NullToEmpty | Source/CacheEntry.cs:216-219 | the name `<null>` becomes the empty name |
| IdxFormat.ResourceFields | Source/CacheEntry.cs:107-110 | the four resource fields, 21 bytes |
| IdxFormat.DateFields | Source/CacheEntry.cs:109-110 | a run starting past the end of input changes no field |
| IdxFormat.SigningFields | Source/CacheEntry.cs:111-128 | the signing fields, 73 bytes |
| IdxFormat.SectionLengths | Source/CacheEntry.cs:114-116 | a run starting past the end of input changes no field |
| IdxFormat.CertificateFields | Source/CacheEntry.cs:117-119 | a run starting past the end of input changes no field |
| IdxFormat.ManifestFields | Source/CacheEntry.cs:120-122 | a run starting past the end of input changes no field |
| IdxFormat.CodeSourceFields | Source/CacheEntry.cs:123-125 | a run starting past the end of input changes no field |
| IdxFormat.LibraryFields | Source/CacheEntry.cs:126-128 | a run starting past the end of input changes no field |
| Primitives.BoolAt | Source/CacheEntry.cs:81 | a byte read as a flag: true when non-zero |
| Primitives.UInt16At | Source/CacheEntry.cs:94 | the big-endian length is within 16 bits |
| Primitives.Int64At | Source/CacheEntry.cs:92 | the big-endian timestamp is a signed 64-bit integer |
| Primitives.TextAt | Source/CacheEntry.cs:95 | a string read takes exactly `length` bytes |
| HeadersDisplay.IsWhiteSpace | Source/CacheEntry.cs:277 | the characters .NET counts as white space |
| HeadersDisplay.Trim | Source/CacheEntry.cs:277 | white space removed from both ends |
| HeadersDisplay.Join | Source/CacheEntry.cs:287 | the items with the separator between each two |
| HeadersDisplay.HeadersText | Source/CacheEntry.cs:270-289 | the rendered items joined with commas |
| DecodeProperties.LeadingFields | Source/CacheEntry.cs:81-83 | busy is byte 0 non-zero, incomplete byte 1 non-zero, the cache version the big-endian int32 at bytes 2-5; shorter input sets the error flag and leaves everything else initial |
| DecodeProperties.UnsupportedVersion | Source/CacheEntry.cs:165-167 | a version outside 602-605 yields only the leading fields: no headers, no error |
| DecodeProperties.UnsupportedVersionReadsNoFurther | Source/CacheEntry.cs:165-167 | with such a version, any input with the same first six bytes decodes the same: nothing further is read |
| DecodeProperties.LayoutsKeepLeading | Source/CacheEntry.cs:85-168 | no version's layout changes busy, incomplete or the cache version |
| DecodeProperties.LayoutsStartAfterLeading | Source/CacheEntry.cs:85-168 | every layout reads only bytes from offset 6 on |
| DecodeProperties.ExtendedInput | Source/CacheEntry.cs:72-175 | bytes appended to an input that decodes without error change nothing |
| DecodeProperties.Decode603Commutes | Source/CacheEntry.cs:103-134 | the 603/604 layout never looks at the version it was reached with |
| DecodeProperties.Versions603And604Agree | Source/CacheEntry.cs:103-104 | replacing version 603 with 604 (or back) changes only the recorded version |
| DecodeProperties.Version605Shift | Source/CacheEntry.cs:105-158 | the 605 fixed block equals the 603 block of the same bytes with two reserved bytes inserted after the leading fields; the proxied flag is byte 100 |
| DecodeProperties.SectionTwoAtFixedOffset | Source/CacheEntry.cs:186 | for 603-605, the bytes between the end of the fixed block and offset 128 are never read |
| DecodeProperties.SectionTwoOnlyWhenRecorded | Source/CacheEntry.cs:130-133 | with section-2 length not positive, version, URL, namespace id, codebase IP and headers keep their initial values; when it is positive and no read fails, all four strings are set |
| DecodeProperties.SignedPartsSectionTwo | Source/CacheEntry.cs:160-163 | the same for the signed parts of both layouts |
| DecodeProperties.ShortFixedBlock | Source/CacheEntry.cs:87-174 | for every supported version (602 block ending at byte 29, 603/604 at 102, 605 at 101), input ending inside the fixed block sets the error flag |
| DecodeOutcomes.CompleteFixedBlock | Source/CacheEntry.cs:111-134 | for 603-605 an input holding the whole fixed block records the section-2 length stored at byte 38 (605: 36); when it is not positive the decode ends without an error |
| DecodeOutcomes.SectionTwoVersionAt128 | Source/CacheEntry.cs:186-188 | for 603-605 with a positive section-2 length, the version is the string stored at offset 128 |
| DecodeOutcomes.SectionTwoRoundTrip | Source/CacheEntry.cs:181-202 | a secondary section stored at offset 128 reads back as its four strings and its headers, `<null>` names emptied, without an error |
| DecodeOutcomes.SectionTwoDecoded | Source/CacheEntry.cs:103-164 | for 603-605 a fixed block with a positive section-2 length followed by a stored section at 128 decodes without an error, every string and header taken from offset 128 on |
| DecodeOutcomes.Strings602RoundTrip | Source/CacheEntry.cs:94-101 | version 602's stored strings and header list read back as those strings, the non-codebase-IP headers and the last codebase IP, without an error |
| DecodeOutcomes.Version602Decoded | Source/CacheEntry.cs:87-102 | a version-602 fixed block followed by stored strings and headers decodes without an error to exactly those |
| HeaderLists.StandardHeadersPointwise | Source/CacheEntry.cs:216-223 | one header per pair, values kept, `<null>` names emptied and every other name kept |
| HeaderLists.StandardHeadersConcat | Source/CacheEntry.cs:212-224 | the standard mapping works pair by pair: two runs map to the two mapped runs in order |
| HeaderLists.CountNamed | Source/CacheEntry.cs:244 | the number of pairs with a given name is at most the number of pairs |
| HeaderLists.VisibleHeadersFilter | Source/CacheEntry.cs:244-255 | version-602 headers are the pairs not named for the codebase IP: count is pairs minus diverted, membership both ways |
| HeaderLists.VisibleHeadersConcat | Source/CacheEntry.cs:240-256 | the version-602 filter keeps read order across runs |
| HeaderLists.CodebaseIpKept | Source/CacheEntry.cs:244-249 | with no codebase-IP pair, the codebase IP is left as it was |
| HeaderLists.LastCodebaseIpWins | Source/CacheEntry.cs:244-249 | the codebase IP becomes the value of the last pair named for it |
| HeaderLists.HeaderListCounts | Source/CacheEntry.cs:212 | a count of zero or less appends nothing; without an error the standard list grows by exactly `count`, the 602 list by `count` minus the diverted pairs, after the old headers |
| HeaderLists.ReadPairsTruncated | Source/CacheEntry.cs:226-229 | pairs read from a truncated input are a prefix of those from the whole input; a complete run is unaffected |
| HeaderLists.StandardHeaderListTruncated | Source/CacheEntry.cs:226-229 | headers appended before a failure stay: truncated input gives a prefix of the headers, and the same entry when it still succeeds |
| HeaderLists.LegacyHeaderListTruncated | Source/CacheEntry.cs:259-262 | the same for the 602 list: headers appended before a failure stay, a prefix of the whole input's headers, and the same entry when it still succeeds |
| HeaderLists.EncodePair | Source/CacheEntry.cs:214-221 | a stored pair takes four length bytes plus its name and value |
| HeaderLists.PairRoundTrip | Source/CacheEntry.cs:214-221 | a stored pair reads back as itself |
| HeaderLists.PairsRoundTrip | Source/CacheEntry.cs:212-224 | stored pairs read back as the same pairs, all of them |
| HeaderLists.StandardHeaderListRoundTrip | Source/CacheEntry.cs:208-230 | a stored standard list decodes to its pairs with `<null>` names emptied, appended, without an error |
| HeaderLists.LegacyHeaderListRoundTrip | Source/CacheEntry.cs:236-263 | a stored 602 list appends its non-codebase-IP pairs and sets the codebase IP from the last codebase-IP pair, without an error |
| HeadersDisplay.TrimStartRemovesBlankPrefix | Source/CacheEntry.cs:277 | trimming the start removes exactly the longest white-space prefix |
| HeadersDisplay.TrimEndRemovesBlankSuffix | Source/CacheEntry.cs:277 | trimming the end removes exactly the longest white-space suffix |
| HeadersDisplay.TrimEmptyIffBlank | Source/CacheEntry.cs:277 | the trimmed name is empty exactly when the name is all white space |
| HeadersDisplay.Render | Source/CacheEntry.cs:277-284 | every item starts with a space |
| HeadersDisplay.RenderForms | Source/CacheEntry.cs:277-284 | a blank name shows as " value", any other as " name: value" |
| HeadersDisplay.NullNamedShowsValue | Source/CacheEntry.cs:216-219 | a pair stored as `<null>` shows only its value |
| HeadersDisplay.Rendered | Source/CacheEntry.cs:275-285 | one item per header, in list order, each its header's rendering |
| HeadersDisplay.JoinAppend | Source/CacheEntry.cs:287 | joining one more item puts one separator before it |
| HeadersDisplay.HeadersTextEmpty | Source/CacheEntry.cs:270-289 | the text is empty exactly when there are no headers |
| HeadersDisplay.SplitJoin | Source/CacheEntry.cs:287 | joined items without the separator split back into the same items |
| HeadersDisplay.HeadersTextItems | Source/CacheEntry.cs:274-287 | when no name or value holds a comma, splitting the text at commas gives back exactly one item per header, in order |
| HeadersDisplay.HeadersTextAppend | Source/CacheEntry.cs:274-287 | one more header adds its item at the end, after a comma unless it is the first |

## Left out

- Opening the file (`FileStream`), `FilePath` and `FileName` (`Source/CacheEntry.cs:76-79`): OS calls. The constructor takes the file's contents; an unopenable file is not modelled.
- The console message for an unsupported version (`Source/CacheEntry.cs:166`): only its effect, returning early, is modelled.
- `StreamReaderHelper` is not part of this model. Its reads are modelled as big-endian readers that fail exactly when too few bytes remain. A seek past the end succeeds and the next read fails, as with a .NET file stream.
- The text encoding of `ReadString`: strings are modelled one character per byte (Latin-1). Other encodings are not modelled.
- The conversion of Java-epoch timestamps to local `DateTime`: timestamps stay signed 64-bit milliseconds, with `Unset` standing for the default `DateTime`.
- `Source/Program.cs` and `Source/Options.cs`: command-line parsing, directory walking, sorting and CSV/console output. Only the rule that entries with the error flag are dropped is described above.
- The thirty-odd properties of the C# class are grouped: the fixed-offset ones sit in one record-valued field `fixed`. The long run of reads is split into methods of a few reads each, and each method is proved against one run of `IdxFormat`.
- No encoder for the fixed-offset fields is modelled. "Every read succeeds, so no error" is proved per layout instead: a complete fixed block without a secondary section, a stored secondary section, and the stored version-602 strings and list.
- Header names and values are compared as text. The .NET `null` string never arises from a read, so it appears only as the `None` of the four optional strings.
