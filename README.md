# The opentype.js 'name' table test helpers, modelled in Dafny

opentype.js reads and writes OpenType/TrueType fonts. Its 'name' table test
(`test/tables/name.js`) builds binary 'name' tables by hand and checks that
the parser turns them into a dictionary keyed by name and BCP-47 language
tag. This project models that test file: its helpers and its three cases.

- **makeNameTable** (`NameTableBuilder.MakeNameTable`). It grows a
  `table.Table` object field by field: a three-USHORT header, six USHORT
  fields per name, and one LITERAL string pool. It appends each text to the
  pool byte by byte, encodes the table, and copies the bytes into a fresh
  buffer.
  - The object is a Dafny `class` (`Tables.Table`) whose `Push` method
    appends to its field list.
  - The pool is a sequence that the fill loop reassigns.
  - The buffer is an `array`.
  - Each method is proved against the pure description of the same layout
    in `NameTableLayout`.
- **encode.TABLE** (`Tables.EncodeFields`). It concatenates the fields'
  encodings in order. It fails with `IntegerOverflow` exactly when some
  USHORT falls outside 0..0xFFFF.
- **name.parse** at offset 0 (`NameParse.ParseNameTable`).
  - It reads `count` and `stringOffset` from the header, then `count`
    12-byte records.
  - It folds the records into a map in record order.
  - Each record's platform, codec and language are decided from its
    identifiers alone, before its text is read. The platform must be 0, 1
    or 3. The codec is UTF-16BE on the Unicode and Windows platforms, and a
    Macintosh codec chosen by (encoding, language) on platform 1. The
    language comes from the Windows LCID, the Macintosh language code, or
    the 'ltag' table (0xFFFF means `und`).
  - A record for which any of the three does not resolve is dropped, and
    its text is never read. Only a kept record whose text lies outside the
    buffer aborts the parse with `TruncatedData`.
- **parseNameTable** (`NameTableBuilder.ParseNames`) runs name.parse on the
  bytes makeNameTable builds. The main theorem,
  `NameTableRoundTrip.ParseMakeRoundTrip`, says what that gives: whenever
  the names fit their USHORTs, parsing the built table yields exactly the
  map the names themselves denote. That map is `NamesToMap`: each name's
  entry, inserted in order, the last write to a (name, language) slot
  winning.
- **getNameRecords** (`NameRecordListing.GetNameRecords`) lists the
  'record_' fields of a table object, one line per record. Its loop is
  proved against `ListRecords`, which `ListRecordsMeaning` characterises.
- **The three test cases** (`NameTableCases`) are lemmas. Each one states
  the map that a test's names denote and, through the round trip, what
  parsing the built table returns.

The model does not reach two places:

- Text conversion from hex (`unhex`) and into hex (`hex`). The names carry
  their texts as bytes, and the hex formatter is a parameter.
- The Macintosh codecs. They are a parameter `mac`. The test's MacRoman,
  Mac Turkish and Mac Cyrillic results are the preconditions of
  `NameTableCases.WindowsMacCase`.

## Model

| member | source | states |
|---|---|---|
| Types.EncodeUShort | test/tables/name.js:17-19 | A USHORT encodes iff its value lies in 0..0xFFFF. It then gives the value's two big-endian bytes; otherwise it fails with IntegerOverflow. |
| Types.U16RoundTrip | test/tables/name.js:59-69 | The two bytes of a USHORT read back as the value, whatever bytes surround them. |
| Tables.RecordRoundTrip | test/tables/name.js:26-51 | A 12-byte name record read back from where it was written is the same record. |
| Tables.RecordsBytesAt | test/tables/name.js:23-55 | Record i of a record array occupies bytes 12i to 12i+12. |
| Tables.EncodeFields | test/tables/name.js:59 | encode.TABLE succeeds iff every USHORT field fits; on failure the error is IntegerOverflow, and on success the length is the sum of the field widths. |
| Tables.EncodeFieldsAppend | test/tables/name.js:59 | Encoding two field lists one after the other is encoding their concatenation. |
| Tables.Table.Push | test/tables/name.js:26-57 | `t.fields.push(f)` appends f to the field list and changes nothing else. |
| Text.Decimal | test/tables/name.js:27 | The decimal form of a number: one or more digits, with no leading zero unless the number is 0, and more than one digit exactly when the number is at least 10; its value read back digit by digit (DigitsValue) is the number. |
| Text.Utf16BeDecode | test/tables/name.js:152-173 | Code unit k is the big-endian word of bytes 2k and 2k+1. A surrogate pair (the lipstick emoji) stays two code units, as in a JavaScript string. |
| Text.Utf16BeRoundTrip | test/tables/name.js:137-140 | Decoding UTF-16BE bytes that encode some code units gives those code units back. |
| NameLookup.KeyOf | test/tables/name.js:160-175 | nameID 1 is keyed 'fontFamily'; every other nameID (300, 999, 44444) is keyed by its own number. |
| NameLookup.WindowsLanguage | test/tables/name.js:137-140 | A registered LCID never gives 'und', and its low ten bits are the primary language of its tag: 0x09 en, 0x11 ja, 0x5D iu and iu-Latn. |
| NameLookup.WindowsLanguageInjective | test/tables/name.js:161-165 | Distinct registered LCIDs give distinct tags, so 0x045D (iu) and 0x085D (iu-Latn) fill different slots. |
| NameLookup.MacLanguage | test/tables/name.js:144-149 | A registered Macintosh language code never gives 'und'. |
| NameLookup.MacLanguageInjective | test/tables/name.js:167-171 | Distinct registered Macintosh language codes give distinct tags, so the three 300 names fill three slots. |
| NameLookup.UnicodeLanguage | test/tables/name.js:179-206 | The Unicode tag is 'und' for 0xFFFF or without an ltag table, ltag[languageID] for an in-range index, and always either 'und' or one of the ltag table's tags. |
| NameLookup.LanguageTag | test/tables/name.js:133-212 | A tag exists only on platforms 0, 1 and 3, always on platform 0, and only platform 0 can give 'und'. |
| NameLookup.LtagOnlyForUnicode | test/tables/name.js:158 | Outside platform 0 the ltag table does not affect the language. |
| NameLookup.DecodeText | test/tables/name.js:137-156 | On the Unicode and Windows platforms code unit k of the text is the big-endian word of bytes 2k and 2k+1, whatever the encoding ID (1, 4 or 10). |
| NameLookup.ResolveEntry | test/tables/name.js:133-212 | A record yields an entry iff its platform is supported, a codec exists for its identifiers and its language resolves; the entry is keyed by KeyOf(nameID) under that language's tag. |
| NameLookup.UnknownPlatformDropped | test/tables/name.js:210-212 | A record of any platform other than 0, 1 and 3 contributes no entry. |
| NameLookup.UnicodeRecordEntry | test/tables/name.js:179-207 | A Unicode record is never dropped. Its text is the UTF-16BE decoding. Its tag is ltag[languageID] when that index is in range and is not 0xFFFF, and 'und' otherwise. |
| NameLookup.WindowsRecordEntry | test/tables/name.js:133-176 | A Windows record is kept iff its LCID is registered. It is then the LCID's tag with the UTF-16BE text, whatever the encoding ID (1 or 10). |
| NameLookup.MacintoshRecordEntry | test/tables/name.js:141-149 | A Macintosh record is kept iff its codec and its language code both resolve. It is then the codec's text under the code's tag, and the ltag table plays no part. |
| NameMaps.Insert | test/tables/name.js:160-175 | Inserting an entry sets exactly its (key, tag) slot and leaves every other slot as it was. A dropped record (None) changes nothing. |
| NameMaps.LastWriteWins | test/tables/name.js:160-175 | An entry that no later entry overwrites is the text the map holds for its key and tag. |
| NameMaps.SlotsAreWritten | test/tables/name.js:160-175 | The map holds a slot iff some entry writes it, and no key maps to an empty inner map. |
| NameMaps.BuildMap | test/tables/name.js:160-175 | Every key of the built map comes from some entry, and no entries build the empty map. |
| NameMaps.AllDroppedIsEmpty | test/tables/name.js:210-212 | Entries that are all dropped build the empty map. |
| NameParse.AddRecord | test/tables/name.js:68-70 | One record step fails (TruncatedData) iff the record is kept (platform, codec and language all resolve) and its text lies outside the buffer. A record that is not kept leaves the map as it was without its text being read; otherwise the record's entry is inserted. |
| NameParse.Collect | test/tables/name.js:68-70 | The record loop can only fail with TruncatedData. |
| NameParse.CollectMeaning | test/tables/name.js:68-70 | The record loop succeeds iff every kept record's text is inside the buffer; dropped records' texts may point anywhere. It then returns the map built from all the records' entries in record order. |
| NameParse.Records | test/tables/name.js:68-70 | name.parse reads exactly `count` records after the 6-byte header. |
| NameParse.ParseNameTable | test/tables/name.js:68-70 | name.parse can only fail with TruncatedData. It does fail when the header or the record array runs past the end. |
| NameParse.DroppedRecordsParseEmpty | test/tables/name.js:210-212 | Any table none of whose records resolves (unsupported platform, no codec, or no language) parses to the empty map, wherever their texts point. |
| NameParse.CollectDropped | test/tables/name.js:210-212 | Only records that do not resolve: the loop reads no text and returns the empty map. |
| NameTableLayout.AllRecordFields | test/tables/name.js:23-55 | The loop pushes six fields per name. |
| NameTableLayout.BoundedFits | test/tables/name.js:17-51 | The table's USHORTs all fit when the IDs are 16-bit, 6 + 12·count fits, and every text is at most L bytes with count·L ≤ 0xFFFF. |
| NameTableLayout.PoolPrefix | test/tables/name.js:52-54 | The pool after the first j names is a prefix of the final pool: appending never rewrites earlier bytes. |
| NameTableLayout.PoolTiling | test/tables/name.js:47-54 | Name i's offset is the sum of the earlier texts' lengths, and its text lies at that offset in the pool. So the texts' ranges are contiguous and disjoint, and they cover the pool. |
| NameTableLayout.PoolLengthIsTotal | test/tables/name.js:52-54 | The pool's length is the sum of the texts' byte lengths. |
| NameTableLayout.AllRecordFieldsAt | test/tables/name.js:26-51 | Name i's six fields are fields 6i to 6i+6 of the record part, and carry its pool offset. |
| NameTableLayout.FieldLayout | test/tables/name.js:16-57 | The table has 3 + 6·count + 1 fields. The header is format 0, count, and stringOffset 6 + 12·count; the last field is the 'strings' pool. |
| NameTableLayout.RecordFieldsInTable | test/tables/name.js:26-51 | Fields 3+6i to 3+6i+6 are platformID, encodingID, languageID, nameID, length (the text's byte length) and offset (its place in the pool). |
| NameTableRoundTrip.RecordFieldsFit | test/tables/name.js:26-51 | A name's six fields all fit in 16 bits iff its record does. |
| NameTableRoundTrip.AllRecordFieldsFit | test/tables/name.js:23-55 | All record fields fit iff every name's record fits at its offset. |
| NameTableRoundTrip.EncodeRecordFields | test/tables/name.js:26-51 | A name's six fields encode as the 12-byte record of its IDs, its text length and its offset. |
| NameTableRoundTrip.EncodeAllRecordFields | test/tables/name.js:23-55 | The record fields of all the names encode as the record array, in name order. |
| NameTableRoundTrip.HeaderFit | test/tables/name.js:16-20 | The header fits iff 6 + 12·count does. |
| NameTableRoundTrip.EncodeHeader | test/tables/name.js:16-20 | The header encodes as format 0, count, and 6 + 12·count. |
| NameTableRoundTrip.EncodeStrings | test/tables/name.js:57 | The LITERAL pool encodes as its bytes verbatim and never overflows. |
| NameTableRoundTrip.NameTableFieldsFit | test/tables/name.js:15-59 | makeNameTable's field list fits iff the names fit. |
| NameTableRoundTrip.EncodeNameTable | test/tables/name.js:59 | encode.TABLE of makeNameTable's fields fails with IntegerOverflow iff the names do not fit. Otherwise it gives the header, the records and the pool: 6 + 12·count + total text length bytes. |
| NameTableRoundTrip.EncodeLayout | test/tables/name.js:59 | A header, record fields that encode as `rs`, and a pool encode together as the table laid out around `rs` and the pool. |
| NameTableRoundTrip.TableCount | test/tables/name.js:18 | Bytes 2-3 of the built table hold the record count. |
| NameTableRoundTrip.TableStringOffset | test/tables/name.js:19 | Bytes 4-5 of the built table hold 6 + 12·count, where the pool starts. |
| NameTableRoundTrip.TableRecords | test/tables/name.js:26-51 | Bytes 6 to 6 + 12·count of the built table are the record array. |
| NameTableRoundTrip.RecordsReadBack | test/tables/name.js:68-70 | The record array after a 6-byte header reads back as the records it was made of. |
| NameTableRoundTrip.TextShift | test/tables/name.js:19 | A text read at stringOffset + offset in the whole table is the text at offset in the pool alone, and lies in bounds in one iff it does in the other. |
| NameTableRoundTrip.EntriesShift | test/tables/name.js:68-70 | Every record resolves to the same entry whether it is read from the table or from the pool alone. |
| NameTableRoundTrip.ParseLaidOut | test/tables/name.js:68-70 | Parsing a table laid out from records and a pool gives the map of the records' entries, read from the pool. |
| NameTableRoundTrip.PoolText | test/tables/name.js:45-54 | Name i's record (offset, length) locates exactly name i's text in the pool. |
| NameTableRoundTrip.PoolEntries | test/tables/name.js:68-70 | The records read against the pool resolve to the names' own entries. |
| NameTableRoundTrip.ParseMakeRoundTrip | test/tables/name.js:68-70 | Parsing what makeNameTable encodes gives exactly the map the names denote. |
| NameTableBuilder.MakeNameTable | test/tables/name.js:15-66 | makeNameTable fails with IntegerOverflow iff the names do not fit. Otherwise it returns a fresh buffer holding the table's bytes. |
| NameTableBuilder.FillTable | test/tables/name.js:16-57 | The filled table is named 'name' and holds the header, six fields per name (offset = pool length before the text), then the pool. |
| NameTableBuilder.PushRecord | test/tables/name.js:26-51 | The six pushes append name i's six record fields, in order. |
| NameTableBuilder.AppendBytes | test/tables/name.js:52-54 | Pushing the text's bytes one by one appends the text to the pool. |
| NameTableBuilder.CopyToBuffer | test/tables/name.js:59-63 | The fresh buffer holds the encoded bytes, in order. |
| NameTableBuilder.FieldsStep | test/tables/name.js:23-55 | After name i the fields are the header plus the first i+1 names' record fields, and the pool has grown by name i's text. |
| NameTableBuilder.ParseNames | test/tables/name.js:68-70 | parseNameTable returns IntegerOverflow when the names do not fit, and otherwise exactly the map the names denote. |
| NameRecordListing.Slice | test/tables/name.js:80-83 | Array slice clamps both ends to the length: the plain subsequence when the range is inside, the tail from start when only the end runs past, and empty when start is at or past the end. |
| NameRecordListing.ListRecords | test/tables/name.js:76-127 | The field loop can only fail with IllTyped. |
| NameRecordListing.NameRecordLines | test/tables/name.js:72-75 | Without a last 'strings' field, the listing fails with MissingStringPool; any other failure is IllTyped. |
| NameRecordListing.GetNameRecords | test/tables/name.js:72-130 | The method's loop computes exactly the listing NameRecordLines describes. |
| NameRecordListing.ListRecordsStep | test/tables/name.js:76-127 | A 'record_' field adds its line (or fails when it holds no record); any other field adds nothing. |
| NameRecordListing.ListRecordsFailurePersists | test/tables/name.js:76-127 | Once the loop fails on a prefix, the whole listing fails. |
| NameRecordListing.RecordFieldsOf | test/tables/name.js:78 | Every kept field passes the 'record_' prefix test, and there are no more of them than fields. |
| NameRecordListing.RecordFieldsMembers | test/tables/name.js:76-78 | RecordFieldsOf keeps exactly the fields that pass the 'record_' prefix test: each kept field is one of the fields, and every field that passes is kept. |
| NameRecordListing.ListRecordsMeaning | test/tables/name.js:76-127 | The listing succeeds iff there is no 'record_' field, or they all hold records and the pool is a byte array. It then has one line per 'record_' field, in field order. |
| NameRecordListing.PlatformName | test/tables/name.js:84-85 | Platforms 0-3 and only they have a name, a single word that does not start with a digit. |
| NameRecordListing.EncodingName | test/tables/name.js:87-112 | Encoding names exist only on platforms 0, 1 and 3 and are single words that do not start with a digit. |
| NameRecordListing.LanguageName | test/tables/name.js:88-112 | Language names exist only on platforms 1 and 3 (platform 0 has none) and are single words that do not start with a digit. |
| NameRecordListing.NameOrNumber | test/tables/name.js:117-119 | `name || number`: the name when there is one, otherwise the plain decimal form of the number (Decimal). Either way a non-empty word with no space. |
| NameRecordListing.PlatformLabelAsWritten | test/tables/name.js:84-86 | As written: the dictionary word on platforms 0-3 and "undefined" above 3, always a word with no digit first. |
| NameRecordListing.PlatformLabel | test/tables/name.js:84-86 | The corrected label: the dictionary word on platforms 0-3, and above 3 the plain decimal form of the platform ID. Never empty, never a space. |
| NameRecordListing.EncodingLabel | test/tables/name.js:87-117 | The encoding's dictionary word when it has one, otherwise the plain decimal form of the encoding ID. Never empty, never a space. |
| NameRecordListing.LanguageLabel | test/tables/name.js:88-119 | The language's dictionary word when it has one, otherwise the plain decimal form of the language ID. Never empty, never a space. |
| NameRecordListing.RecordLine | test/tables/name.js:114-125 | A line starts with the platform label and a space and ends with ']'. |
| NameRecordListing.RecordLineIdentifies | test/tables/name.js:114-125 | Two records with the same line have the same platform, encoding, language and name IDs: the line identifies its record. |
| NameRecordListing.DecimalInjective | test/tables/name.js:117-121 | Different numbers print differently. |
| NameRecordListing.NameOrNumberInjective | test/tables/name.js:117-119 | The name-or-number fallback tells numbers apart when names start with a letter and differ per number. |
| NameRecordListing.PlatformLabelInjective | test/tables/name.js:84-86 | With the corrected fallback, different platforms get different labels. |
| NameRecordListing.EncodingLabelInjective | test/tables/name.js:87-117 | Within a platform, different encodings get different labels. |
| NameRecordListing.LanguageLabelInjective | test/tables/name.js:94-119 | Within a platform, different languages get different labels. |
| NameRecordListing.PlatformLabelAsWrittenCollides | test/tables/name.js:84-86 | As written, platforms 4 and 5 both get the label "undefined". |
| NameRecordListing.PlatformLabelsAgree | test/tables/name.js:84-86 | On platforms 0-3 the corrected label and the label as written agree. |
| NameTableCases.UnknownPlatformCase | test/tables/name.js:210-212 | A table with one record of platform 666 parses to {}. |
| NameTableCases.WindowsMacCase | test/tables/name.js:133-177 | The eight-name Windows and Macintosh table parses to fontFamily {en, iu, iu-Latn, ja}, 300 {bg, en, tr} and 44444 {en}, with the test's texts. |
| NameTableCases.WindowsMacTable | test/tables/name.js:133-177 | The same holds for any texts of those eight records that fit. |
| NameTableCases.WindowsMacEntries | test/tables/name.js:136-156 | Each of the eight records resolves to its own (key, tag) slot and text. |
| NameTableCases.WindowsMacMap | test/tables/name.js:160-175 | Inserting the eight entries in order gives the test's three-name map. |
| NameTableCases.LtagCase | test/tables/name.js:179-208 | With ltag [en, de, de-1901], the four Unicode names parse to fontFamily {de, de-1901, en} and 999 {und}, with the test's texts. |
| NameTableCases.LtagTable | test/tables/name.js:179-208 | The same holds for any texts of those four records that fit. |
| NameTableCases.LtagEntries | test/tables/name.js:184-195 | Language IDs 0, 1 and 2 resolve through ltag, and 0xFFFF resolves to und. |
| NameTableCases.LtagMap | test/tables/name.js:197-206 | Inserting the four entries in order gives the test's two-name map. |

## Left out

- The library modules the test imports are not part of this model's
  sources: `src/table`, `src/types` and `src/tables/name`. The model
  builds encode.TABLE, encode.USHORT and name.parse from the 'name' table
  format and from what the test asserts about them.
  - Table encoding covers only the three field kinds the helpers use:
    USHORT, LITERAL, and a name record's six USHORTs.
  - name.parse covers format 0 only. The format field is read and
    ignored, and format 1 language-tag records are not modelled.
- name.make, the library's own 'name' table writer, is not used by the
  test and is not modelled.
- `unhex` and `hex` from the test utilities are not modelled. Names carry
  their texts as bytes, and `hex` is a parameter of the listing.
- The Macintosh single-byte codecs are a parameter: for an (encoding,
  language) pair, a decoder or none. Which pairs have a codec is therefore
  not modelled, only that the choice is made before the text is read.
- The language registries hold only the entries the tests assert.
  - Windows: 0x0409 en, 0x0411 ja, 0x045D iu, 0x085D iu-Latn.
  - Macintosh: 0 en, 17 tr, 44 bg.
  - Any other LCID or Macintosh language code drops the record. The full
    registries are larger.
- Only nameID 1 has a symbolic key ('fontFamily'). The library's other
  predefined name IDs are keyed by their number here.
- Utf16BeDecode: an odd final byte of a UTF-16BE text is ignored. Unpaired
  surrogates are kept as code units, as in a JavaScript string.
- The DataView is a byte sequence, and name.parse is modelled at offset 0
  only, the offset parseNameTable passes.
- RecordLine: its contract states the line's frame (platform label first,
  ']' last); the words' meaning is stated by RecordLineIdentifies, and
  the hex of the text is a parameter.
- RecordFieldsOf: its contract and RecordFieldsMembers state which fields
  it keeps, not their order nor how many times each is kept; order and
  multiplicity are given by its definition alone.
- JavaScript's dynamic typing is replaced by explicit errors.
  - A table whose last field is not 'strings' fails with
    MissingStringPool, where the test's `assert` throws. So does an empty
    field list, where JavaScript throws a TypeError.
  - A 'record_' field whose value is not a record makes the listing fail
    with IllTyped. In JavaScript it would print `undefined` parts or
    throw.
  - makeNameTable's values are integers: fractional or non-numeric
    values are not modelled.
- The mocha harness (`describe`, `it`, `assert.deepEqual`) becomes the
  lemmas of `NameTableCases`. Deep equality of the result is equality of
  Dafny maps.
- test/distSpec.js, a check of the bundled build, is not modelled.

## Findings

| source | as written | input that shows it | evidently intended | confidence | as-written member | corrected member |
|---|---|---|---|---|---|---|
| test/tables/name.js:84-86 | The platform label falls back to `name.platormID`, a property records do not have, so every platform outside 0-3 is listed as "undefined". | Two records of platformID 4 and platformID 5: both lines start "undefined". | The platform's number, as the encoding and language labels fall back to theirs (lines 117 and 119). | high; not executed | NameRecordListing.PlatformLabelAsWrittenCollides | NameRecordListing.PlatformLabelInjective |

`NameRecordListing.PlatformLabelAsWritten` models the label as written.
`NameRecordListing.PlatformLabel` is the corrected label. `RecordLine`, and
so `GetNameRecords`, use the corrected one.
