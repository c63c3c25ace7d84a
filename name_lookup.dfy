/** Identifier resolution for 'name' records: the platform gate, text codec
    selection, language resolution (Windows LCIDs, Macintosh language codes,
    the 'ltag' indirection for Unicode records) and name keys. Each registry
    is a separate lookup; ResolveEntry dispatches on the platform. */
module NameLookup {
  import opened Types
  import opened Text

  /** A BCP-47 language tag. */
  type Tag = string

  /** The tag for records whose language cannot be determined. */
  const Undetermined: Tag := "und"

  /** Platforms whose records are kept: 0 Unicode, 1 Macintosh, 3 Windows. */
  predicate SupportedPlatform(platformID: int)
  {
    platformID == 0 || platformID == 1 || platformID == 3
  }

  /** Windows LCID to BCP-47 tag. Only the LCIDs whose tags the tests
      assert are in this table; the syllabic and the Latin-script
      Inuktitut differ by LCID alone. */
  function WindowsLanguage(lcid: int): (r: Option<Tag>)
    ensures r.Some? ==> r.value != Undetermined
    ensures r.Some? ==> lcid % 0x400 == (if r.value == "en" then 0x09 else if r.value == "ja" then 0x11 else 0x5D)
  {
    if lcid == 0x0409 then Some("en")
    else if lcid == 0x0411 then Some("ja")
    else if lcid == 0x045D then Some("iu")
    else if lcid == 0x085D then Some("iu-Latn")
    else None
  }

  /** Macintosh language code to BCP-47 tag, again only the codes whose
      tags the tests assert. */
  function MacLanguage(code: int): (r: Option<Tag>)
    ensures r.Some? ==> r.value != Undetermined
  {
    if code == 0 then Some("en")
    else if code == 17 then Some("tr")
    else if code == 44 then Some("bg")
    else None
  }

  /** Distinct registered LCIDs give distinct tags: the syllabic and the
      Latin-script Inuktitut names do not collide. */
  lemma WindowsLanguageInjective(a: int, b: int)
    requires WindowsLanguage(a).Some? && WindowsLanguage(a) == WindowsLanguage(b)
    ensures a == b
  {
  }

  /** Distinct registered Macintosh language codes give distinct tags. */
  lemma MacLanguageInjective(a: int, b: int)
    requires MacLanguage(a).Some? && MacLanguage(a) == MacLanguage(b)
    ensures a == b
  {
  }

  /** Unicode-platform language: 0xFFFF is undetermined; otherwise an index
      into the ltag table when one is given and the index is in range;
      anything else is undetermined too. */
  function UnicodeLanguage(languageID: int, ltag: Option<seq<Tag>>): (r: Tag)
    ensures languageID == 0xFFFF || ltag.None? ==> r == Undetermined
    ensures r == Undetermined || (ltag.Some? && r in ltag.value)
    ensures languageID != 0xFFFF && ltag.Some? && 0 <= languageID < |ltag.value| ==> r == ltag.value[languageID]
  {
    if languageID == 0xFFFF then Undetermined
    else if ltag.Some? && 0 <= languageID < |ltag.value| then ltag.value[languageID]
    else Undetermined
  }

  /** Language resolution, dispatched on the platform. */
  function LanguageTag(platformID: int, languageID: int, ltag: Option<seq<Tag>>): (r: Option<Tag>)
    ensures r.Some? ==> SupportedPlatform(platformID)
    ensures platformID == 0 ==> r.Some?
    ensures platformID != 0 && r.Some? ==> r.value != Undetermined
  {
    if platformID == 0 then Some(UnicodeLanguage(languageID, ltag))
    else if platformID == 1 then MacLanguage(languageID)
    else if platformID == 3 then WindowsLanguage(languageID)
    else None
  }

  /** The ltag table is consulted for Unicode records only. */
  lemma LtagOnlyForUnicode(platformID: int, languageID: int, ltag1: Option<seq<Tag>>, ltag2: Option<seq<Tag>>)
    requires platformID != 0
    ensures LanguageTag(platformID, languageID, ltag1) == LanguageTag(platformID, languageID, ltag2)
  {
  }

  /** The legacy single-byte Macintosh codecs: given a record's encoding
      and language IDs, the decoder for its bytes, or None when the
      combination has no codec. The choice never looks at the bytes. */
  type MacDecoder = (int, int) -> Option<seq<byte> -> JsString>

  /** A text codec exists for the record: UTF-16BE for Unicode and Windows
      records whatever their encoding ID, a Macintosh codec for platform 1
      when one is registered for its encoding and language. */
  predicate HasCodec(platformID: int, encodingID: int, languageID: int, mac: MacDecoder)
  {
    platformID == 0 || platformID == 3 || (platformID == 1 && mac(encodingID, languageID).Some?)
  }

  /** Decoding with the selected codec. */
  function DecodeText(platformID: int, encodingID: int, languageID: int, bytes: seq<byte>, mac: MacDecoder): (r: JsString)
    requires HasCodec(platformID, encodingID, languageID, mac)
    ensures platformID != 1 ==> |r| == |bytes| / 2
    ensures platformID != 1 ==> forall k :: 0 <= k < |r| ==> r[k] == Word(bytes[2 * k], bytes[2 * k + 1])
  {
    if platformID == 1 then mac(encodingID, languageID).value(bytes) else Utf16BeDecode(bytes)
  }

  /** The key of a name in the resolved map: nameID 1 is 'fontFamily',
      every other nameID is keyed by its number. */
  datatype NameKey = Symbolic(key: string) | Numeric(id: int)

  function KeyOf(nameID: int): (k: NameKey)
    ensures k.Symbolic? <==> nameID == 1
    ensures k.Numeric? ==> k.id == nameID
    ensures nameID == 1 ==> k == Symbolic("fontFamily")
  {
    if nameID == 1 then Symbolic("fontFamily") else Numeric(nameID)
  }

  /** What one record contributes to the resolved map. */
  datatype Entry = Entry(key: NameKey, tag: Tag, text: JsString)

  /** A record is kept when its platform is supported, a codec exists for
      it and its language resolves; all three are decided from the record's
      identifiers before its text is read. */
  predicate Resolvable(platformID: int, encodingID: int, languageID: int,
                       ltag: Option<seq<Tag>>, mac: MacDecoder)
  {
    && SupportedPlatform(platformID)
    && HasCodec(platformID, encodingID, languageID, mac)
    && LanguageTag(platformID, languageID, ltag).Some?
  }

  /** The entry of one record whose text bytes are given, or None when the
      record is dropped: unsupported platform, no codec, or no language. */
  function ResolveEntry(platformID: int, encodingID: int, languageID: int, nameID: int,
                        bytes: seq<byte>, ltag: Option<seq<Tag>>, mac: MacDecoder): (e: Option<Entry>)
    ensures e.Some? <==> Resolvable(platformID, encodingID, languageID, ltag, mac)
    ensures e.Some? ==> e.value.key == KeyOf(nameID)
    ensures e.Some? ==> e.value.tag == LanguageTag(platformID, languageID, ltag).value
  {
    if !Resolvable(platformID, encodingID, languageID, ltag, mac) then None
    else
      Some(Entry(KeyOf(nameID), LanguageTag(platformID, languageID, ltag).value,
                 DecodeText(platformID, encodingID, languageID, bytes, mac)))
  }

  /** A record of any platform other than 0, 1 and 3 contributes nothing. */
  lemma UnknownPlatformDropped(platformID: int, encodingID: int, languageID: int, nameID: int,
                               bytes: seq<byte>, ltag: Option<seq<Tag>>, mac: MacDecoder)
    requires !SupportedPlatform(platformID)
    ensures ResolveEntry(platformID, encodingID, languageID, nameID, bytes, ltag, mac) == None
  {
  }

  /** A Unicode record is never dropped: its text is UTF-16BE whatever the
      encoding ID, and its tag comes from ltag or is 'und'. */
  lemma UnicodeRecordEntry(encodingID: int, languageID: int, nameID: int,
                           bytes: seq<byte>, ltag: Option<seq<Tag>>, mac: MacDecoder)
    ensures var e := ResolveEntry(0, encodingID, languageID, nameID, bytes, ltag, mac);
      && e.Some?
      && e.value.key == KeyOf(nameID)
      && e.value.text == Utf16BeDecode(bytes)
      && (ltag.Some? && 0 <= languageID < |ltag.value| && languageID != 0xFFFF ==> e.value.tag == ltag.value[languageID])
      && (ltag.None? || languageID == 0xFFFF || !(0 <= languageID < |ltag.value|) ==> e.value.tag == "und")
  {
  }

  /** A Windows record is kept exactly when its LCID is registered; its
      text is UTF-16BE whatever the encoding ID. */
  lemma WindowsRecordEntry(encodingID: int, languageID: int, nameID: int,
                           bytes: seq<byte>, ltag: Option<seq<Tag>>, mac: MacDecoder)
    ensures var e := ResolveEntry(3, encodingID, languageID, nameID, bytes, ltag, mac);
      && (e.Some? <==> WindowsLanguage(languageID).Some?)
      && (e.Some? ==> e.value == Entry(KeyOf(nameID), WindowsLanguage(languageID).value, Utf16BeDecode(bytes)))
  {
  }

  /** A Macintosh record is kept exactly when its codec and its language
      code both resolve; the ltag table plays no part. */
  lemma MacintoshRecordEntry(encodingID: int, languageID: int, nameID: int,
                             bytes: seq<byte>, ltag: Option<seq<Tag>>, mac: MacDecoder)
    ensures var e := ResolveEntry(1, encodingID, languageID, nameID, bytes, ltag, mac);
      && (e.Some? <==> mac(encodingID, languageID).Some? && MacLanguage(languageID).Some?)
      && (e.Some? ==> e.value == Entry(KeyOf(nameID), MacLanguage(languageID).value, mac(encodingID, languageID).value(bytes)))
      && e == ResolveEntry(1, encodingID, languageID, nameID, bytes, None, mac)
  {
  }
}
