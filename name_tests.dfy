/** The three parse cases of the 'name' table tests, as facts about the
    model: the map each table of names denotes, and so (by the round trip)
    what parsing makeNameTable's bytes yields. */
module NameTableCases {
  import opened Types
  import opened Text
  import opened NameLookup
  import opened NameMaps
  import opened NameParse
  import opened NameTableLayout
  import opened NameTableRoundTrip

  /** A table whose only record is of platform 666 parses to the empty map. */
  lemma UnknownPlatformCase(mac: MacDecoder)
    ensures var names := [NameSpec(1, [0x01, 0x02], 666, 1, 1)];
      && Fits(names)
      && NamesToMap(names, None, mac) == map[]
      && ParseNameTable(NameTableBytes(names), None, mac) == Success(map[])
  {
    var names := [NameSpec(1, [0x01, 0x02], 666, 1, 1)];
    assert names[..0] == [];
    assert Fits(names);
    var es := NameEntries(names, None, mac);
    assert es == [] + [None];
    BuildMapSnoc([], None);
    ParseMakeRoundTrip(names, None, mac);
  }

  // The texts of the cases as UTF-16 code units, the test's hex groups.

  const Walrus: JsString := [0x0057, 0x0061, 0x006C, 0x0072, 0x0075, 0x0073]                    // "Walrus"
  const Walross: JsString := [0x0057, 0x0061, 0x006C, 0x0072, 0x006F, 0x0073, 0x0073]           // "Walross"
  const WalrossOld: JsString := [0x0057, 0x0061, 0x006C, 0x0072, 0x006F, 0x00DF]                // "Walroß"
  const WalrusThin: JsString :=
    [0x0057, 0x0061, 0x006C, 0x0072, 0x0075, 0x0073, 0x002D, 0x0054, 0x0068, 0x0069, 0x006E]    // "Walrus-Thin"

  /** Four entries inserted in order. */
  lemma BuildMapFour(a: Option<Entry>, b: Option<Entry>, c: Option<Entry>, d: Option<Entry>)
    ensures BuildMap([a, b, c, d]) == Insert(Insert(Insert(Insert(map[], a), b), c), d)
  {
    assert [a] == [] + [a];
    assert [a, b] == [a] + [b];
    assert [a, b, c] == [a, b] + [c];
    assert [a, b, c, d] == [a, b, c] + [d];
    BuildMapSnoc([], a);
    BuildMapSnoc([a], b);
    BuildMapSnoc([a, b], c);
    BuildMapSnoc([a, b, c], d);
  }

  /** Unicode records with an ltag table: language IDs 0, 1 and 2 index
      the table, 0xFFFF is 'und'; nameID 1 is fontFamily, 999 keeps its
      number. */
  lemma LtagCase(mac: MacDecoder)
    ensures var ltag := Some(["en", "de", "de-1901"]);
      var names := LtagNames(Utf16BeEncode(Walrus), Utf16BeEncode(Walross),
                             Utf16BeEncode(WalrossOld), Utf16BeEncode(WalrusThin));
      var expected := map[
        Symbolic("fontFamily") := map["de" := Walross, "de-1901" := WalrossOld, "en" := Walrus],
        Numeric(999) := map["und" := WalrusThin]];
      && Fits(names)
      && NamesToMap(names, ltag, mac) == expected
      && ParseNameTable(NameTableBytes(names), ltag, mac) == Success(expected)
  {
    var a, b := Utf16BeEncode(Walrus), Utf16BeEncode(Walross);
    var c, d := Utf16BeEncode(WalrossOld), Utf16BeEncode(WalrusThin);
    assert Utf16BeDecode(a) == Walrus by { Utf16BeRoundTrip(Walrus); }
    assert Utf16BeDecode(b) == Walross by { Utf16BeRoundTrip(Walross); }
    assert Utf16BeDecode(c) == WalrossOld by { Utf16BeRoundTrip(WalrossOld); }
    assert Utf16BeDecode(d) == WalrusThin by { Utf16BeRoundTrip(WalrusThin); }
    LtagTable(a, b, c, d, Walrus, Walross, WalrossOld, WalrusThin, mac);
  }

  /** The ltag case for any four UTF-16BE texts short enough to fit. */
  lemma LtagTable(a: seq<byte>, b: seq<byte>, c: seq<byte>, d: seq<byte>,
                  wa: JsString, wb: JsString, wc: JsString, wd: JsString, mac: MacDecoder)
    requires |a| <= 22 && |b| <= 22 && |c| <= 22 && |d| <= 22
    requires Utf16BeDecode(a) == wa && Utf16BeDecode(b) == wb
    requires Utf16BeDecode(c) == wc && Utf16BeDecode(d) == wd
    ensures var ltag := Some(["en", "de", "de-1901"]);
      var names := LtagNames(a, b, c, d);
      var expected := map[
        Symbolic("fontFamily") := map["de" := wb, "de-1901" := wc, "en" := wa],
        Numeric(999) := map["und" := wd]];
      && Fits(names)
      && NamesToMap(names, ltag, mac) == expected
      && ParseNameTable(NameTableBytes(names), ltag, mac) == Success(expected)
  {
    var names := LtagNames(a, b, c, d);
    LtagFits(a, b, c, d);
    LtagEntries(a, b, c, d, wa, wb, wc, wd, mac);
    var ff := Symbolic("fontFamily");
    BuildMapFour(Some(Entry(ff, "en", wa)), Some(Entry(ff, "de", wb)),
                 Some(Entry(ff, "de-1901", wc)), Some(Entry(Numeric(999), "und", wd)));
    LtagMap(wa, wb, wc, wd);
    ParseMakeRoundTrip(names, Some(["en", "de", "de-1901"]), mac);
  }

  /** The test's four Unicode names, encoding 4, with the given texts. */
  function LtagNames(a: seq<byte>, b: seq<byte>, c: seq<byte>, d: seq<byte>): seq<NameSpec>
  {
    [ NameSpec(1, a, 0, 4, 0),
      NameSpec(1, b, 0, 4, 1),
      NameSpec(1, c, 0, 4, 2),
      NameSpec(999, d, 0, 4, 0xFFFF) ]
  }

  lemma LtagFits(a: seq<byte>, b: seq<byte>, c: seq<byte>, d: seq<byte>)
    requires |a| <= 22 && |b| <= 22 && |c| <= 22 && |d| <= 22
    ensures Fits(LtagNames(a, b, c, d))
  {
    BoundedFits(LtagNames(a, b, c, d), 22);
  }

  /** Each name resolves to its own slot: the ltag entry of its language
      index (0xFFFF is 'und'), and its text decoded. */
  lemma LtagEntries(a: seq<byte>, b: seq<byte>, c: seq<byte>, d: seq<byte>,
                    wa: JsString, wb: JsString, wc: JsString, wd: JsString, mac: MacDecoder)
    requires Utf16BeDecode(a) == wa && Utf16BeDecode(b) == wb
    requires Utf16BeDecode(c) == wc && Utf16BeDecode(d) == wd
    ensures var ff := Symbolic("fontFamily");
      NameEntries(LtagNames(a, b, c, d), Some(["en", "de", "de-1901"]), mac)
      == [Some(Entry(ff, "en", wa)), Some(Entry(ff, "de", wb)),
          Some(Entry(ff, "de-1901", wc)), Some(Entry(Numeric(999), "und", wd))]
  {
    var ltag := Some(["en", "de", "de-1901"]);
    var es := NameEntries(LtagNames(a, b, c, d), ltag, mac);
    assert es[0] == Some(Entry(Symbolic("fontFamily"), "en", wa)) by { UnicodeEntry(1, 0, a, wa, ltag, mac); }
    assert es[1] == Some(Entry(Symbolic("fontFamily"), "de", wb)) by { UnicodeEntry(1, 1, b, wb, ltag, mac); }
    assert es[2] == Some(Entry(Symbolic("fontFamily"), "de-1901", wc)) by { UnicodeEntry(1, 2, c, wc, ltag, mac); }
    assert es[3] == Some(Entry(Numeric(999), "und", wd)) by { UnicodeEntry(999, 0xFFFF, d, wd, ltag, mac); }
  }

  /** A Unicode record (encoding 4) of UTF-16BE text: the text decoded,
      under the language the ltag table gives its index. */
  lemma UnicodeEntry(nameID: int, languageID: int, bytes: seq<byte>, text: JsString,
                     ltag: Option<seq<Tag>>, mac: MacDecoder)
    requires Utf16BeDecode(bytes) == text
    ensures ResolveEntry(0, 4, languageID, nameID, bytes, ltag, mac)
         == Some(Entry(KeyOf(nameID), UnicodeLanguage(languageID, ltag), text))
  {
  }

  /** The four entries fill two names: fontFamily in three languages and
      999 in one. */
  lemma LtagMap(a: JsString, b: JsString, c: JsString, d: JsString)
    ensures
      var ff := Symbolic("fontFamily");
      Insert(Insert(Insert(Insert(map[],
        Some(Entry(ff, "en", a))), Some(Entry(ff, "de", b))),
        Some(Entry(ff, "de-1901", c))), Some(Entry(Numeric(999), "und", d)))
      == map[ff := map["de" := b, "de-1901" := c, "en" := a], Numeric(999) := map["und" := d]]
  {
    var ff := Symbolic("fontFamily");
    var m1 := Insert(map[], Some(Entry(ff, "en", a)));
    assert m1 == map[ff := map["en" := a]];
    var m2 := Insert(m1, Some(Entry(ff, "de", b)));
    assert m2 == map[ff := map["en" := a, "de" := b]];
    var m3 := Insert(m2, Some(Entry(ff, "de-1901", c)));
    assert m3 == map[ff := map["en" := a, "de" := b, "de-1901" := c]];
    assert map["en" := a, "de" := b, "de-1901" := c] == map["de" := b, "de-1901" := c, "en" := a];
  }

  // The Windows and Macintosh case: Windows texts as code units, Macintosh
  // texts as the bytes the test gives and the code units the Macintosh
  // codecs make of them.

  const AiviqSyllabics: JsString := [0x140A, 0x1403, 0x1555, 0x1585]                          // "ᐊᐃᕕᖅ"
  const Aiviq: JsString := [0x0041, 0x0069, 0x0076, 0x0069, 0x0071]                             // "Aiviq"
  const Haima: JsString := [0x6D77, 0x99AC]                                                     // "海馬"
  const Lipstick: JsString :=
    [0x004C, 0x0069, 0x0070, 0x0073, 0x0074, 0x0069, 0x0063, 0x006B, 0x0020, 0xD83D, 0xDC84]    // "Lipstick 💄"
  const BlackCondensedBytes: seq<byte> :=
    [0x42, 0x6C, 0x61, 0x63, 0x6B, 0x20, 0x43, 0x6F, 0x6E, 0x64, 0x65, 0x6E, 0x73, 0x65, 0x64]
  const BlackCondensed: JsString :=
    [0x42, 0x6C, 0x61, 0x63, 0x6B, 0x20, 0x43, 0x6F, 0x6E, 0x64, 0x65, 0x6E, 0x73, 0x65, 0x64]   // "Black Condensed"
  const KoyuBytes: seq<byte> := [0x4B, 0x6F, 0x79, 0x75, 0x20, 0x53, 0xDD, 0x6B, 0xDD, 0xDF, 0xDD, 0x6B]
  const KoyuSikisik: JsString :=
    [0x4B, 0x6F, 0x79, 0x75, 0x20, 0x53, 0x0131, 0x6B, 0x0131, 0x015F, 0x0131, 0x6B]            // "Koyu Sıkışık"
  const PolucherBytes: seq<byte> := [0x8F, 0xEE, 0xEB, 0xF3, 0xF7, 0xE5, 0xF0, 0x20, 0xF2, 0xE5, 0xF1, 0xE5, 0xED]
  const PolucherTesen: JsString :=
    [0x041F, 0x043E, 0x043B, 0x0443, 0x0447, 0x0435, 0x0440, 0x0020, 0x0442, 0x0435, 0x0441, 0x0435, 0x043D] // "Получер тесен"

  /** Windows and Macintosh records, no ltag table: the Windows LCIDs
      0x0409, 0x045D, 0x085D and 0x0411 give en, iu, iu-Latn and ja; the
      Macintosh language codes 0, 17 and 44 give en, tr and bg, with the
      texts the MacRoman, Mac Turkish and Mac Cyrillic codecs decode. */
  lemma WindowsMacCase(mac: MacDecoder)
    requires mac(0, 0).Some? && mac(0, 0).value(BlackCondensedBytes) == BlackCondensed
    requires mac(35, 17).Some? && mac(35, 17).value(KoyuBytes) == KoyuSikisik
    requires mac(7, 44).Some? && mac(7, 44).value(PolucherBytes) == PolucherTesen
    ensures var names := WindowsMacNames(Utf16BeEncode(Walrus), Utf16BeEncode(AiviqSyllabics),
                                         Utf16BeEncode(Aiviq), Utf16BeEncode(Haima),
                                         BlackCondensedBytes, KoyuBytes, PolucherBytes, Utf16BeEncode(Lipstick));
      var expected := map[
        Symbolic("fontFamily") := map["en" := Walrus, "iu" := AiviqSyllabics, "iu-Latn" := Aiviq, "ja" := Haima],
        Numeric(300) := map["bg" := PolucherTesen, "en" := BlackCondensed, "tr" := KoyuSikisik],
        Numeric(44444) := map["en" := Lipstick]];
      && Fits(names)
      && NamesToMap(names, None, mac) == expected
      && ParseNameTable(NameTableBytes(names), None, mac) == Success(expected)
  {
    var b0, b1 := Utf16BeEncode(Walrus), Utf16BeEncode(AiviqSyllabics);
    var b2, b3 := Utf16BeEncode(Aiviq), Utf16BeEncode(Haima);
    var b4 := Utf16BeEncode(Lipstick);
    assert Utf16BeDecode(b0) == Walrus by { Utf16BeRoundTrip(Walrus); }
    assert Utf16BeDecode(b1) == AiviqSyllabics by { Utf16BeRoundTrip(AiviqSyllabics); }
    assert Utf16BeDecode(b2) == Aiviq by { Utf16BeRoundTrip(Aiviq); }
    assert Utf16BeDecode(b3) == Haima by { Utf16BeRoundTrip(Haima); }
    assert Utf16BeDecode(b4) == Lipstick by { Utf16BeRoundTrip(Lipstick); }
    WindowsMacTable(b0, b1, b2, b3, BlackCondensedBytes, KoyuBytes, PolucherBytes, b4,
                    Walrus, AiviqSyllabics, Aiviq, Haima, BlackCondensed, KoyuSikisik, PolucherTesen, Lipstick, mac);
  }

  /** The Windows and Macintosh case for any texts short enough to fit:
      w0 to w4 are what the Windows bytes decode to, t0 to t2 what the
      Macintosh codecs make of theirs. */
  lemma WindowsMacTable(b0: seq<byte>, b1: seq<byte>, b2: seq<byte>, b3: seq<byte>,
                        m0: seq<byte>, m1: seq<byte>, m2: seq<byte>, b4: seq<byte>,
                        w0: JsString, w1: JsString, w2: JsString, w3: JsString,
                        t0: JsString, t1: JsString, t2: JsString, w4: JsString, mac: MacDecoder)
    requires |b0| <= 22 && |b1| <= 22 && |b2| <= 22 && |b3| <= 22 && |b4| <= 22
    requires |m0| <= 22 && |m1| <= 22 && |m2| <= 22
    requires Utf16BeDecode(b0) == w0 && Utf16BeDecode(b1) == w1 && Utf16BeDecode(b2) == w2
    requires Utf16BeDecode(b3) == w3 && Utf16BeDecode(b4) == w4
    requires mac(0, 0).Some? && mac(0, 0).value(m0) == t0 && mac(35, 17).Some? && mac(35, 17).value(m1) == t1 && mac(7, 44).Some? && mac(7, 44).value(m2) == t2
    ensures var names := WindowsMacNames(b0, b1, b2, b3, m0, m1, m2, b4);
      var expected := map[
        Symbolic("fontFamily") := map["en" := w0, "iu" := w1, "iu-Latn" := w2, "ja" := w3],
        Numeric(300) := map["bg" := t2, "en" := t0, "tr" := t1],
        Numeric(44444) := map["en" := w4]];
      && Fits(names)
      && NamesToMap(names, None, mac) == expected
      && ParseNameTable(NameTableBytes(names), None, mac) == Success(expected)
  {
    var names := WindowsMacNames(b0, b1, b2, b3, m0, m1, m2, b4);
    BoundedFits(names, 22);
    WindowsMacEntries(b0, b1, b2, b3, m0, m1, m2, b4, w0, w1, w2, w3, t0, t1, t2, w4, mac);
    var ff := Symbolic("fontFamily");
    BuildMapEight(
      Some(Entry(ff, "en", w0)), Some(Entry(ff, "iu", w1)),
      Some(Entry(ff, "iu-Latn", w2)), Some(Entry(ff, "ja", w3)),
      Some(Entry(Numeric(300), "en", t0)), Some(Entry(Numeric(300), "tr", t1)),
      Some(Entry(Numeric(300), "bg", t2)), Some(Entry(Numeric(44444), "en", w4)));
    WindowsMacMap(w0, w1, w2, w3, t0, t1, t2, w4);
    ParseMakeRoundTrip(names, None, mac);
  }

  /** The test's eight names: four Windows fontFamily names, three
      Macintosh names with nameID 300, and one Windows name 44444. */
  function WindowsMacNames(b0: seq<byte>, b1: seq<byte>, b2: seq<byte>, b3: seq<byte>,
                           m0: seq<byte>, m1: seq<byte>, m2: seq<byte>, b4: seq<byte>): seq<NameSpec>
  {
    [ NameSpec(1, b0, 3, 1, 0x0409),
      NameSpec(1, b1, 3, 1, 0x045D),
      NameSpec(1, b2, 3, 1, 0x085D),
      NameSpec(1, b3, 3, 1, 0x0411),
      NameSpec(300, m0, 1, 0, 0),
      NameSpec(300, m1, 1, 35, 17),
      NameSpec(300, m2, 1, 7, 44),
      NameSpec(44444, b4, 3, 10, 0x0409) ]
  }

  /** Each name resolves to its slot: the Windows ones by LCID with their
      UTF-16BE text decoded, the Macintosh ones by language code with the
      codec's text. */
  lemma WindowsMacEntries(b0: seq<byte>, b1: seq<byte>, b2: seq<byte>, b3: seq<byte>,
                          m0: seq<byte>, m1: seq<byte>, m2: seq<byte>, b4: seq<byte>,
                          w0: JsString, w1: JsString, w2: JsString, w3: JsString,
                          t0: JsString, t1: JsString, t2: JsString, w4: JsString, mac: MacDecoder)
    requires Utf16BeDecode(b0) == w0 && Utf16BeDecode(b1) == w1 && Utf16BeDecode(b2) == w2
    requires Utf16BeDecode(b3) == w3 && Utf16BeDecode(b4) == w4
    requires mac(0, 0).Some? && mac(0, 0).value(m0) == t0 && mac(35, 17).Some? && mac(35, 17).value(m1) == t1 && mac(7, 44).Some? && mac(7, 44).value(m2) == t2
    ensures var ff := Symbolic("fontFamily");
      NameEntries(WindowsMacNames(b0, b1, b2, b3, m0, m1, m2, b4), None, mac)
      == [Some(Entry(ff, "en", w0)), Some(Entry(ff, "iu", w1)),
          Some(Entry(ff, "iu-Latn", w2)), Some(Entry(ff, "ja", w3)),
          Some(Entry(Numeric(300), "en", t0)), Some(Entry(Numeric(300), "tr", t1)),
          Some(Entry(Numeric(300), "bg", t2)), Some(Entry(Numeric(44444), "en", w4))]
  {
    var es := NameEntries(WindowsMacNames(b0, b1, b2, b3, m0, m1, m2, b4), None, mac);
    FontFamilyEntries(b0, b1, b2, b3, m0, m1, m2, b4, w0, w1, w2, w3, mac);
    OtherEntries(b0, b1, b2, b3, m0, m1, m2, b4, t0, t1, t2, w4, mac);
    assert es == es[..4] + es[4..];
  }

  lemma FontFamilyEntries(b0: seq<byte>, b1: seq<byte>, b2: seq<byte>, b3: seq<byte>,
                          m0: seq<byte>, m1: seq<byte>, m2: seq<byte>, b4: seq<byte>,
                          w0: JsString, w1: JsString, w2: JsString, w3: JsString, mac: MacDecoder)
    requires Utf16BeDecode(b0) == w0 && Utf16BeDecode(b1) == w1
    requires Utf16BeDecode(b2) == w2 && Utf16BeDecode(b3) == w3
    ensures var ff := Symbolic("fontFamily");
      NameEntries(WindowsMacNames(b0, b1, b2, b3, m0, m1, m2, b4), None, mac)[..4]
      == [Some(Entry(ff, "en", w0)), Some(Entry(ff, "iu", w1)),
          Some(Entry(ff, "iu-Latn", w2)), Some(Entry(ff, "ja", w3))]
  {
    var es := NameEntries(WindowsMacNames(b0, b1, b2, b3, m0, m1, m2, b4), None, mac);
    var ff := Symbolic("fontFamily");
    assert es[0] == Some(Entry(ff, "en", w0)) by { WindowsEntry(1, 1, 0x0409, b0, w0, mac); }
    assert es[1] == Some(Entry(ff, "iu", w1)) by { WindowsEntry(1, 1, 0x045D, b1, w1, mac); }
    assert es[2] == Some(Entry(ff, "iu-Latn", w2)) by { WindowsEntry(1, 1, 0x085D, b2, w2, mac); }
    assert es[3] == Some(Entry(ff, "ja", w3)) by { WindowsEntry(1, 1, 0x0411, b3, w3, mac); }
  }

  lemma OtherEntries(b0: seq<byte>, b1: seq<byte>, b2: seq<byte>, b3: seq<byte>,
                     m0: seq<byte>, m1: seq<byte>, m2: seq<byte>, b4: seq<byte>,
                     t0: JsString, t1: JsString, t2: JsString, w4: JsString, mac: MacDecoder)
    requires Utf16BeDecode(b4) == w4
    requires mac(0, 0).Some? && mac(0, 0).value(m0) == t0 && mac(35, 17).Some? && mac(35, 17).value(m1) == t1 && mac(7, 44).Some? && mac(7, 44).value(m2) == t2
    ensures NameEntries(WindowsMacNames(b0, b1, b2, b3, m0, m1, m2, b4), None, mac)[4..]
      == [Some(Entry(Numeric(300), "en", t0)), Some(Entry(Numeric(300), "tr", t1)),
          Some(Entry(Numeric(300), "bg", t2)), Some(Entry(Numeric(44444), "en", w4))]
  {
    var es := NameEntries(WindowsMacNames(b0, b1, b2, b3, m0, m1, m2, b4), None, mac);
    assert es[4] == Some(Entry(Numeric(300), "en", t0));
    assert es[5] == Some(Entry(Numeric(300), "tr", t1));
    assert es[6] == Some(Entry(Numeric(300), "bg", t2));
    assert es[7] == Some(Entry(Numeric(44444), "en", w4)) by { WindowsEntry(44444, 10, 0x0409, b4, w4, mac); }
  }

  /** A Windows record of UTF-16BE text with a registered LCID: the text
      decoded, under the LCID's tag. */
  lemma WindowsEntry(nameID: int, encodingID: int, lcid: int, bytes: seq<byte>, text: JsString, mac: MacDecoder)
    requires WindowsLanguage(lcid).Some? && Utf16BeDecode(bytes) == text
    ensures ResolveEntry(3, encodingID, lcid, nameID, bytes, None, mac)
         == Some(Entry(KeyOf(nameID), WindowsLanguage(lcid).value, text))
  {
  }

  /** Eight entries inserted in order. */
  lemma BuildMapEight(a: Option<Entry>, b: Option<Entry>, c: Option<Entry>, d: Option<Entry>,
                      e: Option<Entry>, f: Option<Entry>, g: Option<Entry>, h: Option<Entry>)
    ensures BuildMap([a, b, c, d, e, f, g, h])
         == Insert(Insert(Insert(Insert(BuildMap([a, b, c, d]), e), f), g), h)
  {
    assert [a, b, c, d, e] == [a, b, c, d] + [e];
    assert [a, b, c, d, e, f] == [a, b, c, d, e] + [f];
    assert [a, b, c, d, e, f, g] == [a, b, c, d, e, f] + [g];
    assert [a, b, c, d, e, f, g, h] == [a, b, c, d, e, f, g] + [h];
    BuildMapSnoc([a, b, c, d], e);
    BuildMapSnoc([a, b, c, d, e], f);
    BuildMapSnoc([a, b, c, d, e, f], g);
    BuildMapSnoc([a, b, c, d, e, f, g], h);
  }

  /** The eight entries fill three names: fontFamily in four languages,
      300 in three, 44444 in one; no slot is written twice. */
  lemma WindowsMacMap(w0: JsString, w1: JsString, w2: JsString, w3: JsString,
                      t0: JsString, t1: JsString, t2: JsString, w4: JsString)
    ensures var ff := Symbolic("fontFamily");
      Insert(Insert(Insert(Insert(
        BuildMap([Some(Entry(ff, "en", w0)), Some(Entry(ff, "iu", w1)),
                  Some(Entry(ff, "iu-Latn", w2)), Some(Entry(ff, "ja", w3))]),
        Some(Entry(Numeric(300), "en", t0))),
        Some(Entry(Numeric(300), "tr", t1))),
        Some(Entry(Numeric(300), "bg", t2))),
        Some(Entry(Numeric(44444), "en", w4)))
      == map[ff := map["en" := w0, "iu" := w1, "iu-Latn" := w2, "ja" := w3],
             Numeric(300) := map["bg" := t2, "en" := t0, "tr" := t1],
             Numeric(44444) := map["en" := w4]]
  {
    var ff := Symbolic("fontFamily");
    var m4 := map[ff := map["en" := w0, "iu" := w1, "iu-Latn" := w2, "ja" := w3]];
    assert BuildMap([Some(Entry(ff, "en", w0)), Some(Entry(ff, "iu", w1)),
                     Some(Entry(ff, "iu-Latn", w2)), Some(Entry(ff, "ja", w3))]) == m4 by {
      BuildMapFour(Some(Entry(ff, "en", w0)), Some(Entry(ff, "iu", w1)),
                   Some(Entry(ff, "iu-Latn", w2)), Some(Entry(ff, "ja", w3)));
      WindowsPart(w0, w1, w2, w3);
    }
    MacPart(m4, t0, t1, t2, w4);
  }

  lemma WindowsPart(w0: JsString, w1: JsString, w2: JsString, w3: JsString)
    ensures var ff := Symbolic("fontFamily");
      Insert(Insert(Insert(Insert(map[],
        Some(Entry(ff, "en", w0))), Some(Entry(ff, "iu", w1))),
        Some(Entry(ff, "iu-Latn", w2))), Some(Entry(ff, "ja", w3)))
      == map[ff := map["en" := w0, "iu" := w1, "iu-Latn" := w2, "ja" := w3]]
  {
    var ff := Symbolic("fontFamily");
    var m1 := Insert(map[], Some(Entry(ff, "en", w0)));
    assert m1 == map[ff := map["en" := w0]];
    var m2 := Insert(m1, Some(Entry(ff, "iu", w1)));
    assert m2 == map[ff := map["en" := w0, "iu" := w1]];
    var m3 := Insert(m2, Some(Entry(ff, "iu-Latn", w2)));
    assert m3 == map[ff := map["en" := w0, "iu" := w1, "iu-Latn" := w2]];
  }

  lemma MacPart(m4: NameMap, t0: JsString, t1: JsString, t2: JsString, w4: JsString)
    requires Numeric(300) !in m4 && Numeric(44444) !in m4
    ensures
      Insert(Insert(Insert(Insert(m4,
        Some(Entry(Numeric(300), "en", t0))), Some(Entry(Numeric(300), "tr", t1))),
        Some(Entry(Numeric(300), "bg", t2))), Some(Entry(Numeric(44444), "en", w4)))
      == m4[Numeric(300) := map["bg" := t2, "en" := t0, "tr" := t1]][Numeric(44444) := map["en" := w4]]
  {
    var m7 := m4[Numeric(300) := map["bg" := t2, "en" := t0, "tr" := t1]];
    Name300(m4, t0, t1, t2);
    InsertNew(m7, Numeric(44444), "en", w4);
  }

  /** The three Macintosh entries fill name 300. */
  lemma Name300(m4: NameMap, t0: JsString, t1: JsString, t2: JsString)
    requires Numeric(300) !in m4
    ensures
      Insert(Insert(Insert(m4,
        Some(Entry(Numeric(300), "en", t0))), Some(Entry(Numeric(300), "tr", t1))),
        Some(Entry(Numeric(300), "bg", t2)))
      == m4[Numeric(300) := map["bg" := t2, "en" := t0, "tr" := t1]]
  {
    var k := Numeric(300);
    var m5 := Insert(m4, Some(Entry(k, "en", t0)));
    assert m5 == m4[k := map["en" := t0]] by {
      InsertNew(m4, k, "en", t0);
    }
    var m6 := Insert(m5, Some(Entry(k, "tr", t1)));
    assert m6 == m4[k := map["en" := t0, "tr" := t1]] by {
      InsertExisting(m5, k, "tr", t1);
    }
    assert Insert(m6, Some(Entry(k, "bg", t2))) == m4[k := map["en" := t0, "tr" := t1, "bg" := t2]] by {
      InsertExisting(m6, k, "bg", t2);
    }
    assert map["en" := t0, "tr" := t1, "bg" := t2] == map["bg" := t2, "en" := t0, "tr" := t1];
  }

  /** An insert under a new key adds a one-entry inner map. */
  lemma InsertNew(m: NameMap, k: NameKey, t: Tag, v: JsString)
    requires k !in m
    ensures Insert(m, Some(Entry(k, t, v))) == m[k := map[t := v]]
  {
  }

  /** An insert under a key the map already has updates that key's inner map. */
  lemma InsertExisting(m: NameMap, k: NameKey, t: Tag, v: JsString)
    requires k in m
    ensures Insert(m, Some(Entry(k, t, v))) == m[k := m[k][t := v]]
  {
  }
}
