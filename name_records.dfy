/** The test helper getNameRecords: a listing of the records of a 'name'
    table object, one line per 'record_' field in field order, each giving
    the platform, encoding and language (by name where the helper knows it,
    by number otherwise), the nameID and the record's text in hex. */
module NameRecordListing {
  import opened Types
  import opened Text
  import opened Tables

  /** The hex formatter of the test utilities, which this model does not
      define. */
  type Hex = seq<byte> -> string

  // ---------------------------------------------------------------------
  // Label dictionaries

  /** A word of a dictionary: not empty, not starting with a digit, and
      without spaces, so that it can be neither a number nor two words. */
  predicate IsDictionaryWord(s: string)
  {
    |s| > 0 && !('0' <= s[0] <= '9') && SpaceFree(s)
  }

  predicate SpaceFree(s: string)
  {
    ' ' !in s
  }

  function PlatformName(platformID: int): (r: Option<string>)
    ensures r.Some? <==> 0 <= platformID <= 3
    ensures r.Some? ==> IsDictionaryWord(r.value)
  {
    if platformID == 0 then Some("Uni")
    else if platformID == 1 then Some("Mac")
    else if platformID == 2 then Some("ISO")
    else if platformID == 3 then Some("Win")
    else None
  }

  /** Only the Unicode, Macintosh and Windows platforms name encodings. */
  function EncodingName(platformID: int, encodingID: int): (r: Option<string>)
    ensures r.Some? ==> (platformID == 0 || platformID == 1 || platformID == 3) && IsDictionaryWord(r.value)
  {
    if platformID == 0 then
      if encodingID == 3 then Some("UCS-2") else if encodingID == 4 then Some("UTF-16") else None
    else if platformID == 1 then
      if encodingID == 0 then Some("smRoman") else if encodingID == 28 then Some("smEthiopic") else None
    else if platformID == 3 then
      if encodingID == 1 then Some("UCS-2") else if encodingID == 10 then Some("UCS-4") else None
    else None
  }

  /** Unicode records have no language name; Macintosh and Windows records
      have a few. */
  function LanguageName(platformID: int, languageID: int): (r: Option<string>)
    ensures r.Some? ==> (platformID == 1 || platformID == 3) && IsDictionaryWord(r.value)
  {
    if platformID == 1 then
      if languageID == 0 then Some("langEnglish")
      else if languageID == 2 then Some("langGerman")
      else if languageID == 81 then Some("langIndonesian")
      else if languageID == 143 then Some("langInuktitut")
      else None
    else if platformID == 3 then
      if languageID == 0x0407 then Some("German/Germany")
      else if languageID == 0x0409 then Some("English/US")
      else if languageID == 0x0411 then Some("Japanese/Japan")
      else if languageID == 0x0421 then Some("Indonesian/Indonesia")
      else if languageID == 0x045D then Some("Inuktitut/Canada")
      else if languageID == 0x085D then Some("Inuktitut-Latin/Canada")
      else None
    else None
  }

  /** `name || number`: the name when the dictionary has one, the decimal
      number otherwise. Either way a single word. */
  function NameOrNumber(name: Option<string>, n: nat): (r: string)
    requires name.Some? ==> IsDictionaryWord(name.value)
    ensures |r| > 0 && SpaceFree(r)
    ensures name.Some? ==> r == name.value
    ensures name.None? ==> r == Decimal(n)
  {
    if name.Some? then name.value else Decimal(n)
  }

  /** The platform label as the helper computes it: its fallback reads a
      property that records do not have, so every unknown platform is
      listed as "undefined". The label is always a word, never a number. */
  function PlatformLabelAsWritten(platformID: u16): (r: string)
    ensures IsDictionaryWord(r)
    ensures platformID <= 3 ==> PlatformName(platformID).Some? && r == PlatformName(platformID).value
    ensures platformID > 3 ==> r == "undefined"
  {
    if PlatformName(platformID).Some? then PlatformName(platformID).value else "undefined"
  }

  /** The platform label with the fallback the other labels use: the
      platform's number. */
  function PlatformLabel(platformID: u16): (r: string)
    ensures |r| > 0 && SpaceFree(r)
    ensures PlatformName(platformID).Some? ==> r == PlatformName(platformID).value
    ensures platformID > 3 ==> r == Decimal(platformID)
  {
    NameOrNumber(PlatformName(platformID), platformID)
  }

  function EncodingLabel(platformID: u16, encodingID: u16): (r: string)
    ensures |r| > 0 && SpaceFree(r)
    ensures EncodingName(platformID, encodingID).Some? ==> r == EncodingName(platformID, encodingID).value
    ensures EncodingName(platformID, encodingID).None? ==> r == Decimal(encodingID)
  {
    NameOrNumber(EncodingName(platformID, encodingID), encodingID)
  }

  function LanguageLabel(platformID: u16, languageID: u16): (r: string)
    ensures |r| > 0 && SpaceFree(r)
    ensures LanguageName(platformID, languageID).Some? ==> r == LanguageName(platformID, languageID).value
    ensures LanguageName(platformID, languageID).None? ==> r == Decimal(languageID)
  {
    NameOrNumber(LanguageName(platformID, languageID), languageID)
  }

  // ---------------------------------------------------------------------
  // Lines

  /** Array.prototype.slice(start, end) for 0 <= start <= end: both ends
      are clamped to the length. */
  function Slice(s: seq<byte>, start: nat, end: nat): (r: seq<byte>)
    requires start <= end
    ensures end <= |s| ==> r == s[start..end]
    ensures start <= |s| <= end ==> r == s[start..]
    ensures |s| <= start ==> r == []
    ensures |r| <= end - start
  {
    var from := if start < |s| then start else |s|;
    var to := if end < |s| then end else |s|;
    s[from..to]
  }

  /** The listing line of one record. */
  function RecordLine(r: NameRecord, pool: seq<byte>, hex: Hex): (line: string)
    ensures var p := PlatformLabel(r.platformID);
      |p| < |line| && line[..|p| + 1] == p + " " && line[|line| - 1] == ']'
  {
    PlatformLabel(r.platformID) + " " + EncodingLabel(r.platformID, r.encodingID) + " "
    + LanguageLabel(r.platformID, r.languageID) + " N" + Decimal(r.nameID)
    + " [" + hex(Slice(pool, r.offset, r.offset + r.length)) + "]"
  }

  /** field.name.indexOf('record_') === 0 */
  predicate IsRecordField(f: Field)
  {
    "record_" <= f.name
  }

  /** The loop over the fields, first to last: a 'record_' field adds its
      line; it needs a record value and a byte-array pool, and the listing
      fails with IllTyped when it meets one without. */
  function ListRecords(fields: seq<Field>, pool: FieldValue, hex: Hex): (r: Result<seq<string>>)
    ensures r.Failure? ==> r.error == IllTyped
    decreases |fields|
  {
    if fields == [] then Success([])
    else
      var lines :- ListRecords(fields[..|fields| - 1], pool, hex);
      var f := fields[|fields| - 1];
      if !IsRecordField(f) then Success(lines)
      else if !f.value.Record? || !pool.Literal? then Failure(IllTyped)
      else Success(lines + [RecordLine(f.value.rec, pool.bytes, hex)])
  }

  /** getNameRecords: the last field must be the 'strings' pool. */
  function NameRecordLines(fields: seq<Field>, hex: Hex): (r: Result<seq<string>>)
    ensures |fields| == 0 || fields[|fields| - 1].name != "strings" ==> r == Failure(MissingStringPool)
    ensures r.Failure? ==> r.error == MissingStringPool || r.error == IllTyped
  {
    if |fields| == 0 || fields[|fields| - 1].name != "strings" then Failure(MissingStringPool)
    else ListRecords(fields, fields[|fields| - 1].value, hex)
  }

  /** getNameRecords over a table object: reads the pool, then walks the
      fields accumulating lines. */
  method GetNameRecords(t: Table, hex: Hex) returns (r: Result<seq<string>>)
    ensures r == NameRecordLines(t.fields, hex)
  {
    var fields := t.fields;
    if |fields| == 0 || fields[|fields| - 1].name != "strings" {
      return Failure(MissingStringPool);
    }
    var stringPool := fields[|fields| - 1];
    var result: seq<string> := [];
    var i := 0;
    while i < |fields|
      invariant 0 <= i <= |fields|
      invariant ListRecords(fields[..i], stringPool.value, hex) == Success(result)
    {
      var field := fields[i];
      ListRecordsStep(fields, i, stringPool.value, hex, result);
      if IsRecordField(field) {
        if !field.value.Record? || !stringPool.value.Literal? {
          ListRecordsFailurePersists(fields, i + 1, stringPool.value, hex);
          return Failure(IllTyped);
        }
        result := result + [RecordLine(field.value.rec, stringPool.value.bytes, hex)];
      }
      i := i + 1;
    }
    assert fields[..i] == fields;
    return Success(result);
  }

  // ---------------------------------------------------------------------
  // Properties of the listing

  /** One more field: a 'record_' field adds its line or fails, any other
      field leaves the lines as they were. */
  lemma ListRecordsStep(fields: seq<Field>, i: nat, pool: FieldValue, hex: Hex, lines: seq<string>)
    requires i < |fields| && ListRecords(fields[..i], pool, hex) == Success(lines)
    ensures var f := fields[i];
      ListRecords(fields[..i + 1], pool, hex) ==
        if !IsRecordField(f) then Success(lines)
        else if !f.value.Record? || !pool.Literal? then Failure(IllTyped)
        else Success(lines + [RecordLine(f.value.rec, pool.bytes, hex)])
  {
    assert fields[..i + 1][..i] == fields[..i];
  }

  /** Once the loop has failed on a prefix, the listing fails. */
  lemma {:induction false} ListRecordsFailurePersists(fields: seq<Field>, i: nat, pool: FieldValue, hex: Hex)
    requires i <= |fields| && ListRecords(fields[..i], pool, hex).Failure?
    ensures ListRecords(fields, pool, hex) == Failure(IllTyped)
    decreases |fields| - i
  {
    if i == |fields| {
      assert fields[..i] == fields;
    } else {
      assert fields[..i + 1][..i] == fields[..i];
      ListRecordsFailurePersists(fields, i + 1, pool, hex);
    }
  }

  /** The 'record_' fields, in field order. */
  function RecordFieldsOf(fields: seq<Field>): (rs: seq<Field>)
    ensures |rs| <= |fields|
    ensures forall j :: 0 <= j < |rs| ==> IsRecordField(rs[j])
    decreases |fields|
  {
    if fields == [] then []
    else
      var init := RecordFieldsOf(fields[..|fields| - 1]);
      if IsRecordField(fields[|fields| - 1]) then init + [fields[|fields| - 1]] else init
  }

  /** RecordFieldsOf keeps exactly the fields that pass the 'record_' test:
      each kept field is one of the fields, and every field that passes is
      kept. */
  lemma {:induction false} RecordFieldsMembers(fields: seq<Field>)
    ensures forall j :: 0 <= j < |RecordFieldsOf(fields)| ==> RecordFieldsOf(fields)[j] in fields
    ensures forall j :: 0 <= j < |fields| && IsRecordField(fields[j]) ==> fields[j] in RecordFieldsOf(fields)
    decreases |fields|
  {
    if fields != [] {
      var init := fields[..|fields| - 1];
      var f := fields[|fields| - 1];
      RecordFieldsMembers(init);
      var rs0 := RecordFieldsOf(init);
      var rs := RecordFieldsOf(fields);
      assert rs == if IsRecordField(f) then rs0 + [f] else rs0;
      forall j | 0 <= j < |rs| ensures rs[j] in fields {
        if j < |rs0| {
          assert rs[j] == rs0[j];
          assert rs0[j] in init;
        }
      }
      forall j | 0 <= j < |fields| && IsRecordField(fields[j]) ensures fields[j] in rs {
        if j < |init| {
          assert fields[j] == init[j];
        }
      }
    }
  }

  /** Every 'record_' field holds a record. */
  predicate RecordValues(rs: seq<Field>)
  {
    forall j :: 0 <= j < |rs| ==> rs[j].value.Record?
  }

  /** The listing succeeds exactly when there is no 'record_' field, or
      every one holds a record and the pool is a byte array; it then has
      one line per 'record_' field, in field order. */
  predicate ListingMeaning(fields: seq<Field>, pool: FieldValue, hex: Hex)
  {
    var r := ListRecords(fields, pool, hex); var rs := RecordFieldsOf(fields);
    && (r.Success? <==> rs == [] || (RecordValues(rs) && pool.Literal?))
    && (r.Success? ==> |r.value| == |rs|)
    && (r.Success? ==> forall j :: 0 <= j < |rs| ==>
          rs[j].value.Record? && pool.Literal? && r.value[j] == RecordLine(rs[j].value.rec, pool.bytes, hex))
  }

  lemma {:induction false} ListRecordsMeaning(fields: seq<Field>, pool: FieldValue, hex: Hex)
    ensures var r := ListRecords(fields, pool, hex); var rs := RecordFieldsOf(fields);
      && (r.Success? <==> rs == [] || (RecordValues(rs) && pool.Literal?))
      && (r.Success? ==> |r.value| == |rs|)
      && (r.Success? ==> forall j :: 0 <= j < |rs| ==>
            rs[j].value.Record? && pool.Literal? && r.value[j] == RecordLine(rs[j].value.rec, pool.bytes, hex))
    decreases |fields|
  {
    if fields != [] {
      var init := fields[..|fields| - 1];
      ListRecordsMeaning(init, pool, hex);
      if IsRecordField(fields[|fields| - 1]) {
        MeaningRecordStep(fields, pool, hex);
      } else {
        MeaningOtherStep(fields, pool, hex);
      }
    }
    assert ListingMeaning(fields, pool, hex);
  }

  /** The step over a 'record_' field: it adds one line, or fails. */
  lemma MeaningRecordStep(fields: seq<Field>, pool: FieldValue, hex: Hex)
    requires fields != [] && IsRecordField(fields[|fields| - 1])
    requires ListingMeaning(fields[..|fields| - 1], pool, hex)
    ensures ListingMeaning(fields, pool, hex)
  {
    var init := fields[..|fields| - 1];
    var f := fields[|fields| - 1];
    var rs0 := RecordFieldsOf(init);
    var rs := RecordFieldsOf(fields);
    var r0 := ListRecords(init, pool, hex);
    var r := ListRecords(fields, pool, hex);
    assert rs == rs0 + [f];
    if r0.Success? && f.value.Record? && pool.Literal? {
      var line := RecordLine(f.value.rec, pool.bytes, hex);
      assert r == Success(r0.value + [line]);
      forall j | 0 <= j < |rs|
        ensures rs[j].value.Record? && r.value[j] == RecordLine(rs[j].value.rec, pool.bytes, hex)
      {
        if j < |rs0| {
          assert rs[j] == rs0[j] && r.value[j] == r0.value[j];
        }
      }
    } else {
      RecordValuesSnoc(rs0, f);
    }
  }

  lemma RecordValuesSnoc(rs: seq<Field>, f: Field)
    ensures RecordValues(rs + [f]) <==> RecordValues(rs) && f.value.Record?
  {
    var xs := rs + [f];
    assert xs[|rs|] == f;
    forall j | 0 <= j < |rs| ensures xs[j] == rs[j] { }
  }

  /** The step over any other field: nothing changes. */
  lemma MeaningOtherStep(fields: seq<Field>, pool: FieldValue, hex: Hex)
    requires fields != [] && !IsRecordField(fields[|fields| - 1])
    requires ListingMeaning(fields[..|fields| - 1], pool, hex)
    ensures ListingMeaning(fields, pool, hex)
  {
  }

  // ---------------------------------------------------------------------
  // Labels identify their numbers

  /** Different numbers print differently: the digits read back as the
      number they print. */
  lemma DecimalInjective(a: nat, b: nat)
    requires Decimal(a) == Decimal(b)
    ensures a == b
  {
  }

  /** A dictionary word, a number printed, or one of each: the labels
      differ whenever the numbers do, provided the dictionary gives
      different numbers different words. */
  lemma NameOrNumberInjective(na: Option<string>, nb: Option<string>, a: nat, b: nat)
    requires na.Some? ==> IsDictionaryWord(na.value)
    requires nb.Some? ==> IsDictionaryWord(nb.value)
    requires na.Some? && nb.Some? && na.value == nb.value ==> a == b
    requires NameOrNumber(na, a) == NameOrNumber(nb, b)
    ensures a == b
  {
  }

  /** The platform label names the platform: different platforms get
      different labels. */
  lemma PlatformLabelInjective(a: u16, b: u16)
    requires PlatformLabel(a) == PlatformLabel(b)
    ensures a == b
  {
    NameOrNumberInjective(PlatformName(a), PlatformName(b), a, b);
  }

  /** Within a platform, the encoding label names the encoding. */
  lemma EncodingLabelInjective(p: u16, a: u16, b: u16)
    requires EncodingLabel(p, a) == EncodingLabel(p, b)
    ensures a == b
  {
    NameOrNumberInjective(EncodingName(p, a), EncodingName(p, b), a, b);
  }

  /** Within a platform, the language label names the language. */
  lemma LanguageLabelInjective(p: u16, a: u16, b: u16)
    requires LanguageLabel(p, a) == LanguageLabel(p, b)
    ensures a == b
  {
    NameOrNumberInjective(LanguageName(p, a), LanguageName(p, b), a, b);
  }

  /** A word followed by a space is split off a string at that space. */
  lemma SplitAtSpace(a: string, b: string, c: string, d: string)
    requires SpaceFree(a) && SpaceFree(c)
    requires a + " " + b == c + " " + d
    ensures a == c && b == d
  {
    NoEarlierSpace(a, b, c, d);
    NoEarlierSpace(c, d, a, b);
    var x := a + " " + b;
    assert a == x[..|a|] && b == x[|a| + 1..];
  }

  /** A space-free word followed by a space is not a shorter prefix of another space-free word. */
  lemma NoEarlierSpace(a: string, b: string, c: string, d: string)
    requires SpaceFree(c)
    ensures |a| < |c| ==> a + " " + b != c + " " + d
  {
    if |a| < |c| {
      assert (a + " " + b)[|a|] == ' ';
      assert (c + " " + d)[|a|] == c[|a|];
    }
  }

  /** A line made of four words and a tail, separated by spaces, gives
      back its words. */
  lemma SplitFourWords(w1: seq<string>, t1: string, w2: seq<string>, t2: string)
    requires |w1| == 4 && |w2| == 4
    requires forall k :: 0 <= k < 4 ==> SpaceFree(w1[k]) && SpaceFree(w2[k])
    requires w1[0] + " " + (w1[1] + " " + (w1[2] + " " + (w1[3] + " " + t1)))
          == w2[0] + " " + (w2[1] + " " + (w2[2] + " " + (w2[3] + " " + t2)))
    ensures w1 == w2
  {
    SplitAtSpace(w1[0], w1[1] + " " + (w1[2] + " " + (w1[3] + " " + t1)),
                 w2[0], w2[1] + " " + (w2[2] + " " + (w2[3] + " " + t2)));
    SplitAtSpace(w1[1], w1[2] + " " + (w1[3] + " " + t1), w2[1], w2[2] + " " + (w2[3] + " " + t2));
    SplitAtSpace(w1[2], w1[3] + " " + t1, w2[2], w2[3] + " " + t2);
    SplitAtSpace(w1[3], t1, w2[3], t2);
  }

  /** The four words of a record's line: platform, encoding, language and
      'N' with the name ID; then the bracketed text. */
  function LineWords(r: NameRecord): seq<string>
  {
    [PlatformLabel(r.platformID), EncodingLabel(r.platformID, r.encodingID),
     LanguageLabel(r.platformID, r.languageID), "N" + Decimal(r.nameID)]
  }

  lemma LineShape(r: NameRecord, pool: seq<byte>, hex: Hex)
    ensures var w, t := LineWords(r), "[" + hex(Slice(pool, r.offset, r.offset + r.length)) + "]";
      && (forall k :: 0 <= k < 4 ==> SpaceFree(w[k]))
      && RecordLine(r, pool, hex) == w[0] + " " + (w[1] + " " + (w[2] + " " + (w[3] + " " + t)))
  {
    var w := LineWords(r);
    var h := hex(Slice(pool, r.offset, r.offset + r.length));
    assert SpaceFree(w[3]) by {
      var d := Decimal(r.nameID);
      forall k | 0 <= k < |d| ensures d[k] != ' ' { }
    }
    LineAssoc(w[0], w[1], w[2], Decimal(r.nameID), h);
  }

  lemma LineAssoc(p: string, e: string, l: string, d: string, h: string)
    ensures p + " " + e + " " + l + " N" + d + " [" + h + "]"
         == p + " " + (e + " " + (l + " " + (("N" + d) + " " + ("[" + h + "]"))))
  {
  }

  /** A listing line identifies its record: two records listed alike have
      the same platform, encoding, language and name IDs. */
  lemma RecordLineIdentifies(r1: NameRecord, pool1: seq<byte>, r2: NameRecord, pool2: seq<byte>, hex: Hex)
    requires RecordLine(r1, pool1, hex) == RecordLine(r2, pool2, hex)
    ensures r1.platformID == r2.platformID && r1.encodingID == r2.encodingID
    ensures r1.languageID == r2.languageID && r1.nameID == r2.nameID
  {
    var w1, w2 := LineWords(r1), LineWords(r2);
    assert w1 == w2 by {
      LineShape(r1, pool1, hex);
      LineShape(r2, pool2, hex);
      SplitFourWords(w1, "[" + hex(Slice(pool1, r1.offset, r1.offset + r1.length)) + "]",
                     w2, "[" + hex(Slice(pool2, r2.offset, r2.offset + r2.length)) + "]");
    }
    assert Decimal(r1.nameID) == w1[3][1..] && Decimal(r2.nameID) == w2[3][1..];
    PlatformLabelInjective(r1.platformID, r2.platformID);
    EncodingLabelInjective(r1.platformID, r1.encodingID, r2.encodingID);
    LanguageLabelInjective(r1.platformID, r1.languageID, r2.languageID);
  }

  /** As written, the helper lists platforms 4 and 5 alike. */
  lemma PlatformLabelAsWrittenCollides()
    ensures PlatformLabelAsWritten(4) == PlatformLabelAsWritten(5) == "undefined"
  {
  }

  /** Both labels agree on the four named platforms. */
  lemma PlatformLabelsAgree(p: u16)
    requires p <= 3
    ensures PlatformLabel(p) == PlatformLabelAsWritten(p)
  {
  }
}
