/** The test helpers that build a 'name' table from a list of names and
    parse it back: makeNameTable grows a table object field by field and
    the string pool byte by byte, encodes the table and copies the bytes
    into a fresh buffer; parseNameTable hands that buffer to name.parse. */
module NameTableBuilder {
  import opened Types
  import opened Text
  import opened Tables
  import opened NameLookup
  import opened NameMaps
  import opened NameParse
  import opened NameTableLayout
  import opened NameTableRoundTrip

  /** makeNameTable: fill the table, encode it (encode.TABLE fails with
      IntegerOverflow exactly when some USHORT does not fit) and copy the
      bytes into a fresh buffer. */
  method MakeNameTable(names: seq<NameSpec>) returns (r: Result<array<byte>>)
    ensures r.Failure? <==> !Fits(names)
    ensures r.Failure? ==> r.error == IntegerOverflow
    ensures r.Success? ==> fresh(r.value) && r.value[..] == NameTableBytes(names)
  {
    var t := FillTable(names);
    var bytes := EncodeFields(t.fields);
    EncodeNameTable(names);
    if bytes.Failure? {
      return Failure(bytes.error);
    }
    var data := CopyToBuffer(bytes.value);
    return Success(data);
  }

  /** The table makeNameTable fills: the header fields first, then for each
      name its six record fields, the record's offset being the pool's
      length before the name's text is appended to it; last, the pool. */
  method FillTable(names: seq<NameSpec>) returns (t: Table)
    ensures fresh(t) && t.tableName == "name"
    ensures t.fields == NameTableFields(names)
  {
    t := new Table("name", HeaderFields(|names|));
    var stringPool: seq<byte> := [];
    var i := 0;
    while i < |names|
      invariant 0 <= i <= |names|
      invariant t.tableName == "name"
      invariant t.fields == HeaderFields(|names|) + AllRecordFields(names[..i])
      invariant stringPool == Pool(names[..i])
    {
      var name := names[i];
      ghost var before := t.fields;
      PushRecord(t, i, name, |stringPool|);
      FieldsStep(names, i, before, t.fields);
      stringPool := AppendBytes(stringPool, name.text);
      i := i + 1;
    }
    assert names[..i] == names;
    t.Push(Field("strings", Literal(stringPool)));
  }

  /** The six t.fields.push calls for name i, whose text starts at
      `offset` in the pool. */
  method PushRecord(t: Table, i: nat, name: NameSpec, offset: nat)
    modifies t
    ensures t.fields == old(t.fields) + RecordFields(i, name, offset)
  {
    ghost var before := t.fields;
    t.Push(Field("platformID_" + Decimal(i), UShort(name.platformID)));
    t.Push(Field("encodingID_" + Decimal(i), UShort(name.encodingID)));
    t.Push(Field("languageID_" + Decimal(i), UShort(name.languageID)));
    t.Push(Field("nameID_" + Decimal(i), UShort(name.nameID)));
    t.Push(Field("length_" + Decimal(i), UShort(|name.text|)));
    t.Push(Field("offset_" + Decimal(i), UShort(offset)));
    SixPushes(before, RecordFields(i, name, offset), t.fields);
  }

  /** stringPool.push(text.getUint8(j)) for each j in turn. */
  method AppendBytes(pool: seq<byte>, text: seq<byte>) returns (r: seq<byte>)
    ensures r == pool + text
  {
    r := pool;
    var j := 0;
    while j < |text|
      invariant 0 <= j <= |text|
      invariant r == pool + text[..j]
    {
      r := r + [text[j]];
      j := j + 1;
      assert text[..j] == text[..j - 1] + [text[j - 1]];
    }
    assert text[..j] == text;
  }

  /** A new DataView of the encoded length, filled by setUint8 byte by byte. */
  method CopyToBuffer(bytes: seq<byte>) returns (data: array<byte>)
    ensures fresh(data) && data[..] == bytes
  {
    data := new byte[|bytes|];
    var k := 0;
    while k < |bytes|
      invariant 0 <= k <= |bytes|
      invariant data[..k] == bytes[..k]
    {
      data[k] := bytes[k];
      k := k + 1;
    }
    assert data[..] == data[..k];
  }

  /** Six fields pushed one at a time are the six fields appended. */
  lemma SixPushes(before: seq<Field>, fs: seq<Field>, after: seq<Field>)
    requires |fs| == 6
    requires after == before + [fs[0]] + [fs[1]] + [fs[2]] + [fs[3]] + [fs[4]] + [fs[5]]
    ensures after == before + fs
  {
    assert fs == [fs[0], fs[1], fs[2], fs[3], fs[4], fs[5]];
  }

  /** One more name: its six fields follow the earlier names' fields, and
      its text follows their texts in the pool. */
  lemma RecordStep(names: seq<NameSpec>, i: nat)
    requires i < |names|
    ensures AllRecordFields(names[..i + 1]) == AllRecordFields(names[..i]) + RecordFields(i, names[i], |Pool(names[..i])|)
    ensures Pool(names[..i + 1]) == Pool(names[..i]) + names[i].text
  {
    assert names[..i + 1][..i] == names[..i];
  }

  /** The fields after name i's six are pushed: the header and the first
      i + 1 names' record fields. */
  lemma FieldsStep(names: seq<NameSpec>, i: nat, before: seq<Field>, after: seq<Field>)
    requires i < |names|
    requires before == HeaderFields(|names|) + AllRecordFields(names[..i])
    requires after == before + RecordFields(i, names[i], |Pool(names[..i])|)
    ensures after == HeaderFields(|names|) + AllRecordFields(names[..i + 1])
    ensures Pool(names[..i + 1]) == Pool(names[..i]) + names[i].text
  {
    RecordStep(names, i);
    var h, a, r := HeaderFields(|names|), AllRecordFields(names[..i]), RecordFields(i, names[i], |Pool(names[..i])|);
    assert (h + a) + r == h + (a + r);
  }

  /** parseNameTable: name.parse of the table makeNameTable builds, at
      offset 0. Whenever the names fit, the result is the map the names
      denote, in record order; otherwise building the table already fails. */
  method ParseNames(names: seq<NameSpec>, ltag: Option<seq<Tag>>, mac: MacDecoder) returns (r: Result<NameMap>)
    ensures !Fits(names) ==> r == Failure(IntegerOverflow)
    ensures Fits(names) ==> r == Success(NamesToMap(names, ltag, mac))
  {
    var data := MakeNameTable(names);
    if data.Failure? {
      return Failure(data.error);
    }
    r := ParseNameTable(data.value[..], ltag, mac);
    ParseMakeRoundTrip(names, ltag, mac);
  }
}
