/** What the table encoder makes of makeNameTable's field list, and what
    name.parse makes of those bytes: the map the names themselves denote. */
module NameTableRoundTrip {
  import opened Types
  import opened Text
  import opened Tables
  import opened NameLookup
  import opened NameMaps
  import opened NameParse
  import opened NameTableLayout

  lemma RecordFieldsFit(i: nat, name: NameSpec, offset: nat)
    ensures AllFit(RecordFields(i, name, offset)) <==> RecordFits(name, offset)
  {
    var fs := RecordFields(i, name, offset);
    if AllFit(fs) {
      assert fs[0].value.UShort? && fs[1].value.UShort? && fs[2].value.UShort?;
      assert fs[3].value.UShort? && fs[4].value.UShort? && fs[5].value.UShort?;
    }
  }

  /** The record fields all fit exactly when every name's record does. */
  lemma {:induction false} AllRecordFieldsFit(names: seq<NameSpec>)
    ensures AllFit(AllRecordFields(names)) <==> RecordsFit(names)
    decreases |names|
  {
    if names != [] {
      var n := |names|;
      var init := names[..n - 1];
      AllRecordFieldsFit(init);
      AllFitAppend(AllRecordFields(init), RecordFields(n - 1, names[n - 1], |Pool(init)|));
      RecordFieldsFit(n - 1, names[n - 1], |Pool(init)|);
    }
  }

  /** Three fields that fit encode as their encodings side by side. */
  lemma EncodeThree(f0: Field, f1: Field, f2: Field)
    requires EncodeField(f0.value).Success? && EncodeField(f1.value).Success? && EncodeField(f2.value).Success?
    ensures EncodeFields([f0, f1, f2]) ==
      Success(EncodeField(f0.value).value + EncodeField(f1.value).value + EncodeField(f2.value).value)
  {
    var fs := [f0, f1, f2];
    assert fs[0] == f0 && fs[1] == f1 && fs[2] == f2;
    assert fs[1..] == [f1, f2] && fs[1..][1..] == [f2] && fs[1..][1..][1..] == [];
    var a, b, c := EncodeField(f0.value).value, EncodeField(f1.value).value, EncodeField(f2.value).value;
    assert EncodeFields([f2]) == Success(c + []);
    assert c + [] == c;
    assert a + (b + c) == a + b + c;
  }

  /** The six fields of a name encode as its 12-byte record. */
  lemma EncodeRecordFields(i: nat, name: NameSpec, offset: nat)
    requires RecordFits(name, offset)
    ensures EncodeFields(RecordFields(i, name, offset)) ==
      Success(NameRecordBytes(NameRecord(name.platformID, name.encodingID, name.languageID,
                                         name.nameID, |name.text|, offset)))
  {
    var fs := RecordFields(i, name, offset);
    var a, b, c := U16Bytes(name.platformID), U16Bytes(name.encodingID), U16Bytes(name.languageID);
    var d, e, f := U16Bytes(name.nameID), U16Bytes(|name.text|), U16Bytes(offset);
    assert EncodeFields(fs[..3]) == Success(a + b + c) by {
      assert fs[..3] == [fs[0], fs[1], fs[2]];
      EncodeThree(fs[0], fs[1], fs[2]);
    }
    assert EncodeFields(fs[3..]) == Success(d + e + f) by {
      assert fs[3..] == [fs[3], fs[4], fs[5]];
      EncodeThree(fs[3], fs[4], fs[5]);
    }
    assert fs == fs[..3] + fs[3..];
    EncodeFieldsConcat(fs[..3], fs[3..], a + b + c, d + e + f);
    assert a + b + c + (d + e + f) == a + b + c + d + e + f;
  }

  lemma NameRecordsSnoc(names: seq<NameSpec>)
    requires Fits(names) && |names| > 0
    ensures Fits(names[..|names| - 1])
    ensures NameRecords(names) == NameRecords(names[..|names| - 1]) + [RecordOf(names, |names| - 1)]
  {
    var n := |names|;
    var init := names[..n - 1];
    FitsInit(names);
    forall i | 0 <= i < n - 1 ensures RecordOf(init, i) == RecordOf(names, i) {
      PrefixOfInit(names, i);
    }
  }

  lemma {:induction false} EncodeAllRecordFields(names: seq<NameSpec>)
    requires Fits(names)
    ensures EncodeFields(AllRecordFields(names)) == Success(RecordsBytes(NameRecords(names)))
    decreases |names|
  {
    if names == [] {
      assert NameRecords(names) == [];
    } else {
      FitsInit(names);
      EncodeAllRecordFields(names[..|names| - 1]);
      EncodeRecordStep(names);
    }
  }

  /** The last name's six fields encode as its record, after the records
      of the names before it. */
  lemma EncodeRecordStep(names: seq<NameSpec>)
    requires Fits(names) && |names| > 0 && Fits(names[..|names| - 1])
    requires var init := names[..|names| - 1];
      EncodeFields(AllRecordFields(init)) == Success(RecordsBytes(NameRecords(init)))
    ensures EncodeFields(AllRecordFields(names)) == Success(RecordsBytes(NameRecords(names)))
  {
    var n := |names|;
    var init := names[..n - 1];
    var last := RecordFields(n - 1, names[n - 1], |Pool(init)|);
    var r := RecordOf(names, n - 1);
    assert NameRecords(names) == NameRecords(init) + [r] by {
      NameRecordsSnoc(names);
    }
    assert EncodeFields(last) == Success(NameRecordBytes(r)) by {
      EncodeRecordFields(n - 1, names[n - 1], |Pool(init)|);
    }
    EncodeRecordsSnoc(AllRecordFields(init), last, NameRecords(init), r);
  }

  /** Fields that encode as a record array, followed by fields that encode
      as one more record, encode as the longer array. */
  lemma EncodeRecordsSnoc(fs: seq<Field>, last: seq<Field>, rs: seq<NameRecord>, r: NameRecord)
    requires EncodeFields(fs) == Success(RecordsBytes(rs))
    requires EncodeFields(last) == Success(NameRecordBytes(r))
    ensures EncodeFields(fs + last) == Success(RecordsBytes(rs + [r]))
  {
    EncodeFieldsConcat(fs, last, RecordsBytes(rs), NameRecordBytes(r));
    RecordsBytesSnoc(rs, r);
  }

  lemma HeaderFit(count: nat)
    ensures AllFit(HeaderFields(count)) <==> InU16(6 + 12 * count)
  {
    assert HeaderFields(count)[2].value.n == 6 + 12 * count;
  }

  lemma EncodeHeader(count: nat)
    requires InU16(6 + 12 * count)
    ensures EncodeFields(HeaderFields(count)) ==
      Success(U16Bytes(0) + U16Bytes(count) + U16Bytes(6 + 12 * count))
  {
    var h := HeaderFields(count);
    HeaderFit(count);
    assert h == [h[0], h[1], h[2]];
    EncodeThree(h[0], h[1], h[2]);
  }

  lemma EncodeStrings(pool: seq<byte>)
    ensures AllFit([Field("strings", Literal(pool))])
    ensures EncodeFields([Field("strings", Literal(pool))]) == Success(pool)
  {
    var s := [Field("strings", Literal(pool))];
    assert s[1..] == [];
    assert pool + [] == pool;
  }

  /** Three field lists, encoded one after the other. */
  lemma EncodeThreeParts(h: seq<Field>, r: seq<Field>, s: seq<Field>, hb: seq<byte>, rb: seq<byte>, sb: seq<byte>)
    requires EncodeFields(h) == Success(hb) && EncodeFields(r) == Success(rb) && EncodeFields(s) == Success(sb)
    ensures EncodeFields(h + r + s) == Success(hb + rb + sb)
  {
    AllFitAppend(h, r);
    AllFitAppend(h + r, s);
    EncodeFieldsAppend(h, r);
    EncodeFieldsAppend(h + r, s);
  }

  /** The field list fits in its USHORTs exactly when the names do. */
  lemma NameTableFieldsFit(names: seq<NameSpec>)
    ensures AllFit(NameTableFields(names)) <==> Fits(names)
  {
    var h := HeaderFields(|names|);
    var r := AllRecordFields(names);
    var s := [Field("strings", Literal(Pool(names)))];
    AllFitAppend(h, r);
    AllFitAppend(h + r, s);
    AllRecordFieldsFit(names);
    HeaderFit(|names|);
    EncodeStrings(Pool(names));
  }

  /** encode.TABLE of makeNameTable's fields: it fails with IntegerOverflow
      exactly when some USHORT does not fit, and otherwise gives the header,
      the record array and the pool, 6 + 12 * count + the texts' total
      length bytes in all. */
  lemma EncodeNameTable(names: seq<NameSpec>)
    ensures EncodeFields(NameTableFields(names)) ==
      if Fits(names) then Success(NameTableBytes(names)) else Failure(IntegerOverflow)
    ensures Fits(names) ==> |NameTableBytes(names)| == 6 + 12 * |names| + TotalTextLength(names)
  {
    NameTableFieldsFit(names);
    if Fits(names) {
      EncodeFitting(names);
      NameTableLength(names);
    }
  }

  /** A header, record fields that encode as the records `rs`, and a pool,
      encoded together: the table laid out around `rs` and the pool. */
  lemma EncodeLayout(rs: seq<NameRecord>, rf: seq<Field>, pool: seq<byte>)
    requires InU16(6 + 12 * |rs|) && EncodeFields(rf) == Success(RecordsBytes(rs))
    ensures EncodeFields(TableFields(|rs|, rf, pool)) == Success(TableBytes(rs, pool))
  {
    EncodeHeader(|rs|);
    EncodeStrings(pool);
    EncodeThreeParts(HeaderFields(|rs|), rf, [Field("strings", Literal(pool))],
                     U16Bytes(0) + U16Bytes(|rs|) + U16Bytes(6 + 12 * |rs|), RecordsBytes(rs), pool);
    assert TableHead(rs) == U16Bytes(0) + U16Bytes(|rs|) + U16Bytes(6 + 12 * |rs|) + RecordsBytes(rs);
  }

  lemma EncodeFitting(names: seq<NameSpec>)
    requires Fits(names)
    ensures EncodeFields(NameTableFields(names)) == Success(NameTableBytes(names))
  {
    EncodeAllRecordFields(names);
    EncodeLayout(NameRecords(names), AllRecordFields(names), Pool(names));
    assert |NameRecords(names)| == |names|;
  }

  lemma NameTableLength(names: seq<NameSpec>)
    requires Fits(names)
    ensures |NameTableBytes(names)| == 6 + 12 * |names| + TotalTextLength(names)
  {
    PoolLengthIsTotal(names);
  }

  /** Where count, stringOffset and the record array lie in a header
      followed by anything. */
  lemma HeaderParts(x: u16, y: u16, z: u16, rb: seq<byte>, rest: seq<byte>)
    ensures var d := U16Bytes(x) + U16Bytes(y) + U16Bytes(z) + rb + rest;
      && U16At(d, 2) == y && U16At(d, 4) == z && d[6 .. 6 + |rb|] == rb
  {
    var d := U16Bytes(x) + U16Bytes(y) + U16Bytes(z) + rb + rest;
    assert d[2] == U16Bytes(y)[0] && d[3] == U16Bytes(y)[1];
    assert d[4] == U16Bytes(z)[0] && d[5] == U16Bytes(z)[1];
  }

  lemma TableCount(rs: seq<NameRecord>, pool: seq<byte>)
    requires InU16(6 + 12 * |rs|)
    ensures U16At(TableBytes(rs, pool), 2) == |rs|
  {
    HeaderParts(0, |rs|, 6 + 12 * |rs|, RecordsBytes(rs), pool);
  }

  lemma TableStringOffset(rs: seq<NameRecord>, pool: seq<byte>)
    requires InU16(6 + 12 * |rs|)
    ensures U16At(TableBytes(rs, pool), 4) == 6 + 12 * |rs|
  {
    HeaderParts(0, |rs|, 6 + 12 * |rs|, RecordsBytes(rs), pool);
  }

  lemma TableRecords(rs: seq<NameRecord>, pool: seq<byte>)
    requires InU16(6 + 12 * |rs|)
    ensures TableBytes(rs, pool)[6 .. 6 + 12 * |rs|] == RecordsBytes(rs)
  {
    HeaderParts(0, |rs|, 6 + 12 * |rs|, RecordsBytes(rs), pool);
  }

  /** A record is read from the bytes that hold it. */
  lemma RecordAtSlice(d: seq<byte>, p: nat, r: NameRecord)
    requires p + 12 <= |d| && d[p .. p + 12] == NameRecordBytes(r)
    ensures RecordAt(d, p) == r
  {
    RecordRoundTrip([], r, []);
    assert [] + NameRecordBytes(r) + [] == NameRecordBytes(r);
    assert forall k :: 0 <= k < 12 ==> d[p + k] == NameRecordBytes(r)[k];
  }

  /** Record i of an array of n records after a 6-byte header. */
  lemma RecordInArray(data: seq<byte>, rb: seq<byte>, n: nat, i: nat, r: NameRecord)
    requires 6 + 12 * n <= |data| && data[6 .. 6 + 12 * n] == rb
    requires i < n && rb[12 * i .. 12 * i + 12] == NameRecordBytes(r)
    ensures RecordAt(data, 6 + 12 * i) == r
  {
    SliceOfSlice(data, 6, 6 + 12 * n, 12 * i, 12 * i + 12);
    RecordAtSlice(data, 6 + 12 * i, r);
  }

  /** The record array after a 6-byte header reads back as the records
      it was made of. */
  lemma RecordsReadBack(data: seq<byte>, rs: seq<NameRecord>)
    requires 6 + 12 * |rs| <= |data| && data[6 .. 6 + 12 * |rs|] == RecordsBytes(rs)
    ensures Records(data, |rs|) == rs
  {
    RecordsBytesEach(rs);
    ArrayReadBack(data, RecordsBytes(rs), rs);
  }

  /** Bytes that hold each record at 12i, placed after a 6-byte header,
      read back as the records. */
  lemma ArrayReadBack(data: seq<byte>, rb: seq<byte>, rs: seq<NameRecord>)
    requires 6 + 12 * |rs| <= |data| && data[6 .. 6 + 12 * |rs|] == rb
    requires forall i :: 0 <= i < |rs| ==> 12 * i + 12 <= |rb| && rb[12 * i .. 12 * i + 12] == NameRecordBytes(rs[i])
    ensures Records(data, |rs|) == rs
  {
    forall i | 0 <= i < |rs| ensures Records(data, |rs|)[i] == rs[i] {
      RecordInArray(data, rb, |rs|, i, rs[i]);
    }
  }

  lemma RecordsBytesEach(rs: seq<NameRecord>)
    ensures forall i :: 0 <= i < |rs| ==> RecordsBytes(rs)[12 * i .. 12 * i + 12] == NameRecordBytes(rs[i])
  {
    forall i | 0 <= i < |rs| ensures RecordsBytes(rs)[12 * i .. 12 * i + 12] == NameRecordBytes(rs[i]) {
      RecordsBytesAt(rs, i);
    }
  }

  /** A record's text is the same whether read from the pool alone or from
      the pool placed after a prefix, at the prefix's length. */
  lemma TextShift(prefix: seq<byte>, pool: seq<byte>, r: NameRecord)
    ensures TextInBounds(r, prefix + pool, |prefix|) <==> TextInBounds(r, pool, 0)
    ensures TextInBounds(r, pool, 0) ==> TextOf(r, prefix + pool, |prefix|) == TextOf(r, pool, 0)
  {
    if TextInBounds(r, pool, 0) {
      var d := prefix + pool;
      forall j | r.offset <= j < r.offset + r.length ensures d[|prefix| + j] == pool[j] { }
    }
  }

  lemma EntriesShift(prefix: seq<byte>, pool: seq<byte>, rs: seq<NameRecord>,
                     ltag: Option<seq<Tag>>, mac: MacDecoder)
    ensures AllTextsInBounds(rs, prefix + pool, |prefix|, ltag, mac) <==> AllTextsInBounds(rs, pool, 0, ltag, mac)
    ensures RecordEntries(rs, prefix + pool, |prefix|, ltag, mac) == RecordEntries(rs, pool, 0, ltag, mac)
  {
    forall i | 0 <= i < |rs|
      ensures TextInBounds(rs[i], prefix + pool, |prefix|) <==> TextInBounds(rs[i], pool, 0)
      ensures RecordEntries(rs, prefix + pool, |prefix|, ltag, mac)[i] == RecordEntries(rs, pool, 0, ltag, mac)[i]
    {
      TextShift(prefix, pool, rs[i]);
    }
  }

  /** Parsing a table laid out from records and a pool yields the map of
      the records' entries, each text read from the pool. */
  lemma ParseLaidOut(rs: seq<NameRecord>, pool: seq<byte>, ltag: Option<seq<Tag>>, mac: MacDecoder)
    requires InU16(6 + 12 * |rs|)
    requires AllTextsInBounds(rs, pool, 0, ltag, mac)
    ensures ParseNameTable(TableBytes(rs, pool), ltag, mac) == Success(BuildMap(RecordEntries(rs, pool, 0, ltag, mac)))
  {
    TableCount(rs, pool);
    TableStringOffset(rs, pool);
    TableRecords(rs, pool);
    RecordsReadBack(TableBytes(rs, pool), rs);
    EntriesShift(TableHead(rs), pool, rs, ltag, mac);
    CollectMeaning(rs, TableBytes(rs, pool), 6 + 12 * |rs|, ltag, mac);
  }

  /** Name i's record locates its text in the pool. */
  lemma PoolText(names: seq<NameSpec>, i: nat)
    requires Fits(names) && i < |names|
    ensures TextInBounds(NameRecords(names)[i], Pool(names), 0)
    ensures TextOf(NameRecords(names)[i], Pool(names), 0) == names[i].text
  {
    PoolTiling(names, i);
    assert NameRecords(names)[i] == RecordOf(names, i);
  }

  /** Name i's record, read against the pool, denotes name i's entry. */
  lemma PoolEntry(names: seq<NameSpec>, ltag: Option<seq<Tag>>, mac: MacDecoder, i: nat)
    requires Fits(names) && i < |names|
    ensures RecordEntries(NameRecords(names), Pool(names), 0, ltag, mac)[i] == NameEntries(names, ltag, mac)[i]
  {
    PoolText(names, i);
    assert NameRecords(names)[i] == RecordOf(names, i);
  }

  lemma PoolTexts(names: seq<NameSpec>, ltag: Option<seq<Tag>>, mac: MacDecoder)
    requires Fits(names)
    ensures AllTextsInBounds(NameRecords(names), Pool(names), 0, ltag, mac)
  {
    forall i | 0 <= i < |names| ensures TextInBounds(NameRecords(names)[i], Pool(names), 0) {
      PoolText(names, i);
    }
  }

  lemma PoolEntries(names: seq<NameSpec>, ltag: Option<seq<Tag>>, mac: MacDecoder)
    requires Fits(names)
    ensures RecordEntries(NameRecords(names), Pool(names), 0, ltag, mac) == NameEntries(names, ltag, mac)
  {
    forall i | 0 <= i < |names|
      ensures RecordEntries(NameRecords(names), Pool(names), 0, ltag, mac)[i] == NameEntries(names, ltag, mac)[i]
    {
      PoolEntry(names, ltag, mac, i);
    }
  }

  /** Parsing what makeNameTable encodes yields the map the names denote:
      every header field, record and text is read back from where it was
      written. */
  lemma ParseMakeRoundTrip(names: seq<NameSpec>, ltag: Option<seq<Tag>>, mac: MacDecoder)
    requires Fits(names)
    ensures ParseNameTable(NameTableBytes(names), ltag, mac) == Success(NamesToMap(names, ltag, mac))
  {
    PoolTexts(names, ltag, mac);
    ParseLaidOut(NameRecords(names), Pool(names), ltag, mac);
    PoolEntries(names, ltag, mac);
  }
}
