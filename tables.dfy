/** The table schema model and its encoder: a table is a name and a flat,
    ordered list of typed fields; encoding concatenates each field's bytes
    in order, with no padding, no offsets computed and no checks beyond the
    range of each USHORT. */
module Tables {
  import opened Types

  /** One 12-byte record of the 'name' table. */
  datatype NameRecord = NameRecord(
    platformID: u16, encodingID: u16, languageID: u16,
    nameID: u16, length: u16, offset: u16)

  /** A field's type tag and value together. */
  datatype FieldValue =
    | UShort(n: int)            // USHORT: two big-endian bytes
    | Literal(bytes: seq<byte>) // LITERAL: the bytes verbatim
    | Record(rec: NameRecord)   // a name record: its six USHORTs

  datatype Field = Field(name: string, value: FieldValue)

  /** The six USHORTs of a record, in table order. */
  function NameRecordBytes(r: NameRecord): (b: seq<byte>)
    ensures |b| == 12
  {
    U16Bytes(r.platformID) + U16Bytes(r.encodingID) + U16Bytes(r.languageID)
    + U16Bytes(r.nameID) + U16Bytes(r.length) + U16Bytes(r.offset)
  }

  /** Reads the 12-byte record that starts at p. */
  function RecordAt(data: seq<byte>, p: nat): NameRecord
    requires p + 12 <= |data|
  {
    NameRecord(U16At(data, p), U16At(data, p + 2), U16At(data, p + 4),
               U16At(data, p + 6), U16At(data, p + 8), U16At(data, p + 10))
  }

  /** A record read back from where it was written is the record written. */
  lemma RecordRoundTrip(prefix: seq<byte>, r: NameRecord, suffix: seq<byte>)
    ensures RecordAt(prefix + NameRecordBytes(r) + suffix, |prefix|) == r
  {
    var data := prefix + NameRecordBytes(r) + suffix;
    var b := NameRecordBytes(r);
    var p := |prefix|;
    forall k | 0 <= k < 12 ensures data[p + k] == b[k] { }
    assert b[0..2] == U16Bytes(r.platformID);
    assert b[2..4] == U16Bytes(r.encodingID);
    assert b[4..6] == U16Bytes(r.languageID);
    assert b[6..8] == U16Bytes(r.nameID);
    assert b[8..10] == U16Bytes(r.length);
    assert b[10..12] == U16Bytes(r.offset);
  }

  /** A record array: the records' bytes back to back. */
  function RecordsBytes(rs: seq<NameRecord>): (b: seq<byte>)
    ensures |b| == 12 * |rs|
    decreases |rs|
  {
    if rs == [] then [] else RecordsBytes(rs[..|rs| - 1]) + NameRecordBytes(rs[|rs| - 1])
  }

  /** Record i of the array occupies bytes 12i to 12i + 12. */
  lemma {:induction false} RecordsBytesAt(rs: seq<NameRecord>, i: nat)
    requires i < |rs|
    ensures RecordsBytes(rs)[12 * i .. 12 * i + 12] == NameRecordBytes(rs[i])
    decreases |rs|
  {
    var n := |rs|;
    var init := rs[..n - 1];
    var a, b := RecordsBytes(init), NameRecordBytes(rs[n - 1]);
    assert RecordsBytes(rs) == a + b;
    if i < n - 1 {
      assert a[12 * i .. 12 * i + 12] == NameRecordBytes(rs[i]) by {
        RecordsBytesAt(init, i);
        assert init[i] == rs[i];
      }
      AppendSliceLeft(a, b, 12 * i, 12 * i + 12);
    } else {
      assert 12 * i == |a| && 12 * i + 12 == |a + b|;
      assert (a + b)[|a| .. |a + b|] == b;
    }
  }

  /** The number of bytes a field occupies once encoded. */
  function FieldWidth(v: FieldValue): nat
  {
    match v
    case UShort(_) => 2
    case Literal(bytes) => |bytes|
    case Record(_) => 12
  }

  function Width(fields: seq<Field>): nat
  {
    if fields == [] then 0 else FieldWidth(fields[0].value) + Width(fields[1..])
  }

  /** Every USHORT field holds a value that fits in 16 bits. */
  predicate AllFit(fields: seq<Field>)
  {
    forall k :: 0 <= k < |fields| && fields[k].value.UShort? ==> InU16(fields[k].value.n)
  }

  function EncodeField(v: FieldValue): (r: Result<seq<byte>>)
    ensures r.Success? <==> (v.UShort? ==> InU16(v.n))
    ensures r.Failure? ==> r.error == IntegerOverflow
    ensures r.Success? ==> |r.value| == FieldWidth(v)
  {
    match v
    case UShort(n) => EncodeUShort(n)
    case Literal(bytes) => Success(bytes)
    case Record(rec) => Success(NameRecordBytes(rec))
  }

  /** encode.TABLE: the fields' bytes concatenated in declared order. It
      fails exactly when some USHORT field overflows, and otherwise emits
      exactly the sum of the fields' widths. */
  function EncodeFields(fields: seq<Field>): (r: Result<seq<byte>>)
    ensures r.Success? <==> AllFit(fields)
    ensures r.Failure? ==> r.error == IntegerOverflow
    ensures r.Success? ==> |r.value| == Width(fields)
  {
    if |fields| == 0 then Success([])
    else
      assert forall k :: 1 <= k < |fields| ==> fields[1..][k - 1] == fields[k];
      var head := EncodeField(fields[0].value);
      if head.Failure? then Failure(head.error)
      else
        var rest := EncodeFields(fields[1..]);
        if rest.Failure? then rest else Success(head.value + rest.value)
  }

  lemma AllFitAppend(a: seq<Field>, b: seq<Field>)
    ensures AllFit(a + b) <==> AllFit(a) && AllFit(b)
  {
    if AllFit(a) && AllFit(b) {
      forall k | 0 <= k < |a + b| && (a + b)[k].value.UShort? ensures InU16((a + b)[k].value.n) {
        if k >= |a| { assert (a + b)[k] == b[k - |a|]; }
      }
    }
    if AllFit(a + b) {
      forall k | 0 <= k < |a| && a[k].value.UShort? ensures InU16(a[k].value.n) {
        assert (a + b)[k] == a[k];
      }
      forall k | 0 <= k < |b| && b[k].value.UShort? ensures InU16(b[k].value.n) {
        assert (a + b)[|a| + k] == b[k];
      }
    }
  }

  lemma EncodeFieldsCons(fs: seq<Field>)
    requires fs != [] && AllFit(fs)
    ensures AllFit(fs[1..])
    ensures EncodeFields(fs) == Success(EncodeField(fs[0].value).value + EncodeFields(fs[1..]).value)
  {
    assert fs == [fs[0]] + fs[1..];
    AllFitAppend([fs[0]], fs[1..]);
  }

  /** Encoding a concatenation of field lists concatenates the encodings. */
  lemma {:induction false} EncodeFieldsAppend(a: seq<Field>, b: seq<Field>)
    requires AllFit(a) && AllFit(b)
    ensures EncodeFields(a + b) == Success(EncodeFields(a).value + EncodeFields(b).value)
    decreases |a|
  {
    if a == [] {
      assert a + b == b;
      assert EncodeFields(a).value == [];
      assert [] + EncodeFields(b).value == EncodeFields(b).value;
    } else {
      var ab := a + b;
      var head := EncodeField(a[0].value).value;
      assert ab[0] == a[0] && ab[1..] == a[1..] + b;
      assert AllFit(ab) && AllFit(a[1..]) by {
        AllFitAppend(a, b);
        EncodeFieldsCons(a);
      }
      assert EncodeFields(a) == Success(head + EncodeFields(a[1..]).value) by {
        EncodeFieldsCons(a);
      }
      assert EncodeFields(ab) == Success(head + EncodeFields(a[1..] + b).value) by {
        EncodeFieldsCons(ab);
      }
      EncodeFieldsAppend(a[1..], b);
      var x, y := EncodeFields(a[1..]).value, EncodeFields(b).value;
      assert head + (x + y) == (head + x) + y;
    }
  }

  /** Two field lists that encode, encode side by side. */
  lemma EncodeFieldsConcat(a: seq<Field>, b: seq<Field>, x: seq<byte>, y: seq<byte>)
    requires EncodeFields(a) == Success(x) && EncodeFields(b) == Success(y)
    ensures EncodeFields(a + b) == Success(x + y)
  {
    EncodeFieldsAppend(a, b);
  }

  lemma RecordsBytesSnoc(rs: seq<NameRecord>, r: NameRecord)
    ensures RecordsBytes(rs + [r]) == RecordsBytes(rs) + NameRecordBytes(r)
  {
    assert (rs + [r])[..|rs|] == rs;
  }

  /** The 'table.Table' object: a name and a field list that callers grow
      in place. */
  class Table {
    const tableName: string
    var fields: seq<Field>

    constructor (tableName: string, fields: seq<Field>)
      ensures this.tableName == tableName && this.fields == fields
    {
      this.tableName := tableName;
      this.fields := fields;
    }

    /** t.fields.push(f) */
    method Push(f: Field)
      modifies this
      ensures fields == old(fields) + [f]
    {
      fields := fields + [f];
    }
  }
}
