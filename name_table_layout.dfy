/** The 'name' table that the test helper makeNameTable lays out: a header
    of three USHORTs, six USHORT fields per name, and one LITERAL string
    pool holding the texts back to back. Each record's offset is the pool's
    length before its text is appended, so the records' ranges tile the
    pool. */
module NameTableLayout {
  import opened Types
  import opened Text
  import opened Tables
  import opened NameLookup
  import opened NameMaps

  /** One name of a test: [nameID, text, platformID, encodingID, languageID],
      its text already turned from hex into bytes. */
  datatype NameSpec = NameSpec(nameID: int, text: seq<byte>, platformID: int, encodingID: int, languageID: int)

  /** The string pool after the given names' texts have been appended. */
  function Pool(names: seq<NameSpec>): seq<byte>
    decreases |names|
  {
    if names == [] then [] else Pool(names[..|names| - 1]) + names[|names| - 1].text
  }

  /** The offset of name i's text: the pool length before it. */
  function PoolOffset(names: seq<NameSpec>, i: nat): nat
    requires i <= |names|
  {
    |Pool(names[..i])|
  }

  /** The sum of the texts' lengths, first to last. */
  function TotalTextLength(names: seq<NameSpec>): nat
  {
    if names == [] then 0 else |names[0].text| + TotalTextLength(names[1..])
  }

  function HeaderFields(count: nat): seq<Field>
  {
    [ Field("format", UShort(0)),
      Field("count", UShort(count)),
      Field("stringOffset", UShort(6 + 12 * count)) ]
  }

  /** The six fields of name i, whose text starts at `offset` in the pool. */
  function RecordFields(i: nat, name: NameSpec, offset: nat): seq<Field>
  {
    [ Field("platformID_" + Decimal(i), UShort(name.platformID)),
      Field("encodingID_" + Decimal(i), UShort(name.encodingID)),
      Field("languageID_" + Decimal(i), UShort(name.languageID)),
      Field("nameID_" + Decimal(i), UShort(name.nameID)),
      Field("length_" + Decimal(i), UShort(|name.text|)),
      Field("offset_" + Decimal(i), UShort(offset)) ]
  }

  function AllRecordFields(names: seq<NameSpec>): (fs: seq<Field>)
    ensures |fs| == 6 * |names|
    decreases |names|
  {
    if names == [] then []
    else
      var init := names[..|names| - 1];
      AllRecordFields(init) + RecordFields(|names| - 1, names[|names| - 1], |Pool(init)|)
  }

  /** The whole field list of the table, in order. */
  function NameTableFields(names: seq<NameSpec>): seq<Field>
  {
    TableFields(|names|, AllRecordFields(names), Pool(names))
  }

  /** The header for `count` records, the record fields, then the pool. */
  function TableFields(count: nat, recordFields: seq<Field>, pool: seq<byte>): seq<Field>
  {
    HeaderFields(count) + recordFields + [Field("strings", Literal(pool))]
  }

  predicate RecordFits(name: NameSpec, offset: nat)
  {
    && InU16(name.platformID) && InU16(name.encodingID) && InU16(name.languageID)
    && InU16(name.nameID) && InU16(|name.text|) && InU16(offset)
  }

  /** Every USHORT the table holds fits in 16 bits: the header's string
      offset, and each record's IDs, length and offset. */
  predicate Fits(names: seq<NameSpec>)
  {
    InU16(6 + 12 * |names|) && RecordsFit(names)
  }

  predicate RecordsFit(names: seq<NameSpec>)
    decreases |names|
  {
    names == [] ||
    (RecordsFit(names[..|names| - 1]) && RecordFits(names[|names| - 1], |Pool(names[..|names| - 1])|))
  }

  /** The record of every name fits, wherever it sits. */
  lemma {:induction false} RecordsFitAt(names: seq<NameSpec>, i: nat)
    requires RecordsFit(names) && i < |names|
    ensures RecordFits(names[i], PoolOffset(names, i))
    decreases |names|
  {
    var init := names[..|names| - 1];
    if i < |names| - 1 {
      RecordsFitAt(init, i);
      PrefixOfInit(names, i);
    }
  }

  lemma FitsInit(names: seq<NameSpec>)
    requires Fits(names) && |names| > 0
    ensures Fits(names[..|names| - 1])
  {
  }

  /** A table fits whenever its IDs are 16-bit, there are at most 5460
      names, and every text is at most L bytes long for some L that keeps
      the whole pool within 64 KiB: then no length and no offset can
      overflow. */
  lemma BoundedFits(names: seq<NameSpec>, L: nat)
    requires InU16(6 + 12 * |names|) && |names| * L <= 0xFFFF
    requires forall i :: 0 <= i < |names| ==> IdsFit(names[i]) && |names[i].text| <= L
    ensures Fits(names)
  {
    BoundedRecordsFit(names, L);
  }

  predicate IdsFit(name: NameSpec)
  {
    InU16(name.platformID) && InU16(name.encodingID) && InU16(name.languageID) && InU16(name.nameID)
  }

  lemma {:induction false} BoundedRecordsFit(names: seq<NameSpec>, L: nat)
    requires |names| * L <= 0xFFFF
    requires forall i :: 0 <= i < |names| ==> IdsFit(names[i]) && |names[i].text| <= L
    ensures RecordsFit(names)
    decreases |names|
  {
    if names != [] {
      var init := names[..|names| - 1];
      assert (|names| - 1) * L <= |names| * L;
      BoundedRecordsFit(init, L);
      PoolBounded(init, L);
    }
  }

  lemma {:induction false} PoolBounded(names: seq<NameSpec>, L: nat)
    requires forall i :: 0 <= i < |names| ==> |names[i].text| <= L
    ensures |Pool(names)| <= |names| * L
    decreases |names|
  {
    if names != [] {
      var init := names[..|names| - 1];
      PoolBounded(init, L);
      assert |names| * L == (|names| - 1) * L + L;
    }
  }

  /** The record that the six fields of name i encode. */
  function RecordOf(names: seq<NameSpec>, i: nat): NameRecord
    requires Fits(names) && i < |names|
  {
    RecordsFitAt(names, i);
    var n := names[i];
    NameRecord(n.platformID, n.encodingID, n.languageID, n.nameID, |n.text|, PoolOffset(names, i))
  }

  function NameRecords(names: seq<NameSpec>): (rs: seq<NameRecord>)
    requires Fits(names)
    ensures |rs| == |names|
  {
    seq(|names|, i requires 0 <= i < |names| => RecordOf(names, i))
  }

  /** The header and record array of a format-0 table: format 0, the
      record count, the string offset 6 + 12 * count, then the records. */
  function TableHead(rs: seq<NameRecord>): (b: seq<byte>)
    requires InU16(6 + 12 * |rs|)
    ensures |b| == 6 + 12 * |rs|
  {
    U16Bytes(0) + U16Bytes(|rs|) + U16Bytes(6 + 12 * |rs|) + RecordsBytes(rs)
  }

  /** A format-0 table: its header and records, then the string pool. */
  function TableBytes(rs: seq<NameRecord>, pool: seq<byte>): (b: seq<byte>)
    requires InU16(6 + 12 * |rs|)
    ensures |b| == 6 + 12 * |rs| + |pool|
  {
    TableHead(rs) + pool
  }

  /** The bytes makeNameTable produces for the names. */
  function NameTableBytes(names: seq<NameSpec>): seq<byte>
    requires Fits(names)
  {
    TableBytes(NameRecords(names), Pool(names))
  }

  /** What the table means: the map its names build, in order. */
  function NamesToMap(names: seq<NameSpec>, ltag: Option<seq<Tag>>, mac: MacDecoder): NameMap
  {
    BuildMap(NameEntries(names, ltag, mac))
  }

  function NameEntries(names: seq<NameSpec>, ltag: Option<seq<Tag>>, mac: MacDecoder): (es: seq<Option<Entry>>)
    ensures |es| == |names|
  {
    seq(|names|, i requires 0 <= i < |names| =>
      ResolveEntry(names[i].platformID, names[i].encodingID, names[i].languageID,
                   names[i].nameID, names[i].text, ltag, mac))
  }

  // ---------------------------------------------------------------------
  // Layout lemmas

  lemma PrefixOfInit(names: seq<NameSpec>, i: nat)
    requires i < |names|
    ensures names[..|names| - 1][..i] == names[..i]
  {
  }

  /** The pool built from the first j names is a prefix of the whole pool. */
  lemma {:induction false} PoolPrefix(names: seq<NameSpec>, j: nat)
    requires j <= |names|
    ensures |Pool(names[..j])| <= |Pool(names)|
    ensures Pool(names)[..|Pool(names[..j])|] == Pool(names[..j])
    decreases |names|
  {
    if j == |names| {
      assert names[..j] == names;
    } else {
      var init := names[..|names| - 1];
      PrefixOfInit(names, j);
      PoolPrefix(init, j);
    }
  }

  /** The pool is the texts concatenated in record order: name i's text
      starts where name i - 1's ends (the first at 0), lies inside the pool
      at that place, and the last one ends where the pool ends. So the
      ranges are contiguous, do not overlap, and the pool's length is the
      sum of the texts' lengths. */
  lemma PoolTiling(names: seq<NameSpec>, i: nat)
    requires i < |names|
    ensures PoolOffset(names, 0) == 0
    ensures PoolOffset(names, |names|) == |Pool(names)| == TotalTextLength(names)
    ensures PoolOffset(names, i + 1) == PoolOffset(names, i) + |names[i].text|
    ensures PoolOffset(names, i) + |names[i].text| <= |Pool(names)|
    ensures Pool(names)[PoolOffset(names, i) .. PoolOffset(names, i) + |names[i].text|] == names[i].text
  {
    assert names[..0] == [];
    assert names[..|names|] == names;
    PoolLengthIsTotal(names);
    assert names[..i + 1][..i] == names[..i];
    assert Pool(names[..i + 1]) == Pool(names[..i]) + names[i].text;
    PoolPrefix(names, i + 1);
    var p := Pool(names);
    var a := PoolOffset(names, i);
    var b := PoolOffset(names, i + 1);
    assert p[a .. b] == p[..b][a..];
  }

  lemma {:induction false} PoolLengthIsTotal(names: seq<NameSpec>)
    ensures |Pool(names)| == TotalTextLength(names)
    decreases |names|
  {
    if names != [] {
      var init := names[..|names| - 1];
      PoolLengthIsTotal(init);
      TotalTextLengthSnoc(init, names[|names| - 1]);
      assert init + [names[|names| - 1]] == names;
    }
  }

  lemma {:induction false} TotalTextLengthSnoc(names: seq<NameSpec>, x: NameSpec)
    ensures TotalTextLength(names + [x]) == TotalTextLength(names) + |x.text|
    decreases |names|
  {
    if names != [] {
      assert (names + [x])[1..] == names[1..] + [x];
      TotalTextLengthSnoc(names[1..], x);
    } else {
      assert [x][1..] == [];
    }
  }

  /** The fields of name i are fields 6i to 6i + 6 of the record part. */
  lemma {:induction false} AllRecordFieldsAt(names: seq<NameSpec>, i: nat)
    requires i < |names|
    ensures AllRecordFields(names)[6 * i .. 6 * i + 6] == RecordFields(i, names[i], PoolOffset(names, i))
    decreases |names|
  {
    var n := |names|;
    var init := names[..n - 1];
    var a, b := AllRecordFields(init), RecordFields(n - 1, names[n - 1], |Pool(init)|);
    assert AllRecordFields(names) == a + b;
    if i < n - 1 {
      var c := RecordFields(i, names[i], PoolOffset(names, i));
      assert a[6 * i .. 6 * i + 6] == c by {
        AllRecordFieldsAt(init, i);
        PrefixOfInit(names, i);
        assert init[i] == names[i];
      }
      AppendSliceLeft(a, b, 6 * i, 6 * i + 6);
    } else {
      assert PoolOffset(names, i) == |Pool(init)|;
      assert 6 * i == |a| && 6 * i + 6 == |a + b|;
      assert (a + b)[|a| .. |a + b|] == b;
    }
  }

  /** makeNameTable's field list: the header first (format 0, the count,
      the string offset 6 + 12 * count), then six fields per name, and
      last the 'strings' pool: 3 + 6 * count + 1 fields in all. */
  lemma FieldLayout(names: seq<NameSpec>)
    ensures var fs := NameTableFields(names);
      && |fs| == 3 + 6 * |names| + 1
      && fs[0] == Field("format", UShort(0))
      && fs[1] == Field("count", UShort(|names|))
      && fs[2] == Field("stringOffset", UShort(6 + 12 * |names|))
      && fs[|fs| - 1] == Field("strings", Literal(Pool(names)))
  {
    var h, r := HeaderFields(|names|), AllRecordFields(names);
    var s := [Field("strings", Literal(Pool(names)))];
    var fs := NameTableFields(names);
    assert fs == h + r + s;
    assert fs[0] == h[0] && fs[1] == h[1] && fs[2] == h[2];
    assert fs[|fs| - 1] == s[0];
  }

  /** Fields 3 + 6i to 3 + 6i + 6 are name i's, in the order platformID,
      encodingID, languageID, nameID, length, offset, with length its
      text's byte length and offset its text's place in the pool. */
  lemma RecordFieldsInTable(names: seq<NameSpec>, i: nat)
    requires i < |names|
    ensures NameTableFields(names)[3 + 6 * i .. 3 + 6 * i + 6] == RecordFields(i, names[i], PoolOffset(names, i))
  {
    var r := AllRecordFields(names);
    var fs := NameTableFields(names);
    assert fs[3 .. 3 + 6 * |names|] == r;
    AllRecordFieldsAt(names, i);
    assert fs[3 + 6 * i .. 3 + 6 * i + 6] == fs[3 .. 3 + 6 * |names|][6 * i .. 6 * i + 6];
  }
}
