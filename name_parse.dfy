/** name.parse for format-0 'name' tables: read the header, read `count`
    12-byte records, and fold them into the resolved name map in record
    order. Records whose platform, codec or language does not resolve are
    dropped without their text being read. Any read past the end of the
    buffer aborts the whole parse with TruncatedData; no partial map is
    returned. */
module NameParse {
  import opened Types
  import opened Text
  import opened Tables
  import opened NameLookup
  import opened NameMaps

  /** The record's text, at stringOffset + offset for length bytes, lies
      inside the table's bytes. */
  predicate TextInBounds(r: NameRecord, data: seq<byte>, stringOffset: nat)
  {
    stringOffset + r.offset + r.length <= |data|
  }

  /** The text bytes of a record. */
  function TextOf(r: NameRecord, data: seq<byte>, stringOffset: nat): seq<byte>
    requires TextInBounds(r, data, stringOffset)
  {
    data[stringOffset + r.offset .. stringOffset + r.offset + r.length]
  }

  /** The record's identifiers resolve, so its text is read. */
  predicate Kept(r: NameRecord, ltag: Option<seq<Tag>>, mac: MacDecoder)
  {
    Resolvable(r.platformID, r.encodingID, r.languageID, ltag, mac)
  }

  /** The entry a record contributes when its text can be read. */
  function RecordEntry(r: NameRecord, data: seq<byte>, stringOffset: nat,
                       ltag: Option<seq<Tag>>, mac: MacDecoder): Option<Entry>
  {
    if Kept(r, ltag, mac) && TextInBounds(r, data, stringOffset)
    then ResolveEntry(r.platformID, r.encodingID, r.languageID, r.nameID,
                      TextOf(r, data, stringOffset), ltag, mac)
    else None
  }

  /** One iteration of the record loop: a record whose platform, codec or
      language does not resolve is skipped without reading its text; a kept
      record's text must lie inside the buffer, and its entry is inserted. */
  function AddRecord(m: NameMap, r: NameRecord, data: seq<byte>, stringOffset: nat,
                     ltag: Option<seq<Tag>>, mac: MacDecoder): (res: Result<NameMap>)
    ensures res.Failure? <==> Kept(r, ltag, mac) && !TextInBounds(r, data, stringOffset)
    ensures res.Failure? ==> res.error == TruncatedData
    ensures !Kept(r, ltag, mac) ==> res == Success(m)
    ensures res.Success? ==> res.value == Insert(m, RecordEntry(r, data, stringOffset, ltag, mac))
  {
    if !Kept(r, ltag, mac) then Success(m)
    else if !TextInBounds(r, data, stringOffset) then Failure(TruncatedData)
    else Success(Insert(m, RecordEntry(r, data, stringOffset, ltag, mac)))
  }

  /** The record loop, first record to last. */
  function Collect(records: seq<NameRecord>, data: seq<byte>, stringOffset: nat,
                   ltag: Option<seq<Tag>>, mac: MacDecoder): (r: Result<NameMap>)
    ensures r.Failure? ==> r.error == TruncatedData
    decreases |records|
  {
    if records == [] then Success(map[])
    else
      var m :- Collect(records[..|records| - 1], data, stringOffset, ltag, mac);
      AddRecord(m, records[|records| - 1], data, stringOffset, ltag, mac)
  }

  /** Every kept record has its text inside the buffer. */
  predicate AllTextsInBounds(records: seq<NameRecord>, data: seq<byte>, stringOffset: nat,
                             ltag: Option<seq<Tag>>, mac: MacDecoder)
  {
    forall i :: 0 <= i < |records| && Kept(records[i], ltag, mac) ==>
      TextInBounds(records[i], data, stringOffset)
  }

  function RecordEntries(records: seq<NameRecord>, data: seq<byte>, stringOffset: nat,
                         ltag: Option<seq<Tag>>, mac: MacDecoder): (es: seq<Option<Entry>>)
    ensures |es| == |records|
  {
    seq(|records|, i requires 0 <= i < |records| => RecordEntry(records[i], data, stringOffset, ltag, mac))
  }

  /** The record loop either fails on a kept record's text outside the
      buffer or builds the map of all the records' entries, in order. */
  lemma {:induction false} CollectMeaning(records: seq<NameRecord>, data: seq<byte>, stringOffset: nat,
                                          ltag: Option<seq<Tag>>, mac: MacDecoder)
    ensures Collect(records, data, stringOffset, ltag, mac) ==
      if AllTextsInBounds(records, data, stringOffset, ltag, mac)
      then Success(BuildMap(RecordEntries(records, data, stringOffset, ltag, mac)))
      else Failure(TruncatedData)
    decreases |records|
  {
    if records != [] {
      var init := records[..|records| - 1];
      var last := records[|records| - 1];
      assert records == init + [last];
      CollectMeaning(init, data, stringOffset, ltag, mac);
      InBoundsSnoc(init, last, data, stringOffset, ltag, mac);
      EntriesSnoc(init, last, data, stringOffset, ltag, mac);
      BuildMapSnoc(RecordEntries(init, data, stringOffset, ltag, mac), RecordEntry(last, data, stringOffset, ltag, mac));
    }
  }

  lemma InBoundsSnoc(init: seq<NameRecord>, last: NameRecord, data: seq<byte>, stringOffset: nat,
                     ltag: Option<seq<Tag>>, mac: MacDecoder)
    ensures AllTextsInBounds(init + [last], data, stringOffset, ltag, mac) <==>
      AllTextsInBounds(init, data, stringOffset, ltag, mac)
      && (Kept(last, ltag, mac) ==> TextInBounds(last, data, stringOffset))
  {
    var rs := init + [last];
    assert rs[|init|] == last;
    forall i | 0 <= i < |init| ensures rs[i] == init[i] { }
  }

  lemma EntriesSnoc(init: seq<NameRecord>, last: NameRecord, data: seq<byte>, stringOffset: nat,
                    ltag: Option<seq<Tag>>, mac: MacDecoder)
    ensures RecordEntries(init + [last], data, stringOffset, ltag, mac)
         == RecordEntries(init, data, stringOffset, ltag, mac) + [RecordEntry(last, data, stringOffset, ltag, mac)]
  {
  }

  /** The `count` records that follow the 6-byte header. */
  function Records(data: seq<byte>, count: nat): (rs: seq<NameRecord>)
    requires 6 + 12 * count <= |data|
    ensures |rs| == count
  {
    seq(count, i requires 0 <= i < count => RecordAt(data, 6 + 12 * i))
  }

  /** name.parse(data, 0, ltag): the header is format, count and
      stringOffset; the format is read and not used. */
  function ParseNameTable(data: seq<byte>, ltag: Option<seq<Tag>>, mac: MacDecoder): (r: Result<NameMap>)
    ensures r.Failure? ==> r.error == TruncatedData
    ensures |data| < 6 ==> r.Failure?
    ensures |data| >= 6 && |data| < 6 + 12 * U16At(data, 2) ==> r.Failure?
  {
    if |data| < 6 then Failure(TruncatedData)
    else
      var count := U16At(data, 2);
      var stringOffset := U16At(data, 4);
      if |data| < 6 + 12 * count then Failure(TruncatedData)
      else Collect(Records(data, count), data, stringOffset, ltag, mac)
  }

  /** A table none of whose records resolves (an unsupported platform, no
      codec, or no language) parses to the empty map, however its texts are
      laid out. */
  lemma DroppedRecordsParseEmpty(data: seq<byte>, ltag: Option<seq<Tag>>, mac: MacDecoder)
    requires |data| >= 6 && |data| >= 6 + 12 * U16At(data, 2)
    requires forall i :: 0 <= i < U16At(data, 2) ==> !Kept(RecordAt(data, 6 + 12 * i), ltag, mac)
    ensures ParseNameTable(data, ltag, mac) == Success(map[])
  {
    var rs := Records(data, U16At(data, 2));
    assert forall i :: 0 <= i < |rs| ==> !Kept(rs[i], ltag, mac);
    CollectDropped(rs, data, U16At(data, 4), ltag, mac);
  }

  /** Only records that do not resolve: the loop reads no text and builds
      the empty map. */
  lemma CollectDropped(rs: seq<NameRecord>, data: seq<byte>, stringOffset: nat,
                       ltag: Option<seq<Tag>>, mac: MacDecoder)
    requires forall i :: 0 <= i < |rs| ==> !Kept(rs[i], ltag, mac)
    ensures Collect(rs, data, stringOffset, ltag, mac) == Success(map[])
  {
    CollectMeaning(rs, data, stringOffset, ltag, mac);
    var es := RecordEntries(rs, data, stringOffset, ltag, mac);
    assert forall i :: 0 <= i < |es| ==> es[i].None?;
    AllDroppedIsEmpty(es);
  }
}
