// dvb/read.c: finding PSI/SI sections (ISO/IEC 13818-1 section 2.4.4) in
// the byte stream of a demultiplexer, and collecting the sections of each
// table until every section of its current version has been seen.
module Demux {
  import opened Wrappers
  import opened Wire

  /** The bytes of one section, header and CRC included. */
  type Section = seq<Byte>

  /** A dvb_table_t: its sections[] slots are NULL until filled. */
  datatype Table = Table(tableId: Byte, version: int, sections: seq<Option<Section>>)

  /** Every slot of the table is filled. */
  predicate Complete(t: Table)
  {
    forall i :: 0 <= i < |t.sections| ==> t.sections[i].Some?
  }

  /** The sections of a complete table, in section_number order. */
  function Payloads(t: Table): (r: seq<Section>)
    requires Complete(t)
    ensures |r| == |t.sections| && forall i :: 0 <= i < |r| ==> t.sections[i] == Some(r[i])
  {
    seq(|t.sections|, i requires 0 <= i < |t.sections| => t.sections[i].value)
  }

  /** At most one table per table_id. */
  predicate UniqueIds(tables: seq<Table>)
  {
    forall i, j :: 0 <= i < j < |tables| ==> tables[i].tableId != tables[j].tableId
  }

  /** dvb_demux_table_reset: version -1 and count empty slots. */
  function Reset(t: Table, count: nat): (r: Table)
    ensures r.tableId == t.tableId && r.version == -1 && |r.sections| == count
    ensures forall i :: 0 <= i < count ==> r.sections[i].None?
  {
    Table(t.tableId, -1, seq(count, _ => None))
  }

  /** The index of the table with this table_id, if any. */
  function Find(tables: seq<Table>, tableId: Byte): (r: Option<nat>)
    ensures r.Some? ==> r.value < |tables| && tables[r.value].tableId == tableId
    ensures r.Some? ==> forall j :: 0 <= j < r.value ==> tables[j].tableId != tableId
    ensures r.None? <==> forall j :: 0 <= j < |tables| ==> tables[j].tableId != tableId
  {
    FindFrom(tables, tableId, 0)
  }

  function FindFrom(tables: seq<Table>, tableId: Byte, from: nat): (r: Option<nat>)
    requires from <= |tables|
    ensures r.Some? ==> from <= r.value < |tables| && tables[r.value].tableId == tableId
    ensures r.Some? ==> forall j :: from <= j < r.value ==> tables[j].tableId != tableId
    ensures r.None? <==> forall j :: from <= j < |tables| ==> tables[j].tableId != tableId
    decreases |tables| - from
  {
    if from == |tables| then None
    else if tables[from].tableId == tableId then Some(from)
    else FindFrom(tables, tableId, from + 1)
  }

  /** dvb_demux_table_alloc: resets the table with this id, or appends a new one. */
  function Alloc(tables: seq<Table>, tableId: Byte, count: nat): (r: (seq<Table>, nat))
    ensures r.1 < |r.0| && r.0[r.1] == Reset(Table(tableId, -1, []), count)
    ensures Find(tables, tableId).Some? ==> r.1 == Find(tables, tableId).value && |r.0| == |tables|
    ensures Find(tables, tableId).None? ==> r.1 == |tables| && |r.0| == |tables| + 1
    ensures forall j :: 0 <= j < |tables| && j != r.1 ==> r.0[j] == tables[j]
    ensures UniqueIds(tables) ==> UniqueIds(r.0)
  {
    match Find(tables, tableId)
    case Some(i) => (tables[i := Reset(tables[i], count)], i)
    case None => (tables + [Reset(Table(tableId, -1, []), count)], |tables|)
  }

  /** Stores a section in slot secnum. A slot number beyond the table is dropped. */
  function Store(t: Table, secnum: nat, section: Section): (r: Table)
    ensures r.tableId == t.tableId && r.version == t.version && |r.sections| == |t.sections|
    ensures secnum < |t.sections| ==> r.sections == t.sections[secnum := Some(section)]
    ensures secnum >= |t.sections| ==> r == t
  {
    if secnum < |t.sections| then t.(sections := t.sections[secnum := Some(section)]) else t
  }

  /** dvb_demux_section_add: the table after the section, and its index. */
  function SectionAdd(tables: seq<Table>, tableId: Byte, version: int, secnum: nat, last: nat, section: Section): (r: (seq<Table>, nat))
    ensures r.1 < |r.0| && r.0[r.1].tableId == tableId && |tables| <= |r.0|
    ensures forall j :: 0 <= j < |tables| && j != r.1 ==> r.0[j] == tables[j]
    ensures Find(tables, tableId).Some? ==> r.1 == Find(tables, tableId).value && |r.0| == |tables|
    ensures Find(tables, tableId).None? ==>
      (r.1 == |tables| && |r.0| == |tables| + 1 &&
       r.0[r.1] == Store(Table(tableId, version, seq(last + 1, _ => None)), secnum, section))
    ensures UniqueIds(tables) ==> UniqueIds(r.0)
  {
    match Find(tables, tableId)
    case None =>
      var a := Alloc(tables, tableId, last + 1);
      (a.0[a.1 := Store(a.0[a.1].(version := version), secnum, section)], a.1)
    case Some(i) =>
      var t := tables[i];
      if t.version > version then (tables, i)
      else
        var t1 := if t.version < version then Reset(t, last + 1).(version := version) else t;
        if Complete(t1) then (tables[i := Store(Reset(t1, last + 1).(version := version), secnum, section)], i)
        else if secnum < |t1.sections| && t1.sections[secnum].Some? then (tables[i := t1], i)
        else (tables[i := Store(t1, secnum, section)], i)
  }

  /** What happens to a stored table when a section of the same table_id arrives. */
  lemma SectionAddVersions(tables: seq<Table>, i: nat, version: int, secnum: nat, last: nat, section: Section)
    requires i < |tables| && Find(tables, tables[i].tableId) == Some(i)
    ensures var t := tables[i]; var r := SectionAdd(tables, t.tableId, version, secnum, last, section);
      r.1 == i &&
      // an older version is discarded
      (t.version > version ==> r.0 == tables) &&
      // a newer version replaces the table by last + 1 empty slots, then stores the section
      (t.version < version ==>
        r.0[i] == Store(Table(t.tableId, version, seq(last + 1, _ => None)), secnum, section)) &&
      // the same version of a complete table starts the collection again
      (t.version == version && Complete(t) ==>
        r.0[i] == Store(Table(t.tableId, version, seq(last + 1, _ => None)), secnum, section)) &&
      // a section whose slot is already filled changes nothing
      (t.version == version && !Complete(t) && secnum < |t.sections| && t.sections[secnum].Some? ==>
        r.0 == tables) &&
      // otherwise the section fills its slot
      (t.version == version && !Complete(t) && !(secnum < |t.sections| && t.sections[secnum].Some?) ==>
        r.0[i] == Store(t, secnum, section))
  {
    var t := tables[i];
    if t.version < version {
      var t1 := Reset(t, last + 1).(version := version);
      assert !Complete(t1) by { assert t1.sections[0].None?; }
      assert t1 == Table(t.tableId, version, seq(last + 1, _ => None));
    }
    if t.version == version && Complete(t) {
      assert Reset(t, last + 1).(version := version) == Table(t.tableId, version, seq(last + 1, _ => None));
    }
    if t.version == version && !Complete(t) && secnum < |t.sections| && t.sections[secnum].Some? {
      assert tables[i := t] == tables;
    }
  }

  /** The section numbers of ISO/IEC 13818-1 section 2.4.4 are only meaningful up to
      last_section_number. As written, dvb_demux_section_add indexes
      sections[secnum] without that check: this tells whether the call would
      read or write past the slots of the table. */
  predicate SlotOverrunAsWritten(tables: seq<Table>, tableId: Byte, version: int, secnum: nat, last: nat)
  {
    match Find(tables, tableId)
    case None => secnum > last
    case Some(i) =>
      var t := tables[i];
      if t.version > version then false
      else
        var t1 := if t.version < version then Reset(t, last + 1).(version := version) else t;
        if Complete(t1) then secnum > last else secnum >= |t1.sections|
  }

  /** The first section of a new table with section_number 1 and
      last_section_number 0 is written to sections[1] of a one-slot array. */
  lemma SlotOverrunExample(section: Section)
    ensures SlotOverrunAsWritten([], 0x42, 0, 1, 0)
    ensures SectionAdd([], 0x42, 0, 1, 0, section).0 == [Table(0x42, 0, [None])]
  {
    assert Find([], 0x42) == None;
    var empty: seq<Option<Section>> := seq(1, _ => None);
    assert empty == [None];
  }

  /** The 13818-1 table_ids whose sections carry version and section numbers. */
  predicate Versioned(tableId: Byte)
  {
    tableId in {0x00, 0x02, 0x03, 0x40, 0x41, 0x42, 0x46, 0x4E, 0x4F} || 0x50 <= tableId <= 0x6F
  }

  /** dvb_demux_read_section: the tables afterwards, and the table it reports. */
  function ReadSection(tables: seq<Table>, section: Section): (r: (seq<Table>, Option<Table>))
    ensures UniqueIds(tables) ==> UniqueIds(r.0)
    ensures r.1.Some? ==> r.1.value in r.0 && r.1.value.tableId == TableId(section)
    ensures Versioned(TableId(section)) ==>
      (Find(r.0, TableId(section)).Some? && (r.1.Some? <==> Complete(r.0[Find(r.0, TableId(section)).value])))
    ensures !Versioned(TableId(section)) ==> r.1 == Some(Table(TableId(section), -1, [Some(section)]))
    ensures |r.0| <= |tables| + 1
  {
    var tableId := TableId(section);
    if Versioned(tableId) then
      var a := SectionAdd(tables, tableId, VersionNumber(section), SectionNumber(section), LastSectionNumber(section), section);
      FoundAfterAdd(tables, tableId, VersionNumber(section), SectionNumber(section), LastSectionNumber(section), section);
      (a.0, if Complete(a.0[a.1]) then Some(a.0[a.1]) else None)
    else
      var a := Alloc(tables, tableId, 1);
      var t := a.0[a.1].(sections := [Some(section)]);
      assert a.0[a.1 := t][a.1] == t;
      (a.0[a.1 := t], Some(t))
  }

  lemma FoundAfterAdd(tables: seq<Table>, tableId: Byte, version: int, secnum: nat, last: nat, section: Section)
    ensures var r := SectionAdd(tables, tableId, version, secnum, last, section);
      Find(r.0, tableId) == Some(r.1)
  {
    var r := SectionAdd(tables, tableId, version, secnum, last, section);
    if Find(tables, tableId).Some? {
      assert forall j :: 0 <= j < r.1 ==> r.0[j] == tables[j];
    } else {
      assert forall j :: 0 <= j < |tables| ==> r.0[j] == tables[j];
    }
  }

  /** dvb_crc32(p, len) == 0: the CRC_32 over the whole section checks. */
  type Crc = Section -> bool

  /** What dvb_demux_read does with the unread bytes buf[bufstart..bufend]. */
  datatype Step = Fill(need: nat) | SkipPes | Resync | Deliver(section: Section)

  predicate PesStart(window: seq<Byte>)
  {
    |window| >= 3 && window[0] == 0 && window[1] == 0 && window[2] == 1
  }

  /** The decision one pass of the loop takes, and how many bytes it asks for. */
  function Classify(window: seq<Byte>, crcOk: Crc): (s: Step)
    ensures |window| < 3 ==> s == Fill(3 - |window|)
    ensures PesStart(window) ==> s == SkipPes
    ensures |window| >= 3 && !PesStart(window) && |window| < 3 + SectionLength(window) ==>
      s == Fill(3 + SectionLength(window) - |window|)
    ensures s.Fill? ==> 1 <= s.need && |window| + s.need <= 4098
    ensures s.SkipPes? ==> |window| >= 3
    ensures s.Resync? <==> (|window| >= 3 && !PesStart(window) && 3 + SectionLength(window) <= |window| &&
                            !crcOk(window[..3 + SectionLength(window)]))
    ensures s.Deliver? ==> (|window| >= 3 && s.section == window[..3 + SectionLength(window)] && crcOk(s.section) &&
                            SectionLength(s.section) == SectionLength(window))
  {
    if |window| < 3 then Fill(3 - |window|)
    else if PesStart(window) then SkipPes
    else
      var l := SectionLength(window);
      if |window| < 3 + l then Fill(3 + l - |window|)
      else if !crcOk(window[..3 + l]) then Resync
      else Deliver(window[..3 + l])
  }

  /** What one call of dvb_demux_read returns: the table reported (NULL when
      the descriptor runs dry), the tables of the context and the bytes the
      descriptor still holds. */
  datatype Outcome = Outcome(table: Option<Table>, tables: seq<Table>, rest: seq<Byte>)

  /** The loop of dvb_demux_read from the unread bytes `window`. A read asks
      for `need` bytes; the descriptor gives as many as it has, and none means
      the end of data. */
  function ReadFrom(window: seq<Byte>, input: seq<Byte>, tables: seq<Table>, crcOk: Crc): (o: Outcome)
    ensures |o.rest| <= |input| && o.rest == input[|input| - |o.rest|..]
    decreases |input|, |window|
  {
    match Classify(window, crcOk)
    case Fill(need) =>
      if input == [] then Outcome(None, tables, [])
      else
        var k := if need < |input| then need else |input|;
        ReadFrom(window + input[..k], input[k..], tables, crcOk)
    case SkipPes => ReadFrom([], input, tables, crcOk)
    case Resync => ReadFrom(window[1..], input, tables, crcOk)
    case Deliver(section) =>
      var a := ReadSection(tables, section);
      if a.1.Some? then Outcome(a.1, a.0, input) else ReadFrom([], input, a.0, crcOk)
  }

  /** A call never produces a second table with the same id, and the table it
      reports is one of the context's tables, complete when it is versioned. */
  lemma {:induction false} ReadFromSound(window: seq<Byte>, input: seq<Byte>, tables: seq<Table>, crcOk: Crc)
    requires UniqueIds(tables)
    ensures var o := ReadFrom(window, input, tables, crcOk);
      UniqueIds(o.tables) &&
      (o.table.Some? ==> (o.table.value in o.tables &&
                          (Versioned(o.table.value.tableId) ==> Complete(o.table.value))))
    decreases |input|, |window|
  {
    match Classify(window, crcOk)
    case Fill(need) =>
      if input != [] {
        var k := if need < |input| then need else |input|;
        ReadFromSound(window + input[..k], input[k..], tables, crcOk);
      }
    case SkipPes => ReadFromSound([], input, tables, crcOk);
    case Resync => ReadFromSound(window[1..], input, tables, crcOk);
    case Deliver(section) =>
      var a := ReadSection(tables, section);
      var ts, t := a.0, a.1;
      if t.Some? {
        if Versioned(t.value.tableId) {
          var i := Find(ts, TableId(section)).value;
          assert ts[i] == t.value by {
            ReportedIsFound(tables, section);
          }
        }
      } else {
        ReadFromSound([], input, ts, crcOk);
      }
  }

  lemma ReportedIsFound(tables: seq<Table>, section: Section)
    requires Versioned(TableId(section))
    ensures var r := ReadSection(tables, section);
      r.1.Some? ==> r.1.value == r.0[Find(r.0, TableId(section)).value]
  {
    var tableId := TableId(section);
    FoundAfterAdd(tables, tableId, VersionNumber(section), SectionNumber(section), LastSectionNumber(section), section);
  }

  /** Once a whole section with a good CRC is buffered, the bytes buffered
      behind it make no difference: they are dropped with bufstart = bufend. */
  lemma TrailingBytesDropped(section: Section, junk1: seq<Byte>, junk2: seq<Byte>, input: seq<Byte>, tables: seq<Table>, crcOk: Crc)
    requires |section| >= 3 && |section| == 3 + SectionLength(section) && !PesStart(section) && crcOk(section)
    ensures ReadFrom(section + junk1, input, tables, crcOk) == ReadFrom(section + junk2, input, tables, crcOk)
  {
    var w1, w2 := section + junk1, section + junk2;
    assert w1[..|section|] == section && w2[..|section|] == section;
    assert SectionLength(w1) == SectionLength(section) == SectionLength(w2);
    assert Classify(w1, crcOk) == Deliver(section) == Classify(w2, crcOk);
  }

  /** A CRC failure moves the start of the window by exactly one byte. */
  lemma CrcFailureSkipsOneByte(window: seq<Byte>, input: seq<Byte>, tables: seq<Table>, crcOk: Crc)
    requires |window| >= 3 && !PesStart(window) && 3 + SectionLength(window) <= |window|
    requires !crcOk(window[..3 + SectionLength(window)])
    ensures ReadFrom(window, input, tables, crcOk) == ReadFrom(window[1..], input, tables, crcOk)
  {
  }

  /** The steps of ReadFrom, one per branch of the loop of dvb_demux_read. */
  lemma PesSkipped(window: seq<Byte>, input: seq<Byte>, tables: seq<Table>, crcOk: Crc)
    requires PesStart(window)
    ensures ReadFrom(window, input, tables, crcOk) == ReadFrom([], input, tables, crcOk)
  {
  }

  lemma SectionDelivered(window: seq<Byte>, input: seq<Byte>, tables: seq<Table>, crcOk: Crc)
    requires |window| >= 3 && !PesStart(window) && 3 + SectionLength(window) <= |window|
    requires crcOk(window[..3 + SectionLength(window)])
    ensures var r := ReadSection(tables, window[..3 + SectionLength(window)]);
      ReadFrom(window, input, tables, crcOk) ==
        if r.1.Some? then Outcome(r.1, r.0, input) else ReadFrom([], input, r.0, crcOk)
  {
  }

  lemma ReadMore(window: seq<Byte>, input: seq<Byte>, tables: seq<Table>, crcOk: Crc, need: nat)
    requires Classify(window, crcOk) == Fill(need) && input != []
    ensures var k := if need < |input| then need else |input|;
      ReadFrom(window, input, tables, crcOk) == ReadFrom(window + input[..k], input[k..], tables, crcOk)
  {
  }

  lemma EndOfData(window: seq<Byte>, tables: seq<Table>, crcOk: Crc, need: nat)
    requires Classify(window, crcOk) == Fill(need)
    ensures ReadFrom(window, [], tables, crcOk) == Outcome(None, tables, [])
  {
  }

  /** The tables and reports after dvb_demux_read_section has received each
      section of `secs` in turn. */
  function Collected(tables: seq<Table>, secs: seq<Section>): (r: (seq<Table>, seq<Option<Table>>))
    ensures |r.1| == |secs|
  {
    if secs == [] then (tables, [])
    else
      var c := Collected(tables, secs[..|secs| - 1]);
      var a := ReadSection(c.0, secs[|secs| - 1]);
      (a.0, c.1 + [a.1])
  }

  /** The sections 0 .. n of one version of one versioned table. */
  predicate OneVersion(secs: seq<Section>, tableId: Byte, version: int)
  {
    Versioned(tableId) &&
    forall k :: 0 <= k < |secs| ==>
      TableId(secs[k]) == tableId && VersionNumber(secs[k]) == version &&
      SectionNumber(secs[k]) == k && LastSectionNumber(secs[k]) == |secs| - 1
  }

  /** How far the collection of the table has got after the first m sections. */
  predicate FilledUpTo(ts: seq<Table>, tableId: Byte, version: int, count: nat, m: nat)
  {
    Find(ts, tableId).Some? &&
    var t := ts[Find(ts, tableId).value];
    t.version == version && |t.sections| == count &&
    forall j :: 0 <= j < count ==> (t.sections[j].Some? <==> j < m)
  }

  /** Receiving the sections 0 .. n of a version newer than the stored one
      (or of a table not yet seen), in order, reports nothing until section n
      and then reports the complete table. */
  lemma {:induction false} CompletesOnLastSection(tables: seq<Table>, secs: seq<Section>, all: seq<Section>, tableId: Byte, version: int)
    requires 1 <= |secs| <= |all| && secs == all[..|secs|] && OneVersion(all, tableId, version)
    requires Find(tables, tableId).None? || tables[Find(tables, tableId).value].version < version
    ensures var r := Collected(tables, secs);
      FilledUpTo(r.0, tableId, version, |all|, |secs|) &&
      (forall k :: 0 <= k < |secs| ==> (r.1[k].Some? <==> k == |all| - 1))
    decreases |secs|
  {
    var m := |secs| - 1;
    var prefix := secs[..m];
    var c := Collected(tables, prefix);
    var ts := c.0;
    var section := secs[m];
    assert Collected(tables, secs) == (ReadSection(ts, section).0, c.1 + [ReadSection(ts, section).1]);
    assert section == all[m];
    var n := |all|;
    if m == 0 {
      assert ts == tables;
      NewerVersionAdded(ts, section, tableId, version, n);
    } else {
      assert prefix == all[..m];
      CompletesOnLastSection(tables, prefix, all, tableId, version);
      NextSectionAdded(ts, section, tableId, version, n, m);
    }
  }

  lemma NewerVersionAdded(ts: seq<Table>, section: Section, tableId: Byte, version: int, n: nat)
    requires Versioned(tableId) && TableId(section) == tableId && VersionNumber(section) == version
    requires SectionNumber(section) == 0 && LastSectionNumber(section) == n - 1 && 1 <= n
    requires Find(ts, tableId).None? || ts[Find(ts, tableId).value].version < version
    ensures var r := ReadSection(ts, section);
      FilledUpTo(r.0, tableId, version, n, 1) && (r.1.Some? <==> n == 1)
  {
    var r := SectionAdd(ts, tableId, version, 0, n - 1, section);
    FoundAfterAdd(ts, tableId, version, 0, n - 1, section);
    assert ReadSection(ts, section) == (r.0, if Complete(r.0[r.1]) then Some(r.0[r.1]) else None);
    FreshTableStored(ts, tableId, version, n, section);
  }

  /** A newer version, or a table not seen before, starts from n empty slots. */
  lemma FreshTableStored(ts: seq<Table>, tableId: Byte, version: int, n: nat, section: Section)
    requires 1 <= n
    requires Find(ts, tableId).None? || ts[Find(ts, tableId).value].version < version
    ensures var r := SectionAdd(ts, tableId, version, 0, n - 1, section); var t := r.0[r.1];
      t.version == version && |t.sections| == n &&
      (forall j :: 0 <= j < n ==> (t.sections[j].Some? <==> j == 0)) &&
      (Complete(t) <==> n == 1)
  {
    var r := SectionAdd(ts, tableId, version, 0, n - 1, section);
    if Find(ts, tableId).Some? {
      SectionAddVersions(ts, Find(ts, tableId).value, version, 0, n - 1, section);
    }
    var empty: seq<Option<Section>> := seq(n, _ => None);
    var t := r.0[r.1];
    assert t == Store(Table(tableId, version, empty), 0, section);
    if n > 1 {
      assert t.sections[1].None?;
    }
  }

  lemma NextSectionAdded(ts: seq<Table>, section: Section, tableId: Byte, version: int, n: nat, m: nat)
    requires Versioned(tableId) && TableId(section) == tableId && VersionNumber(section) == version
    requires SectionNumber(section) == m && LastSectionNumber(section) == n - 1 && 1 <= m < n
    requires FilledUpTo(ts, tableId, version, n, m)
    ensures var r := ReadSection(ts, section);
      FilledUpTo(r.0, tableId, version, n, m + 1) && (r.1.Some? <==> m == n - 1)
  {
    var i := Find(ts, tableId).value;
    var t := ts[i];
    assert !Complete(t) by { assert t.sections[m].None?; }
    SectionAddVersions(ts, i, version, m, n - 1, section);
    FoundAfterAdd(ts, tableId, version, m, n - 1, section);
    var r := SectionAdd(ts, tableId, version, m, n - 1, section);
    assert r.0[i] == Store(t, m, section);
    if m < n - 1 {
      assert r.0[i].sections[m + 1].None?;
    }
  }

  /** Sections of one version of one versioned table with n sections, each
      numbered below n, no number arriving twice, in any order. */
  predicate DistinctSections(secs: seq<Section>, tableId: Byte, version: int, n: nat)
  {
    Versioned(tableId) &&
    (forall k :: 0 <= k < |secs| ==>
       TableId(secs[k]) == tableId && VersionNumber(secs[k]) == version &&
       SectionNumber(secs[k]) < n && LastSectionNumber(secs[k]) == n - 1) &&
    (forall k, l :: 0 <= k < l < |secs| ==> SectionNumber(secs[k]) != SectionNumber(secs[l]))
  }

  /** The section numbers of the sections, in arrival order. */
  function Numbers(secs: seq<Section>): (r: seq<int>)
    ensures |r| == |secs| && forall k :: 0 <= k < |secs| ==> r[k] == SectionNumber(secs[k])
  {
    seq(|secs|, k requires 0 <= k < |secs| => SectionNumber(secs[k]) as int)
  }

  /** The table has this version and n slots, and exactly the slots numbered in nums are filled. */
  predicate FilledWith(ts: seq<Table>, tableId: Byte, version: int, n: nat, nums: seq<int>)
  {
    Find(ts, tableId).Some? &&
    var t := ts[Find(ts, tableId).value];
    t.version == version && |t.sections| == n &&
    forall j :: 0 <= j < n ==> (t.sections[j].Some? <==> j in nums)
  }

  /** Distinct numbers below n: at most n of them, and all n numbers exactly
      when there are n. */
  lemma {:induction false} DistinctBelow(nums: seq<int>, n: nat)
    requires forall k :: 0 <= k < |nums| ==> 0 <= nums[k] < n
    requires forall k, l :: 0 <= k < l < |nums| ==> nums[k] != nums[l]
    ensures |nums| <= n
    ensures (forall j :: 0 <= j < n ==> j in nums) <==> |nums| == n
    decreases n
  {
    if |nums| == 0 {
      assert n > 0 ==> 0 !in nums;
    } else if i :| 0 <= i < |nums| && nums[i] == n - 1 {
      var rest := nums[..i] + nums[i + 1..];
      assert forall k :: 0 <= k < |rest| ==> rest[k] == (if k < i then nums[k] else nums[k + 1]);
      forall k, l | 0 <= k < l < |rest| ensures rest[k] != rest[l] {
        var k', l' := if k < i then k else k + 1, if l < i then l else l + 1;
        assert rest[k] == nums[k'] && rest[l] == nums[l'] && k' < l';
      }
      forall k | 0 <= k < |rest| ensures 0 <= rest[k] < n - 1 {
        var k' := if k < i then k else k + 1;
        assert rest[k] == nums[k'] && k' != i;
      }
      DistinctBelow(rest, n - 1);
      assert forall j :: j in nums <==> j in rest || j == n - 1 by {
        assert nums == nums[..i] + [nums[i]] + nums[i + 1..];
      }
    } else {
      assert 0 <= nums[0] < n;
      DistinctBelow(nums, n - 1);
      assert n - 1 !in nums;
    }
  }

  /** A newer version, or a table not seen before, whose first section to
      arrive is numbered secnum: n slots, only that one filled. */
  lemma FreshTableStoredAt(ts: seq<Table>, tableId: Byte, version: int, n: nat, secnum: nat, section: Section)
    requires secnum < n
    requires Find(ts, tableId).None? || ts[Find(ts, tableId).value].version < version
    ensures var r := SectionAdd(ts, tableId, version, secnum, n - 1, section); var t := r.0[r.1];
      t.version == version && |t.sections| == n &&
      (forall j :: 0 <= j < n ==> (t.sections[j].Some? <==> j == secnum)) &&
      (Complete(t) <==> n == 1)
  {
    var r := SectionAdd(ts, tableId, version, secnum, n - 1, section);
    if Find(ts, tableId).Some? {
      SectionAddVersions(ts, Find(ts, tableId).value, version, secnum, n - 1, section);
    }
    var empty: seq<Option<Section>> := seq(n, _ => None);
    assert r.0[r.1] == Store(Table(tableId, version, empty), secnum, section);
    if n > 1 {
      assert r.0[r.1].sections[if secnum == 0 then 1 else 0].None?;
    }
  }

  /** A section of the same version whose slot is still empty, arriving at
      an incomplete table, fills its slot and nothing else; the table is
      reported exactly when that completes it. */
  lemma EmptySlotFilled(ts: seq<Table>, section: Section, tableId: Byte, version: int, n: nat, nums: seq<int>)
    requires Versioned(tableId) && TableId(section) == tableId && VersionNumber(section) == version
    requires SectionNumber(section) < n && LastSectionNumber(section) == n - 1
    requires FilledWith(ts, tableId, version, n, nums) && SectionNumber(section) as int !in nums
    ensures var r := ReadSection(ts, section);
      FilledWith(r.0, tableId, version, n, nums + [SectionNumber(section) as int]) &&
      (r.1.Some? <==> forall j :: 0 <= j < n ==> j in nums || j == SectionNumber(section) as int)
  {
    var i := Find(ts, tableId).value;
    var t := ts[i];
    var sn := SectionNumber(section);
    assert !Complete(t) by { assert t.sections[sn].None?; }
    SectionAddVersions(ts, i, version, sn, n - 1, section);
    FoundAfterAdd(ts, tableId, version, sn, n - 1, section);
    var r := SectionAdd(ts, tableId, version, sn, n - 1, section);
    assert r.0[i] == Store(t, sn, section);
    assert forall j :: j in nums + [sn as int] <==> j in nums || j == sn as int;
  }

  /** The facts about the last of the sections that the step of the
      induction needs: the prefix is such a sequence too, the numbers grow
      by the last one, and that number is new. */
  lemma LastArrival(secs: seq<Section>, tableId: Byte, version: int, n: nat)
    requires 1 <= |secs| && DistinctSections(secs, tableId, version, n)
    ensures var m := |secs| - 1; var sn := SectionNumber(secs[m]);
      DistinctSections(secs[..m], tableId, version, n) &&
      Numbers(secs) == Numbers(secs[..m]) + [sn as int] && sn as int !in Numbers(secs[..m]) &&
      |secs| <= n && ((forall j :: 0 <= j < n ==> j in Numbers(secs)) <==> |secs| == n) &&
      TableId(secs[m]) == tableId && VersionNumber(secs[m]) == version &&
      sn < n && LastSectionNumber(secs[m]) == n - 1
  {
    var m := |secs| - 1;
    assert Numbers(secs) == Numbers(secs[..m]) + [SectionNumber(secs[m]) as int];
    DistinctBelow(Numbers(secs), n);
  }

  /** Appending the report of the next arrival keeps "reported exactly at
      the n-th arrival". */
  lemma ReportsStep(prev: seq<Option<Table>>, last: Option<Table>, n: nat)
    requires forall k :: 0 <= k < |prev| ==> (prev[k].Some? <==> k == n - 1)
    requires last.Some? <==> |prev| == n - 1
    ensures forall k :: 0 <= k < |prev| + 1 ==> ((prev + [last])[k].Some? <==> k == n - 1)
  {
    assert forall k :: 0 <= k < |prev| ==> (prev + [last])[k] == prev[k];
  }

  /** The sections of one version of a newer (or unseen) table, arriving in
      any order with no number twice: each arrival fills its own slot, and
      the complete table is reported exactly at the arrival that fills the
      last empty slot, the n-th, and never before. */
  lemma {:induction false} CompletesInAnyOrder(tables: seq<Table>, secs: seq<Section>, tableId: Byte, version: int, n: nat)
    requires 1 <= |secs| && DistinctSections(secs, tableId, version, n)
    requires Find(tables, tableId).None? || tables[Find(tables, tableId).value].version < version
    ensures var r := Collected(tables, secs);
      |secs| <= n && FilledWith(r.0, tableId, version, n, Numbers(secs)) &&
      (forall k :: 0 <= k < |secs| ==> (r.1[k].Some? <==> k == n - 1))
    decreases |secs|
  {
    var m := |secs| - 1;
    var c := Collected(tables, secs[..m]);
    var section := secs[m];
    var a := ReadSection(c.0, section);
    assert Collected(tables, secs) == (a.0, c.1 + [a.1]);
    LastArrival(secs, tableId, version, n);
    if m == 0 {
      FirstArrival(tables, section, tableId, version, n);
      assert Numbers(secs) == [SectionNumber(section) as int];
    } else {
      CompletesInAnyOrder(tables, secs[..m], tableId, version, n);
      EmptySlotFilled(c.0, section, tableId, version, n, Numbers(secs[..m]));
      ReportsStep(c.1, a.1, n);
    }
  }

  /** The first arrival of a newer (or unseen) table fills its own slot and
      is reported exactly when the table has a single section. */
  lemma FirstArrival(tables: seq<Table>, section: Section, tableId: Byte, version: int, n: nat)
    requires Versioned(tableId) && TableId(section) == tableId && VersionNumber(section) == version
    requires SectionNumber(section) < n && LastSectionNumber(section) == n - 1
    requires Find(tables, tableId).None? || tables[Find(tables, tableId).value].version < version
    ensures var r := ReadSection(tables, section);
      FilledWith(r.0, tableId, version, n, [SectionNumber(section) as int]) && (r.1.Some? <==> n == 1)
  {
    var sn := SectionNumber(section);
    var r := SectionAdd(tables, tableId, version, sn, n - 1, section);
    FreshTableStoredAt(tables, tableId, version, n, sn, section);
    FoundAfterAdd(tables, tableId, version, sn, n - 1, section);
  }

  /** The per-context state of the section reader: the 8192-byte buffer, the
      collected tables, and the bytes the descriptor will still deliver. */
  class Reader {
    const buf: array<Byte>
    var tables: seq<Table>
    var input: seq<Byte>

    ghost predicate Valid() reads this
    {
      buf.Length == 8192
    }

    constructor (input: seq<Byte>)
      ensures Valid() && fresh(buf) && tables == [] && this.input == input
    {
      buf := new Byte[8192];
      tables := [];
      this.input := input;
    }

    /** dvb_demux_table_reset of the table at index i. */
    method TableReset(i: nat, count: nat)
      requires i < |tables|
      modifies this`tables
      ensures tables == old(tables)[i := Reset(old(tables)[i], count)]
    {
      tables := tables[i := Reset(tables[i], count)];
    }

    method SetVersion(i: nat, version: int)
      requires i < |tables|
      modifies this`tables
      ensures tables == old(tables)[i := old(tables)[i].(version := version)]
    {
      tables := tables[i := tables[i].(version := version)];
    }

    /** The copy of the section stored in slot secnum. */
    method StoreSection(i: nat, secnum: nat, section: Section)
      requires i < |tables|
      modifies this`tables
      ensures tables == old(tables)[i := Store(old(tables)[i], secnum, section)]
    {
      tables := tables[i := Store(tables[i], secnum, section)];
    }

    /** dvb_demux_table_alloc. */
    method TableAlloc(tableId: Byte, count: nat) returns (i: nat)
      modifies this`tables
      ensures (tables, i) == Alloc(old(tables), tableId, count)
    {
      i := 0;
      while i < |tables|
        invariant 0 <= i <= |tables| && tables == old(tables)
        invariant forall j :: 0 <= j < i ==> tables[j].tableId != tableId
      {
        if tables[i].tableId == tableId {
          assert Find(tables, tableId) == Some(i);
          TableReset(i, count);
          return;
        }
        i := i + 1;
      }
      assert Find(tables, tableId) == None;
      tables := tables + [Table(tableId, -1, [])];
      TableReset(i, count);
      assert tables == old(tables) + [Reset(Table(tableId, -1, []), count)];
    }

    /** dvb_demux_section_add. */
    method AddSection(tableId: Byte, version: int, secnum: nat, last: nat, section: Section) returns (i: nat)
      modifies this`tables
      ensures (tables, i) == SectionAdd(old(tables), tableId, version, secnum, last, section)
    {
      i := 0;
      while i < |tables|
        invariant 0 <= i <= |tables| && tables == old(tables)
        invariant forall j :: 0 <= j < i ==> tables[j].tableId != tableId
      {
        if tables[i].tableId == tableId {
          assert Find(tables, tableId) == Some(i);
          if tables[i].version > version {
            return;
          } else if tables[i].version < version {
            TableReset(i, last + 1);
            SetVersion(i, version);
            assert tables == old(tables)[i := Reset(old(tables)[i], last + 1).(version := version)];
          }
          ghost var t1 := tables[i];
          assert tables == old(tables)[i := t1];
          var n := 0;
          while n < |tables[i].sections| && tables[i].sections[n].Some?
            invariant 0 <= n <= |tables[i].sections| && tables == old(tables)[i := t1]
            invariant forall k :: 0 <= k < n ==> tables[i].sections[k].Some?
          {
            n := n + 1;
          }
          if n == |tables[i].sections| {
            assert Complete(t1);
            TableReset(i, last + 1);
            SetVersion(i, version);
            assert tables == old(tables)[i := Reset(t1, last + 1).(version := version)];
          } else {
            assert !Complete(t1);
            if secnum < |tables[i].sections| && tables[i].sections[secnum].Some? {
              return;
            }
          }
          ghost var t2 := tables[i];
          StoreSection(i, secnum, section);
          assert tables == old(tables)[i := Store(t2, secnum, section)];
          return;
        }
        i := i + 1;
      }
      assert Find(tables, tableId) == None;
      i := TableAlloc(tableId, last + 1);
      ghost var ts := tables;
      SetVersion(i, version);
      StoreSection(i, secnum, section);
      assert tables == ts[i := Store(ts[i].(version := version), secnum, section)];
    }

    /** dvb_demux_read_section. */
    method Collect(section: Section) returns (t: Option<Table>)
      modifies this`tables
      ensures (tables, t) == ReadSection(old(tables), section)
    {
      var tableId := TableId(section);
      if Versioned(tableId) {
        var i := AddSection(tableId, VersionNumber(section), SectionNumber(section), LastSectionNumber(section), section);
        var k := 0;
        while k < |tables[i].sections|
          invariant 0 <= k <= |tables[i].sections|
          invariant forall j :: 0 <= j < k ==> tables[i].sections[j].Some?
        {
          if tables[i].sections[k].None? {
            break;
          }
          k := k + 1;
        }
        if k == |tables[i].sections| {
          return Some(tables[i]);
        }
        return None;
      }
      var i := TableAlloc(tableId, 1);
      assert Store(tables[i], 0, section) == tables[i].(sections := [Some(section)]);
      StoreSection(i, 0, section);
      return Some(tables[i]);
    }

    /** The bytes still to be examined, and what dvb_demux_read makes of them. */
    ghost function Pending(bufstart: nat, bufend: nat, crcOk: Crc): Outcome
      requires bufstart <= bufend <= buf.Length
      reads this, buf
    {
      ReadFrom(buf[bufstart..bufend], input, tables, crcOk)
    }

    /** dvb_demux_read: reads until a table is complete or the descriptor has
        no more data. The unread bytes are buf[bufstart..bufend]; a read of
        `need` bytes never passes the end of the buffer. */
    method Read(crcOk: Crc) returns (r: Option<Table>)
      requires Valid()
      modifies this, buf
      ensures var o := ReadFrom([], old(input), old(tables), crcOk);
        r == o.table && tables == o.tables && input == o.rest
    {
      ghost var goal := ReadFrom([], old(input), old(tables), crcOk);
      var bufstart: nat, bufend: nat := 0, 0;
      while true
        invariant Valid()
        invariant bufstart <= bufend <= 5121 && bufend - bufstart <= 4098
        invariant Pending(bufstart, bufend, crcOk) == goal
        decreases |input|, bufend - bufstart
      {
        bufstart, bufend := Rebase(bufstart, bufend, crcOk);
        var step := Examine(bufstart, bufend, crcOk);
        if step.Fill? {
          ghost var window := buf[bufstart..bufend];
          if |input| == 0 {
            EndOfData(window, tables, crcOk, step.need);
            break;
          }
          bufend := ReadMoreInto(bufstart, bufend, step.need, crcOk);
        } else {
          bufstart, bufend, r := Consume(bufstart, bufend, step, crcOk);
          if r.Some? {
            return;
          }
        }
      }
      return None;
    }

    /** The memmove at the top of the loop of dvb_demux_read: once 1024 bytes
        have been used, the unread ones move to the start of the buffer. */
    method Rebase(bufstart: nat, bufend: nat, crcOk: Crc) returns (start: nat, end: nat)
      requires Valid() && bufstart <= bufend <= buf.Length
      modifies buf
      ensures start < 1024 && start <= end && end - start == bufend - bufstart
      ensures bufstart < 1024 ==> start == bufstart && end == bufend
      ensures Pending(start, end, crcOk) == old(Pending(bufstart, bufend, crcOk))
    {
      if bufstart < 1024 {
        return bufstart, bufend;
      }
      ghost var window := buf[bufstart..bufend];
      Compact(bufstart, bufend);
      assert buf[0..bufend - bufstart] == window;
      return 0, bufend - bufstart;
    }

    /** The branches of the loop that use the bytes already read: a PES start
        code empties the buffer, a CRC failure drops one byte, and a whole
        section goes to dvb_demux_read_section and is dropped from the buffer. */
    method Consume(bufstart: nat, bufend: nat, step: Step, crcOk: Crc) returns (start: nat, end: nat, r: Option<Table>)
      requires Valid() && bufstart <= bufend <= buf.Length && !step.Fill?
      requires step == Classify(buf[bufstart..bufend], crcOk)
      modifies this`tables
      ensures start <= end <= bufend && end - start < bufend - bufstart
      ensures var o := old(Pending(bufstart, bufend, crcOk));
        if r.Some? then r == o.table && tables == o.tables && input == o.rest
        else Pending(start, end, crcOk) == o
    {
      ghost var window := buf[bufstart..bufend];
      match step
      case SkipPes =>
        PesSkipped(window, input, tables, crcOk);
        return 0, 0, None;
      case Resync =>
        CrcFailureSkipsOneByte(window, input, tables, crcOk);
        assert buf[bufstart + 1..bufend] == window[1..];
        return bufstart + 1, bufend, None;
      case Deliver(section) =>
        SectionDelivered(window, input, tables, crcOk);
        r := Collect(section);
        return bufend, bufend, r;
    }

    /** The read that a Fill step asks for: the bytes read join the unread
        ones, and what is still to come is unchanged. */
    method ReadMoreInto(bufstart: nat, bufend: nat, need: nat, crcOk: Crc) returns (end: nat)
      requires Valid() && bufstart <= bufend && bufend + need <= buf.Length && input != []
      requires Classify(buf[bufstart..bufend], crcOk) == Fill(need)
      modifies this`input, buf
      ensures bufend < end <= bufend + need && |input| < old(|input|)
      ensures Pending(bufstart, end, crcOk) == old(Pending(bufstart, bufend, crcOk))
    {
      ghost var window := buf[bufstart..bufend];
      ghost var input0 := input;
      ghost var n := if need < |input| then need else |input|;
      ReadMore(window, input, tables, crcOk, need);
      end := Refill(bufstart, bufend, need);
      assert buf[bufstart..end] == window + input0[..n] && input == input0[n..];
    }

    /** The read of at most `need` more bytes behind buf[bufstart..bufend]:
        read() returns what the descriptor holds, up to `need` bytes. */
    method Refill(bufstart: nat, bufend: nat, need: nat) returns (end: nat)
      requires Valid() && bufstart <= bufend && bufend + need <= buf.Length
      modifies this`input, buf
      ensures var n := if need < old(|input|) then need else old(|input|);
        end == bufend + n && input == old(input)[n..] &&
        buf[bufstart..end] == old(buf[bufstart..bufend]) + old(input)[..n]
    {
      var n := if need < |input| then need else |input|;
      var chunk := input[..n];
      ReadInto(bufstart, bufend, chunk);
      input := input[n..];
      end := bufend + n;
    }

    /** The tests at the top of the loop of dvb_demux_read: too few bytes for
        a header or for the whole section, a PES start code, a CRC failure, or
        a whole section p[0 .. section_length + 3]. */
    method Examine(bufstart: nat, bufend: nat, crcOk: Crc) returns (step: Step)
      requires Valid() && bufstart <= bufend <= buf.Length
      ensures step == Classify(buf[bufstart..bufend], crcOk)
    {
      ghost var window := buf[bufstart..bufend];
      var bsize := bufend - bufstart;
      if bsize < 3 {
        return Fill(3 - bsize);
      }
      if buf[bufstart] == 0 && buf[bufstart + 1] == 0 && buf[bufstart + 2] == 1 {
        return SkipPes;
      }
      var l := Length12(buf[bufstart + 1], buf[bufstart + 2]);
      assert l == SectionLength(window);
      if bsize < l + 3 {
        return Fill(3 + l - bsize);
      }
      var section := buf[bufstart..bufstart + l + 3];
      assert window[..3 + l] == section;
      if !crcOk(section) {
        return Resync;
      }
      return Deliver(section);
    }

    /** The memmove that brings the unread bytes back to the start of the buffer. */
    method Compact(bufstart: nat, bufend: nat)
      requires Valid() && 0 < bufstart <= bufend <= buf.Length
      modifies buf
      ensures buf[..bufend - bufstart] == old(buf[bufstart..bufend])
      ensures buf[bufend - bufstart..] == old(buf[bufend - bufstart..])
    {
      forall k | 0 <= k < bufend - bufstart {
        buf[k] := buf[bufstart + k];
      }
    }

    /** read(fd, &buf[bufend], n) delivering the bytes `chunk` behind the
        unread bytes buf[bufstart..bufend]. */
    method ReadInto(bufstart: nat, bufend: nat, chunk: seq<Byte>)
      requires Valid() && bufstart <= bufend && bufend + |chunk| <= buf.Length
      modifies buf
      ensures buf[bufstart..bufend + |chunk|] == old(buf[bufstart..bufend]) + chunk
    {
      forall k | 0 <= k < |chunk| {
        buf[bufend + k] := chunk[k];
      }
      assert buf[bufstart..bufend + |chunk|] == old(buf[bufstart..bufend]) + chunk by {
        forall k | bufstart <= k < bufend + |chunk|
          ensures buf[k] == (old(buf[bufstart..bufend]) + chunk)[k - bufstart]
        {
          if k < bufend {
            assert buf[k] == old(buf[k]);
          }
        }
      }
    }
  }
}
