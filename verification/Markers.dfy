/**
 Scoped replacement of media markers: for a single file, and for a list of files with a snapshot of each file's earlier
 and new markers.
 */
module Markers {
  import opened Chunking
  import opened Counting
  import opened Text
  import Ordering

  type File = string

  datatype Marker = Marker(
    mediaFileId: File, kind: string, startSeconds: real, endSeconds: real, caption: Option<string>, source: string,
    pluginId: Option<string>)

  /** A row of the table; the id is generated on insert. */
  datatype Row = Row(id: nat, marker: Marker)

  /** A marker as a producer sends it. */
  datatype NewMarker = NewMarker(
    kind: string, startSeconds: real, endSeconds: real, caption: Option<string>, source: Option<string>, pluginId: Option<string>)

  /** A producer: its plugin id, its source, or neither. */
  datatype Producer = Producer(pluginId: Option<string>, source: Option<string>)

  datatype Group = Group(file: File, markers: seq<NewMarker>)

  /** `markerScopeWhere`. */
  predicate InScope(producer: Producer, marker: Marker) {
    if producer.pluginId.Some? then marker.pluginId == producer.pluginId
    else if producer.source.Some? && producer.source.value != "" then marker.source == producer.source.value
    else true
  }

  function OrElse(first: Option<string>, second: Option<string>): Option<string> {
    if first.Some? then first else second
  }

  /** The row inserted for a marker: what the producer names, then its scope, then the default. */
  function Record(producer: Producer, file: File, m: NewMarker): Marker {
    var source := OrElse(m.source, producer.source);
    Marker(file, m.kind, m.startSeconds, m.endSeconds, m.caption, if source.Some? then source.value else "manual",
           OrElse(m.pluginId, producer.pluginId))
  }

  function Records(producer: Producer, group: Group): (r: seq<Marker>)
    ensures |r| == |group.markers|
    ensures forall m :: m in r ==> m.mediaFileId == group.file
  {
    seq(|group.markers|, i requires 0 <= i < |group.markers| => Record(producer, group.file, group.markers[i]))
  }

  function AllRecords(producer: Producer, groups: seq<Group>): seq<Marker> {
    if groups == [] then []
    else AllRecords(producer, groups[..|groups| - 1]) + Records(producer, groups[|groups| - 1])
  }

  function Files(groups: seq<Group>): (files: seq<File>)
    ensures |files| == |groups|
  {
    seq(|groups|, i requires 0 <= i < |groups| => groups[i].file)
  }

  predicate DistinctFiles(groups: seq<Group>) {
    forall i, j :: 0 <= i < j < |groups| ==> groups[i].file != groups[j].file
  }

  // ----- what the statements do to the markers

  predicate Deleted(producer: Producer, files: seq<File>, marker: Marker) {
    marker.mediaFileId in files && InScope(producer, marker)
  }

  /** The markers a scoped delete leaves. */
  function Kept(producer: Producer, files: seq<File>, markers: seq<Marker>): seq<Marker> {
    if markers == [] then []
    else
      var last := markers[|markers| - 1];
      Kept(producer, files, markers[..|markers| - 1]) + if Deleted(producer, files, last) then [] else [last]
  }

  /** `replaceMarkersForMediaFile`. */
  function AfterSingle(producer: Producer, group: Group, markers: seq<Marker>): seq<Marker> {
    Kept(producer, [group.file], markers) + Records(producer, group)
  }

  function AfterSingles(producer: Producer, groups: seq<Group>, markers: seq<Marker>): seq<Marker> {
    if groups == [] then markers
    else AfterSingle(producer, groups[|groups| - 1], AfterSingles(producer, groups[..|groups| - 1], markers))
  }

  /** `replaceMarkersForMediaFiles`. */
  function AfterBatch(producer: Producer, groups: seq<Group>, markers: seq<Marker>): seq<Marker> {
    Kept(producer, Files(groups), markers) + AllRecords(producer, groups)
  }

  lemma {:induction false} KeptAppends(producer: Producer, files: seq<File>, a: seq<Marker>, b: seq<Marker>)
    ensures Kept(producer, files, a + b) == Kept(producer, files, a) + Kept(producer, files, b)
  {
    if b == [] {
      assert a + b == a;
    } else {
      assert (a + b)[..|a + b| - 1] == a + b[..|b| - 1];
      KeptAppends(producer, files, a, b[..|b| - 1]);
    }
  }

  /** Deleting for some files and then for more is deleting for all of them. */
  lemma {:induction false} KeptTwice(producer: Producer, some: seq<File>, more: seq<File>, markers: seq<Marker>)
    ensures Kept(producer, more, Kept(producer, some, markers)) == Kept(producer, some + more, markers)
  {
    if markers != [] {
      var rest, last := markers[..|markers| - 1], markers[|markers| - 1];
      KeptTwice(producer, some, more, rest);
      if Deleted(producer, some, last) {
        assert Kept(producer, some, rest) + [] == Kept(producer, some, rest);
      } else {
        KeptAppends(producer, more, Kept(producer, some, rest), [last]);
        assert [last][..0] == [];
      }
    }
  }

  lemma {:induction false} KeptUntouched(producer: Producer, files: seq<File>, markers: seq<Marker>)
    requires forall i :: 0 <= i < |markers| ==> !Deleted(producer, files, markers[i])
    ensures Kept(producer, files, markers) == markers
  {
    if markers != [] { KeptUntouched(producer, files, markers[..|markers| - 1]); }
  }

  lemma {:induction false} RecordsBelong(producer: Producer, groups: seq<Group>, marker: Marker)
    requires marker in AllRecords(producer, groups)
    ensures marker.mediaFileId in Files(groups)
  {
    var rest, last := groups[..|groups| - 1], groups[|groups| - 1];
    if marker in Records(producer, last) {
      assert Files(groups)[|groups| - 1] == last.file;
    } else {
      RecordsBelong(producer, rest, marker);
      assert Files(groups)[..|rest|] == Files(rest);
      assert forall file :: file in Files(rest) ==> file in Files(groups);
    }
  }

  lemma RecordsSurvive(producer: Producer, groups: seq<Group>, file: File)
    requires file !in Files(groups)
    ensures Kept(producer, [file], AllRecords(producer, groups)) == AllRecords(producer, groups)
  {
    var added := AllRecords(producer, groups);
    forall i | 0 <= i < |added| ensures !Deleted(producer, [file], added[i]) {
      RecordsBelong(producer, groups, added[i]);
    }
    KeptUntouched(producer, [file], added);
  }

  lemma LastFileIsNew(groups: seq<Group>)
    requires groups != [] && DistinctFiles(groups)
    ensures Files(groups) == Files(groups[..|groups| - 1]) + [groups[|groups| - 1].file]
    ensures groups[|groups| - 1].file !in Files(groups[..|groups| - 1])
    ensures DistinctFiles(groups[..|groups| - 1])
  {
  }

  /** Replacing file by file, in the order of the batch, leaves what the batch leaves. */
  lemma {:induction false} SinglesAreTheBatch(producer: Producer, groups: seq<Group>, markers: seq<Marker>)
    requires DistinctFiles(groups)
    ensures AfterSingles(producer, groups, markers) == AfterBatch(producer, groups, markers)
  {
    if groups == [] {
      KeptUntouched(producer, [], markers);
    } else {
      LastFileIsNew(groups);
      SinglesAreTheBatch(producer, groups[..|groups| - 1], markers);
      OneMoreSingle(producer, groups[..|groups| - 1], groups[|groups| - 1], markers);
      assert AllRecords(producer, groups)
        == AllRecords(producer, groups[..|groups| - 1]) + Records(producer, groups[|groups| - 1]);
    }
  }

  lemma OneMoreSingle(producer: Producer, rest: seq<Group>, last: Group, markers: seq<Marker>)
    requires last.file !in Files(rest)
    ensures AfterSingle(producer, last, AfterBatch(producer, rest, markers))
      == Kept(producer, Files(rest) + [last.file], markers) + (AllRecords(producer, rest) + Records(producer, last))
  {
    var kept, added := Kept(producer, Files(rest), markers), AllRecords(producer, rest);
    KeptAppends(producer, [last.file], kept, added);
    KeptTwice(producer, Files(rest), [last.file], markers);
    RecordsSurvive(producer, rest, last.file);
    Associative(Kept(producer, [last.file], kept), added, Records(producer, last));
  }

  lemma Associative(a: seq<Marker>, b: seq<Marker>, c: seq<Marker>)
    ensures a + b + c == a + (b + c)
  {
  }

  lemma {:induction false} RecordsAppend(producer: Producer, a: seq<Group>, b: seq<Group>)
    ensures AllRecords(producer, a + b) == AllRecords(producer, a) + AllRecords(producer, b)
  {
    if b == [] {
      assert a + b == a;
    } else {
      assert (a + b)[..|a + b| - 1] == a + b[..|b| - 1];
      RecordsAppend(producer, a, b[..|b| - 1]);
    }
  }

  lemma RecordsAround(producer: Producer, left: seq<Group>, last: Group, right: seq<Group>)
    ensures multiset(AllRecords(producer, left + [last] + right))
      == multiset(AllRecords(producer, left + right)) + multiset(Records(producer, last))
  {
    RecordsAppend(producer, left, right);
    RecordsAppend(producer, left + [last], right);
    assert (left + [last])[..|left|] == left;
  }

  lemma {:induction false} RecordsPermuted(producer: Producer, a: seq<Group>, b: seq<Group>)
    requires multiset(a) == multiset(b)
    ensures multiset(AllRecords(producer, a)) == multiset(AllRecords(producer, b))
    decreases |a|
  {
    if a == [] {
      assert |b| == |multiset(b)|;
    } else {
      var j := LastEntryIn(a, b);
      var rest, last := a[..|a| - 1], a[|a| - 1];
      RecordsPermuted(producer, rest, b[..j] + b[j + 1..]);
      RecordsAround(producer, b[..j], last, b[j + 1..]);
      RecordsAround(producer, rest, last, []);
      SplitAt(a, |a| - 1);
      SplitAt(b, j);
      assert rest + [] == rest;
    }
  }

  lemma SplitAt(groups: seq<Group>, j: nat)
    requires j < |groups|
    ensures groups == groups[..j] + [groups[j]] + groups[j + 1..]
  {
  }

  lemma {:induction false} KeptSameFiles(producer: Producer, a: seq<File>, b: seq<File>, markers: seq<Marker>)
    requires forall file :: file in a <==> file in b
    ensures Kept(producer, a, markers) == Kept(producer, b, markers)
  {
    if markers != [] { KeptSameFiles(producer, a, b, markers[..|markers| - 1]); }
  }

  /** The batch leaves the same markers as one replacement a file, in any order of the files. */
  lemma BatchRefinesSingles(producer: Producer, groups: seq<Group>, order: seq<Group>, markers: seq<Marker>)
    requires DistinctFiles(groups) && DistinctFiles(order) && multiset(groups) == multiset(order)
    ensures multiset(AfterBatch(producer, groups, markers)) == multiset(AfterSingles(producer, order, markers))
  {
    SinglesAreTheBatch(producer, order, markers);
    RecordsPermuted(producer, groups, order);
    SameFiles(groups, order);
    SameFiles(order, groups);
    KeptSameFiles(producer, Files(groups), Files(order), markers);
  }

  lemma SameFiles(a: seq<Group>, b: seq<Group>)
    requires multiset(a) == multiset(b)
    ensures forall file :: file in Files(a) ==> file in Files(b)
  {
    forall file | file in Files(a) ensures file in Files(b) {
      var i :| 0 <= i < |a| && Files(a)[i] == file;
      assert a[i] in multiset(b);
      var j :| 0 <= j < |b| && b[j] == a[i];
      assert Files(b)[j] == file;
    }
  }

  lemma {:induction false} KeptCounts(producer: Producer, files: seq<File>, markers: seq<Marker>, m: Marker)
    ensures multiset(Kept(producer, files, markers))[m] == if Deleted(producer, files, m) then 0 else multiset(markers)[m]
  {
    if markers != [] {
      assert markers == markers[..|markers| - 1] + [markers[|markers| - 1]];
      KeptCounts(producer, files, markers[..|markers| - 1], m);
    }
  }

  /**
   After the batch a marker occurs as often as it was inserted, and as it was there before unless it was in the files and
   the scope. So nothing changes for a file that is not listed.
   */
  lemma OthersStay(producer: Producer, groups: seq<Group>, markers: seq<Marker>, m: Marker)
    ensures multiset(AfterBatch(producer, groups, markers))[m] == multiset(AllRecords(producer, groups))[m]
      + if Deleted(producer, Files(groups), m) then 0 else multiset(markers)[m]
    ensures m.mediaFileId !in Files(groups) ==> multiset(AfterBatch(producer, groups, markers))[m] == multiset(markers)[m]
  {
    KeptCounts(producer, Files(groups), markers, m);
    if m in AllRecords(producer, groups) { RecordsBelong(producer, groups, m); }
  }

  /** What a record says: what the marker names itself, else what the producer names, else a manual marker of no plugin. */
  lemma RecordIs(producer: Producer, file: File, m: NewMarker)
    ensures var record := Record(producer, file, m);
      && record.mediaFileId == file && record.kind == m.kind && record.caption == m.caption
      && record.startSeconds == m.startSeconds && record.endSeconds == m.endSeconds
      && (m.source.Some? ==> record.source == m.source.value)
      && (m.source.None? && producer.source.Some? ==> record.source == producer.source.value)
      && (m.source.None? && producer.source.None? ==> record.source == "manual")
      && (m.pluginId.Some? ==> record.pluginId == m.pluginId)
      && (m.pluginId.None? ==> record.pluginId == producer.pluginId)
  {
  }

  /** The marker names no plugin and no source other than the one its producer is known by. */
  predicate NamesProducer(producer: Producer, m: NewMarker) {
    && (producer.pluginId.Some? && m.pluginId.Some? ==> m.pluginId.value == producer.pluginId.value)
    && (producer.pluginId.None? && producer.source.Some? && producer.source.value != "" && m.source.Some? ==>
          m.source.value == producer.source.value)
  }

  lemma RecordInScopeIff(producer: Producer, file: File, m: NewMarker)
    ensures InScope(producer, Record(producer, file, m)) <==> NamesProducer(producer, m)
  {
  }

  /** Every marker of the groups is one its producer can take away again. */
  predicate OwnMarkers(producer: Producer, groups: seq<Group>) {
    forall i, j :: 0 <= i < |groups| && 0 <= j < |groups[i].markers| ==> NamesProducer(producer, groups[i].markers[j])
  }

  lemma {:induction false} OwnRecords(producer: Producer, files: seq<File>, groups: seq<Group>)
    requires forall i :: 0 <= i < |groups| ==> groups[i].file in files
    ensures Kept(producer, files, AllRecords(producer, groups)) == [] <==> OwnMarkers(producer, groups)
  {
    if groups != [] {
      var rest, last := groups[..|groups| - 1], groups[|groups| - 1];
      OwnRecords(producer, files, rest);
      OwnRecordsOf(producer, files, last);
      KeptAppends(producer, files, AllRecords(producer, rest), Records(producer, last));
      assert OwnMarkers(producer, groups) <==> OwnMarkers(producer, rest) && OwnMarkers(producer, [last]) by {
        assert forall i :: 0 <= i < |rest| ==> rest[i] == groups[i];
        assert [last][0] == groups[|rest|];
      }
    }
  }

  lemma OwnRecordsOf(producer: Producer, files: seq<File>, group: Group)
    requires group.file in files
    ensures Kept(producer, files, Records(producer, group)) == [] <==> OwnMarkers(producer, [group])
  {
    var records := Records(producer, group);
    forall j | 0 <= j < |group.markers|
      ensures Deleted(producer, files, records[j]) <==> NamesProducer(producer, group.markers[j])
    {
      RecordInScopeIff(producer, group.file, group.markers[j]);
    }
    NoneKeptIff(producer, files, records);
    assert OwnMarkers(producer, [group]) <==>
      forall j :: 0 <= j < |group.markers| ==> NamesProducer(producer, [group][0].markers[j]);
  }

  lemma {:induction false} NoneKeptIff(producer: Producer, files: seq<File>, markers: seq<Marker>)
    ensures Kept(producer, files, markers) == [] <==> forall j :: 0 <= j < |markers| ==> Deleted(producer, files, markers[j])
  {
    if markers != [] {
      NoneKeptIff(producer, files, markers[..|markers| - 1]);
    }
  }

  /** A producer that runs again leaves only its second result, exactly when its first result named no one else. */
  lemma RunAgainIff(producer: Producer, first: seq<Group>, second: seq<Group>, markers: seq<Marker>)
    requires Files(first) == Files(second)
    ensures AfterBatch(producer, second, AfterBatch(producer, first, markers)) == AfterBatch(producer, second, markers)
      <==> OwnMarkers(producer, first)
  {
    var files := Files(second);
    var kept, added := Kept(producer, files, markers), AllRecords(producer, first);
    KeptAppends(producer, files, kept, added);
    KeptTwice(producer, files, files, markers);
    KeptSameFiles(producer, files + files, files, markers);
    forall i | 0 <= i < |first| ensures first[i].file in files {
      assert Files(first)[i] == first[i].file;
    }
    OwnRecords(producer, files, first);
    var stale := Kept(producer, files, added);
    if stale != [] {
      assert |kept + stale + AllRecords(producer, second)| != |kept + AllRecords(producer, second)|;
    } else {
      assert kept + stale == kept;
    }
  }

  /** A marker that names another plugin is out of its producer's reach: sent again, it is there twice. */
  lemma ForeignMarkerStays()
    ensures var groups := [Group("f", [NewMarker("intro", 0.0, 9.0, None, None, Some("theirs"))])];
      var producer := Producer(Some("mine"), None);
      AfterBatch(producer, groups, AfterBatch(producer, groups, [])) != AfterBatch(producer, groups, [])
  {
    var groups := [Group("f", [NewMarker("intro", 0.0, 9.0, None, None, Some("theirs"))])];
    var producer := Producer(Some("mine"), None);
    assert "mine"[0] != "theirs"[0];
    assert !NamesProducer(producer, groups[0].markers[0]);
    RunAgainIff(producer, groups, groups, []);
  }

  // ----- the repository

  predicate ByStart(a: Row, b: Row) {
    a.marker.startSeconds <= b.marker.startSeconds
  }

  function Contents(rows: seq<Row>): (markers: seq<Marker>)
    ensures |markers| == |rows|
  {
    seq(|rows|, i requires 0 <= i < |rows| => rows[i].marker)
  }

  function KeptRows(producer: Producer, files: seq<File>, rows: seq<Row>): seq<Row> {
    if rows == [] then []
    else
      var last := rows[|rows| - 1];
      KeptRows(producer, files, rows[..|rows| - 1]) + if Deleted(producer, files, last.marker) then [] else [last]
  }

  /**
   Which rows a replacement spares: those of other files, and in the listed ones those of another plugin or, for a producer
   known by its source only, of another source. A producer known by neither spares none there.
   */
  lemma {:induction false} SparedRows(producer: Producer, files: seq<File>, rows: seq<Row>, row: Row)
    ensures row in KeptRows(producer, files, rows) <==> row in rows && (row.marker.mediaFileId in files ==>
      || (producer.pluginId.Some? && row.marker.pluginId != producer.pluginId)
      || (producer.pluginId.None? && producer.source.Some? && producer.source.value != "" && row.marker.source != producer.source.value))
  {
    if rows != [] {
      SparedRows(producer, files, rows[..|rows| - 1], row);
      assert rows == rows[..|rows| - 1] + [rows[|rows| - 1]];
    }
  }

  lemma ContentsAppend(a: seq<Row>, b: seq<Row>)
    ensures Contents(a + b) == Contents(a) + Contents(b)
  {
  }

  lemma {:induction false} KeptContents(producer: Producer, files: seq<File>, rows: seq<Row>)
    ensures Contents(KeptRows(producer, files, rows)) == Kept(producer, files, Contents(rows))
  {
    if rows != [] {
      KeptContents(producer, files, rows[..|rows| - 1]);
      assert Contents(rows)[..|rows| - 1] == Contents(rows[..|rows| - 1]);
    }
  }

  lemma {:induction false} KeptRowsTwice(producer: Producer, some: seq<File>, more: seq<File>, rows: seq<Row>)
    ensures KeptRows(producer, more, KeptRows(producer, some, rows)) == KeptRows(producer, some + more, rows)
  {
    if rows != [] {
      var rest, last := rows[..|rows| - 1], rows[|rows| - 1];
      KeptRowsTwice(producer, some, more, rest);
      var kept := KeptRows(producer, some, rest);
      if Deleted(producer, some, last.marker) {
        assert kept + [] == kept;
      } else {
        assert (kept + [last])[..|kept|] == kept;
      }
    }
  }

  /** Rows of a file, in table order. */
  function RowsOf(rows: seq<Row>, file: File): seq<Row> {
    if rows == [] then []
    else
      var last := rows[|rows| - 1];
      RowsOf(rows[..|rows| - 1], file) + if last.marker.mediaFileId == file then [last] else []
  }

  function InFiles(rows: seq<Row>, files: seq<File>): seq<Row> {
    if rows == [] then []
    else
      var last := rows[|rows| - 1];
      InFiles(rows[..|rows| - 1], files) + if last.marker.mediaFileId in files then [last] else []
  }

  /** Rows with generated ids, the ids counting up from `nextId`. */
  function Numbered(markers: seq<Marker>, nextId: nat): (rows: seq<Row>)
    ensures |rows| == |markers| && Contents(rows) == markers
  {
    seq(|markers|, i requires 0 <= i < |markers| => Row(nextId + i, markers[i]))
  }

  datatype Snapshot = Snapshot(before: seq<Row>, after: seq<Row>)

  predicate InStartOrder(rows: seq<Row>) {
    forall j, k :: 0 <= j < k < |rows| ==> rows[j].marker.startSeconds <= rows[k].marker.startSeconds
  }

  /** All rows of a file among `rows`, sorted by start. */
  predicate SortedRowsOf(snapshot: seq<Row>, rows: seq<Row>, file: File) {
    InStartOrder(snapshot) && multiset(snapshot) == multiset(RowsOf(rows, file))
  }

  class MarkersRepository {
    var rows: seq<Row>
    var nextId: nat

    constructor (rows: seq<Row>, nextId: nat)
      ensures this.rows == rows && this.nextId == nextId
    {
      this.rows, this.nextId := rows, nextId;
    }

    method DeleteWhere(producer: Producer, files: seq<File>)
      modifies this`rows
      ensures rows == KeptRows(producer, files, old(rows))
    {
      var kept: seq<Row> := [];
      for i := 0 to |rows|
        invariant kept == KeptRows(producer, files, rows[..i])
      {
        assert rows[..i + 1][..i] == rows[..i];
        if !(rows[i].marker.mediaFileId in files && InScope(producer, rows[i].marker)) { kept := kept + [rows[i]]; }
      }
      assert rows[..|rows|] == rows;
      rows := kept;
    }

    /** One insert statement a slice. */
    method InsertChunked(records: seq<Marker>) returns (inserted: seq<Row>)
      modifies this
      ensures inserted == Numbered(records, old(nextId)) && rows == old(rows) + inserted
      ensures nextId == old(nextId) + |records|
    {
      inserted := [];
      var i := 0;
      while i < |records|
        invariant i <= |records| && nextId == old(nextId) + i
        invariant inserted == Numbered(records[..i], old(nextId)) && rows == old(rows) + inserted
      {
        var j := ChunkEnd(i, |records|);
        var more := Numbered(records[i..j], nextId);
        assert Numbered(records[..j], old(nextId)) == Numbered(records[..i], old(nextId)) + more;
        assert rows + more == old(rows) + (inserted + more);
        rows := rows + more;
        inserted := inserted + more;
        nextId := nextId + |more|;
        i := j;
      }
      assert records[..|records|] == records;
    }

    /** `replaceMarkersForMediaFile`. */
    method ReplaceMarkersForMediaFile(producer: Producer, group: Group) returns (inserted: seq<Row>)
      modifies this
      ensures Contents(rows) == AfterSingle(producer, group, Contents(old(rows)))
      ensures KeptRows(producer, [group.file], old(rows)) <= rows
      ensures InStartOrder(inserted)
      ensures multiset(inserted) == multiset(rows[|KeptRows(producer, [group.file], old(rows))|..])
    {
      KeptContents(producer, [group.file], rows);
      DeleteWhere(producer, [group.file]);
      ghost var kept := rows;
      var records := Records(producer, group);
      var added := InsertChunked(records);
      ContentsAppend(kept, added);
      assert (kept + added)[|kept|..] == added;
      inserted := Ordering.ToSorted(ByStart, added);
      Ordering.SortSorts(ByStart, added);
      Ordering.SortKeepsEntries(ByStart, added);
    }

    /** The before-snapshot read: one sorted select a slice of the files. */
    method SelectChunked(files: seq<File>) returns (found: seq<Row>)
      requires forall i, j :: 0 <= i < j < |files| ==> files[i] != files[j]
      ensures forall file :: file in files ==> SortedRowsOf(RowsOf(found, file), rows, file)
    {
      found := [];
      var i := 0;
      while i < |files|
        invariant i <= |files|
        invariant forall file :: file in files[..i] ==> SortedRowsOf(RowsOf(found, file), rows, file)
        invariant forall file :: file !in files[..i] ==> RowsOf(found, file) == []
      {
        var j := ChunkEnd(i, |files|);
        var chunk := files[i..j];
        var selected := Ordering.ToSorted(ByStart, InFiles(rows, chunk));
        forall file ensures file in files[..j] ==> SortedRowsOf(RowsOf(found + selected, file), rows, file)
          ensures file !in files[..j] ==> RowsOf(found + selected, file) == []
        {
          assert files[..j] == files[..i] + chunk;
          SelectSlice(rows, found, selected, chunk, file);
          if file in files[..i] { assert file !in chunk; }
        }
        found := found + selected;
        i := j;
      }
      assert files[..|files|] == files;
    }

    /** `replaceMarkersForMediaFiles`. */
    method ReplaceMarkersForMediaFiles(producer: Producer, groups: seq<Group>) returns (snapshots: map<File, Snapshot>)
      requires DistinctFiles(groups)
      modifies this
      ensures Contents(rows) == AfterBatch(producer, groups, Contents(old(rows)))
      ensures KeptRows(producer, Files(groups), old(rows)) <= rows
      ensures forall file :: file in snapshots <==> file in Files(groups)
      ensures forall file :: file in snapshots ==> SortedRowsOf(snapshots[file].before, old(rows), file)
      ensures forall file :: file in snapshots ==>
        SortedRowsOf(snapshots[file].after, rows[|KeptRows(producer, Files(groups), old(rows))|..], file)
    {
      var files := Files(groups);
      var before := SelectChunked(files);
      var inserted := ReplaceRows(producer, groups);
      snapshots := TakeSnapshots(files, before, inserted);
    }

    /** The delete and the insert of the batch. */
    method ReplaceRows(producer: Producer, groups: seq<Group>) returns (inserted: seq<Row>)
      modifies this
      ensures Contents(rows) == AfterBatch(producer, groups, Contents(old(rows)))
      ensures rows == KeptRows(producer, Files(groups), old(rows)) + inserted
    {
      KeptContents(producer, Files(groups), rows);
      DeleteChunked(producer, Files(groups));
      ghost var kept := rows;
      var records := FlattenRecords(producer, groups);
      inserted := InsertChunked(records);
      ContentsAppend(kept, inserted);
    }

    /** One scoped delete a slice of the files. */
    method DeleteChunked(producer: Producer, files: seq<File>)
      modifies this`rows
      ensures rows == KeptRows(producer, files, old(rows))
    {
      var i := 0;
      ghost var was := rows;
      KeptNone(producer, rows);
      while i < |files|
        invariant i <= |files| && rows == KeptRows(producer, files[..i], was)
      {
        var j := ChunkEnd(i, |files|);
        KeptRowsTwice(producer, files[..i], files[i..j], was);
        assert files[..j] == files[..i] + files[i..j];
        DeleteWhere(producer, files[i..j]);
        i := j;
      }
      assert files[..|files|] == files;
    }
  }

  lemma {:induction false} KeptNone(producer: Producer, rows: seq<Row>)
    ensures KeptRows(producer, [], rows) == rows
  {
    if rows != [] { KeptNone(producer, rows[..|rows| - 1]); }
  }

  lemma {:induction false} RowsOfAppend(a: seq<Row>, b: seq<Row>, file: File)
    ensures RowsOf(a + b, file) == RowsOf(a, file) + RowsOf(b, file)
  {
    if b == [] {
      assert a + b == a;
    } else {
      assert (a + b)[..|a + b| - 1] == a + b[..|b| - 1];
      RowsOfAppend(a, b[..|b| - 1], file);
    }
  }

  lemma {:induction false} RowsOfCount(rows: seq<Row>, file: File, row: Row)
    ensures multiset(RowsOf(rows, file))[row] == if row.marker.mediaFileId == file then multiset(rows)[row] else 0
  {
    if rows != [] {
      assert rows == rows[..|rows| - 1] + [rows[|rows| - 1]];
      RowsOfCount(rows[..|rows| - 1], file, row);
    }
  }

  lemma {:induction false} InFilesCount(rows: seq<Row>, files: seq<File>, row: Row)
    ensures multiset(InFiles(rows, files))[row] == if row.marker.mediaFileId in files then multiset(rows)[row] else 0
  {
    if rows != [] {
      assert rows == rows[..|rows| - 1] + [rows[|rows| - 1]];
      InFilesCount(rows[..|rows| - 1], files, row);
    }
  }

  lemma {:induction false} RowsOfSorted(rows: seq<Row>, file: File)
    requires Ordering.Sorted(ByStart, rows)
    ensures Ordering.Sorted(ByStart, RowsOf(rows, file))
    ensures forall row :: row in RowsOf(rows, file) ==> row in rows && row.marker.mediaFileId == file
  {
    if rows != [] {
      RowsOfSorted(rows[..|rows| - 1], file);
      assert rows == rows[..|rows| - 1] + [rows[|rows| - 1]];
    }
  }

  /** A sorted select of some files holds every row of each of them, in order, and no other. */
  lemma SelectSlice(rows: seq<Row>, found: seq<Row>, selected: seq<Row>, files: seq<File>, file: File)
    requires selected == Ordering.ToSorted(ByStart, InFiles(rows, files))
    ensures RowsOf(found + selected, file) == RowsOf(found, file) + RowsOf(selected, file)
    ensures file in files ==> SortedRowsOf(RowsOf(selected, file), rows, file)
    ensures file !in files ==> RowsOf(selected, file) == []
  {
    RowsOfAppend(found, selected, file);
    Ordering.SortSorts(ByStart, InFiles(rows, files));
    Ordering.SortKeepsEntries(ByStart, InFiles(rows, files));
    RowsOfSorted(selected, file);
    forall row ensures multiset(RowsOf(selected, file))[row]
      == if row.marker.mediaFileId == file && file in files then multiset(RowsOf(rows, file))[row] else 0
    {
      RowsOfCount(selected, file, row);
      InFilesCount(rows, files, row);
      RowsOfCount(rows, file, row);
    }
    forall row ensures file in files ==> multiset(RowsOf(selected, file))[row] == multiset(RowsOf(rows, file))[row] {
      RowsOfCount(rows, file, row);
    }
    if file !in files {
      assert multiset(RowsOf(selected, file)) == multiset{};
      assert |RowsOf(selected, file)| == |multiset(RowsOf(selected, file))|;
    }
  }

  /** `flatMap` over the groups. */
  method FlattenRecords(producer: Producer, groups: seq<Group>) returns (records: seq<Marker>)
    ensures records == AllRecords(producer, groups)
  {
    records := [];
    for i := 0 to |groups|
      invariant records == AllRecords(producer, groups[..i])
    {
      assert groups[..i + 1][..i] == groups[..i];
      records := records + Records(producer, groups[i]);
    }
    assert groups[..|groups|] == groups;
  }

  /** `groupBy` on both lists, and one entry for every file. */
  method TakeSnapshots(files: seq<File>, before: seq<Row>, inserted: seq<Row>) returns (snapshots: map<File, Snapshot>)
    ensures forall file :: file in snapshots <==> file in files
    ensures forall file :: file in snapshots ==> snapshots[file].before == RowsOf(before, file)
    ensures forall file :: file in snapshots ==> SortedRowsOf(snapshots[file].after, inserted, file)
  {
    var beforeByFile := GroupByFile(before);
    var afterByFile := GroupByFile(inserted);
    snapshots := map[];
    for i := 0 to |files|
      invariant forall file :: file in snapshots <==> file in files[..i]
      invariant forall file :: file in snapshots ==> snapshots[file].before == RowsOf(before, file)
      invariant forall file :: file in snapshots ==> SortedRowsOf(snapshots[file].after, inserted, file)
    {
      assert files[..i + 1] == files[..i] + [files[i]];
      var mine := if files[i] in afterByFile then afterByFile[files[i]] else [];
      assert mine == RowsOf(inserted, files[i]);
      Ordering.SortSorts(ByStart, mine);
      Ordering.SortKeepsEntries(ByStart, mine);
      snapshots := snapshots[files[i] := Snapshot(
        if files[i] in beforeByFile then beforeByFile[files[i]] else [], Ordering.ToSorted(ByStart, mine))];
    }
    assert files[..|files|] == files;
  }

  method GroupByFile(rows: seq<Row>) returns (groups: map<File, seq<Row>>)
    ensures forall file :: (if file in groups then groups[file] else []) == RowsOf(rows, file)
  {
    groups := map[];
    for i := 0 to |rows|
      invariant forall file :: (if file in groups then groups[file] else []) == RowsOf(rows[..i], file)
    {
      assert rows[..i + 1][..i] == rows[..i];
      var file := rows[i].marker.mediaFileId;
      forall other | other != file ensures RowsOf(rows[..i + 1], other) == RowsOf(rows[..i], other) {
        assert RowsOf(rows[..i], other) + [] == RowsOf(rows[..i], other);
      }
      groups := groups[file := (if file in groups then groups[file] else []) + [rows[i]]];
    }
    assert rows[..|rows|] == rows;
  }
}
