/**
 Incremental media statistics against a recount. Every change to `media_files` carries a delta for one library row and
 the catalog row; the recount sums over the files.
 */
module MediaStats {
  import opened Counting
  import opened Sums
  import opened Text

  datatype FileRow = FileRow(libraryId: Id, size: Option<int>, movieId: Option<Id>, episodeId: Option<Id>, qualityTag: Option<string>)

  datatype Counters = Counters(fileCount: int, totalSize: int, movieCount: int, episodeCount: int, qualityCount: int)

  datatype Column = FileCount | TotalSize | MovieCount | EpisodeCount | QualityCount

  function At(counters: Counters, column: Column): int {
    match column
    case FileCount => counters.fileCount
    case TotalSize => counters.totalSize
    case MovieCount => counters.movieCount
    case EpisodeCount => counters.episodeCount
    case QualityCount => counters.qualityCount
  }

  const ZERO := Counters(0, 0, 0, 0, 0)

  /** `mergeDelta`. */
  function Merged(target: Counters, source: Counters): (r: Counters)
    ensures forall column :: At(r, column) == At(target, column) + At(source, column)
  {
    Counters(target.fileCount + source.fileCount, target.totalSize + source.totalSize, target.movieCount + source.movieCount,
             target.episodeCount + source.episodeCount, target.qualityCount + source.qualityCount)
  }

  lemma SameCounters(a: Counters, b: Counters)
    requires forall column :: At(a, column) == At(b, column)
    ensures a == b
  {
    assert At(a, FileCount) == At(b, FileCount) && At(a, TotalSize) == At(b, TotalSize);
    assert At(a, MovieCount) == At(b, MovieCount) && At(a, EpisodeCount) == At(b, EpisodeCount);
    assert At(a, QualityCount) == At(b, QualityCount);
  }

  datatype Sign = Add | Remove

  function Signed(sign: Sign, n: int): int {
    if sign == Add then n else -n
  }

  // ----- what one file counts for

  function Truthy(text: Option<string>): int {
    if text.Some? && text.value != "" then 1 else 0
  }

  function NonNull(text: Option<string>): int {
    if text.Some? then 1 else 0
  }

  function SizeOf(row: FileRow): int {
    if row.size.Some? then row.size.value else 0
  }

  /** `rowDelta`: truthy fields count. */
  function RowDelta(row: FileRow, sign: Sign): Counters {
    Counters(Signed(sign, 1), Signed(sign, SizeOf(row)), Signed(sign, Truthy(row.movieId)), Signed(sign, Truthy(row.episodeId)),
             Signed(sign, Truthy(row.qualityTag)))
  }

  /** What SQL `count(column)` counts: fields that are not null. */
  function SqlCounters(row: FileRow): Counters {
    Counters(1, SizeOf(row), NonNull(row.movieId), NonNull(row.episodeId), NonNull(row.qualityTag))
  }

  /** No field is an empty string, so that both ways of counting agree. */
  predicate NullOrText(row: FileRow) {
    row.movieId != Some("") && row.episodeId != Some("") && row.qualityTag != Some("")
  }

  /** How a file is counted: as the deltas do, or as the rebuild query does. */
  datatype Rule = ByDelta | BySql

  function CountedAs(row: FileRow, rule: Rule): Counters {
    if rule == ByDelta then RowDelta(row, Add) else SqlCounters(row)
  }

  lemma SqlCountsMore(row: FileRow)
    ensures forall column :: At(CountedAs(row, ByDelta), column) <= At(CountedAs(row, BySql), column)
    ensures (forall column :: At(CountedAs(row, ByDelta), column) == At(CountedAs(row, BySql), column)) <==> NullOrText(row)
  {
    if forall column :: At(CountedAs(row, ByDelta), column) == At(CountedAs(row, BySql), column) {
      SameCounters(CountedAs(row, ByDelta), CountedAs(row, BySql));
    }
  }

  // ----- the recount

  /** Which summary row a count is for. */
  datatype Scope = Catalog | Library(id: Id)

  function Share(row: FileRow, scope: Scope, column: Column, rule: Rule): int {
    if scope == Catalog || scope == Library(row.libraryId) then At(CountedAs(row, rule), column) else 0
  }

  function Shares(files: map<Id, FileRow>, scope: Scope, column: Column, rule: Rule): map<Id, int> {
    map id | id in files :: Share(files[id], scope, column, rule)
  }

  /** A counter recomputed from the files of a scope. */
  ghost function Recount(files: map<Id, FileRow>, scope: Scope, column: Column, rule: Rule): int {
    Sum(Shares(files, scope, column, rule))
  }

  lemma RecountAt(files: map<Id, FileRow>, id: Id, scope: Scope, column: Column, rule: Rule)
    requires id in files
    ensures Recount(files, scope, column, rule) == Share(files[id], scope, column, rule) + Recount(files - {id}, scope, column, rule)
  {
    SharesWithout(files, id, scope, column, rule);
    SumAt(Shares(files, scope, column, rule), id);
  }

  lemma SharesWithout(files: map<Id, FileRow>, id: Id, scope: Scope, column: Column, rule: Rule)
    ensures Shares(files, scope, column, rule) - {id} == Shares(files - {id}, scope, column, rule)
  {
  }

  /** Setting a row changes the recount by the new row's share less the old one's. */
  lemma RecountSet(files: map<Id, FileRow>, id: Id, row: FileRow, scope: Scope, column: Column, rule: Rule)
    ensures Recount(files[id := row], scope, column, rule) == Recount(files, scope, column, rule)
      + Share(row, scope, column, rule) - if id in files then Share(files[id], scope, column, rule) else 0
  {
    RecountAt(files[id := row], id, scope, column, rule);
    assert files[id := row] - {id} == files - {id};
    if id in files { RecountAt(files, id, scope, column, rule); } else { assert files - {id} == files; }
  }

  ghost function PerLibrary(files: map<Id, FileRow>, libraries: set<Id>, column: Column, rule: Rule): map<Id, int> {
    map library | library in libraries :: Recount(files, Library(library), column, rule)
  }

  function LibrariesOf(files: map<Id, FileRow>): set<Id> {
    set id | id in files :: files[id].libraryId
  }

  /** The library recounts add up to the catalog recount. */
  lemma {:induction false} LibrariesAddUp(files: map<Id, FileRow>, libraries: set<Id>, column: Column, rule: Rule)
    requires LibrariesOf(files) <= libraries
    ensures Sum(PerLibrary(files, libraries, column, rule)) == Recount(files, Catalog, column, rule)
    decreases |files|
  {
    if files == map[] {
      NoFilesNoCount(libraries, column, rule);
    } else {
      var id :| id in files;
      var rest, library := files - {id}, files[id].libraryId;
      assert library in LibrariesOf(files);
      assert LibrariesOf(rest) <= LibrariesOf(files);
      LibrariesAddUp(rest, libraries, column, rule);
      RecountAt(files, id, Catalog, column, rule);
      OneLibraryGrows(files, id, libraries, column, rule);
      SumGrown(PerLibrary(rest, libraries, column, rule), PerLibrary(files, libraries, column, rule), library,
               Share(files[id], Catalog, column, rule));
    }
  }

  lemma NoFilesNoCount(libraries: set<Id>, column: Column, rule: Rule)
    ensures Sum(PerLibrary(map[], libraries, column, rule)) == 0 == Recount(map[], Catalog, column, rule)
  {
    assert Shares(map[], Catalog, column, rule) == map[];
    forall library | library in libraries ensures Recount(map[], Library(library), column, rule) == 0 {
      assert Shares(map[], Library(library), column, rule) == map[];
    }
    SumOfZeros(PerLibrary(map[], libraries, column, rule));
  }

  lemma ShareOfLibrary(row: FileRow, library: Id, column: Column, rule: Rule)
    ensures Share(row, Library(library), column, rule) == if library == row.libraryId then Share(row, Catalog, column, rule) else 0
  {
  }

  lemma RecountOfLibrary(files: map<Id, FileRow>, id: Id, library: Id, column: Column, rule: Rule)
    requires id in files
    ensures Recount(files, Library(library), column, rule) == Recount(files - {id}, Library(library), column, rule)
      + if library == files[id].libraryId then Share(files[id], Catalog, column, rule) else 0
  {
    RecountAt(files, id, Library(library), column, rule);
    ShareOfLibrary(files[id], library, column, rule);
  }

  lemma OneLibraryGrows(files: map<Id, FileRow>, id: Id, libraries: set<Id>, column: Column, rule: Rule)
    requires id in files && files[id].libraryId in libraries
    ensures Grown(PerLibrary(files - {id}, libraries, column, rule), PerLibrary(files, libraries, column, rule),
                  files[id].libraryId, Share(files[id], Catalog, column, rule))
  {
    forall library | library in libraries ensures Recount(files, Library(library), column, rule)
      == Recount(files - {id}, Library(library), column, rule)
         + if library == files[id].libraryId then Share(files[id], Catalog, column, rule) else 0
    {
      RecountOfLibrary(files, id, library, column, rule);
    }
  }

  predicate InScope(row: FileRow, scope: Scope) {
    scope.Library? ==> row.libraryId == scope.id
  }

  /** Which ids and tags count: any, or with the deltas' rule only those that are not empty. */
  predicate Counts(text: Option<string>, rule: Rule) {
    text.Some? && (rule == ByDelta ==> text.value != "")
  }

  lemma RecountOfOnes(files: map<Id, FileRow>, scope: Scope, column: Column, rule: Rule, counted: set<Id>)
    requires counted <= files.Keys
    requires forall id :: id in files ==> Share(files[id], scope, column, rule) == if id in counted then 1 else 0
    ensures Recount(files, scope, column, rule) == |counted|
  {
    SumOfOnes(Shares(files, scope, column, rule), counted);
  }

  /** What the five counters of a scope are: numbers of files, and the sum of the sizes there are. */
  lemma RecountIs(files: map<Id, FileRow>, scope: Scope, rule: Rule)
    ensures Recount(files, scope, FileCount, rule) == |set id | id in files && InScope(files[id], scope)|
    ensures Recount(files, scope, MovieCount, rule)
      == |set id | id in files && InScope(files[id], scope) && Counts(files[id].movieId, rule)|
    ensures Recount(files, scope, EpisodeCount, rule)
      == |set id | id in files && InScope(files[id], scope) && Counts(files[id].episodeId, rule)|
    ensures Recount(files, scope, QualityCount, rule)
      == |set id | id in files && InScope(files[id], scope) && Counts(files[id].qualityTag, rule)|
    ensures Recount(files, scope, TotalSize, rule)
      == Sum(map id | id in files :: if InScope(files[id], scope) && files[id].size.Some? then files[id].size.value else 0)
  {
    FilesAndSizes(files, scope, rule);
    MoviesCounted(files, scope, rule);
    EpisodesCounted(files, scope, rule);
    QualitiesCounted(files, scope, rule);
  }

  lemma FilesAndSizes(files: map<Id, FileRow>, scope: Scope, rule: Rule)
    ensures Recount(files, scope, FileCount, rule) == |set id | id in files && InScope(files[id], scope)|
    ensures Recount(files, scope, TotalSize, rule)
      == Sum(map id | id in files :: if InScope(files[id], scope) && files[id].size.Some? then files[id].size.value else 0)
  {
    RecountOfOnes(files, scope, FileCount, rule, set id | id in files && InScope(files[id], scope));
    assert Shares(files, scope, TotalSize, rule)
      == map id | id in files :: if InScope(files[id], scope) && files[id].size.Some? then files[id].size.value else 0;
  }

  lemma MoviesCounted(files: map<Id, FileRow>, scope: Scope, rule: Rule)
    ensures Recount(files, scope, MovieCount, rule)
      == |set id | id in files && InScope(files[id], scope) && Counts(files[id].movieId, rule)|
  {
    RecountOfOnes(files, scope, MovieCount, rule, set id | id in files && InScope(files[id], scope) && Counts(files[id].movieId, rule));
  }

  lemma EpisodesCounted(files: map<Id, FileRow>, scope: Scope, rule: Rule)
    ensures Recount(files, scope, EpisodeCount, rule)
      == |set id | id in files && InScope(files[id], scope) && Counts(files[id].episodeId, rule)|
  {
    RecountOfOnes(files, scope, EpisodeCount, rule, set id | id in files && InScope(files[id], scope) && Counts(files[id].episodeId, rule));
  }

  lemma QualitiesCounted(files: map<Id, FileRow>, scope: Scope, rule: Rule)
    ensures Recount(files, scope, QualityCount, rule)
      == |set id | id in files && InScope(files[id], scope) && Counts(files[id].qualityTag, rule)|
  {
    RecountOfOnes(files, scope, QualityCount, rule, set id | id in files && InScope(files[id], scope) && Counts(files[id].qualityTag, rule));
  }

  // ----- sums over row lists

  function SumRows(rows: seq<FileRow>, scope: Scope, column: Column): int {
    if rows == [] then 0
    else SumRows(rows[..|rows| - 1], scope, column) + Share(rows[|rows| - 1], scope, column, ByDelta)
  }

  lemma {:induction false} SumRowsAppend(a: seq<FileRow>, b: seq<FileRow>, scope: Scope, column: Column)
    ensures SumRows(a + b, scope, column) == SumRows(a, scope, column) + SumRows(b, scope, column)
  {
    if b == [] {
      assert a + b == a;
    } else {
      assert (a + b)[..|a + b| - 1] == a + b[..|b| - 1];
      SumRowsAppend(a, b[..|b| - 1], scope, column);
    }
  }

  /** The order of the rows does not matter. */
  lemma {:induction false} SumRowsPermuted(a: seq<FileRow>, b: seq<FileRow>, scope: Scope, column: Column)
    requires multiset(a) == multiset(b)
    ensures SumRows(a, scope, column) == SumRows(b, scope, column)
    decreases |a|
  {
    if a == [] {
      assert |b| == |multiset(b)|;
    } else {
      var last, rest := a[|a| - 1], a[..|a| - 1];
      var j := LastEntryIn(a, b);
      SumRowsPermuted(rest, b[..j] + b[j + 1..], scope, column);
      SumRowsAppend(b[..j], b[j + 1..], scope, column);
      assert b == b[..j] + (([last]) + b[j + 1..]);
      SumRowsAppend(b[..j], [last] + b[j + 1..], scope, column);
      SumRowsAppend([last], b[j + 1..], scope, column);
      assert [last][..0] == [];
    }
  }

  // ----- the summary rows

  datatype Summary = Summary(libraries: map<Id, Counters>, catalog: Option<Counters>)

  /** A library row, or zeros when there is none. */
  function LibraryRow(libraries: map<Id, Counters>, library: Id): Counters {
    if library in libraries then libraries[library] else ZERO
  }

  function WithLibraryDelta(libraries: map<Id, Counters>, library: Id, delta: Counters): map<Id, Counters> {
    libraries[library := Merged(LibraryRow(libraries, library), delta)]
  }

  /** One delta applied to its library row and the catalog row; nothing before the catalog row exists. */
  function WithDelta(summary: Summary, library: Id, delta: Counters): Summary {
    if summary.catalog.None? then summary
    else Summary(WithLibraryDelta(summary.libraries, library, delta), Some(Merged(summary.catalog.value, delta)))
  }

  /** The rows applied one by one. */
  function Applied(summary: Summary, rows: seq<FileRow>, sign: Sign): Summary {
    if rows == [] then summary
    else
      var last := rows[|rows| - 1];
      WithDelta(Applied(summary, rows[..|rows| - 1], sign), last.libraryId, RowDelta(last, sign))
  }

  function LibrariesIn(rows: seq<FileRow>): set<Id> {
    set row | row in rows :: row.libraryId
  }

  /** A counter of the summary. */
  function Value(summary: Summary, scope: Scope, column: Column): int
    requires summary.catalog.Some?
  {
    match scope
    case Catalog => At(summary.catalog.value, column)
    case Library(library) => At(LibraryRow(summary.libraries, library), column)
  }

  lemma RowMoves(summary: Summary, row: FileRow, sign: Sign, scope: Scope, column: Column)
    requires summary.catalog.Some?
    ensures Value(WithDelta(summary, row.libraryId, RowDelta(row, sign)), scope, column)
      == Value(summary, scope, column) + Signed(sign, Share(row, scope, column, ByDelta))
  {
  }

  /** Row by row, every counter moves by the shares of the rows. */
  lemma {:induction false} AppliedMoves(summary: Summary, rows: seq<FileRow>, sign: Sign, scope: Scope, column: Column)
    requires summary.catalog.Some?
    ensures Applied(summary, rows, sign).catalog.Some?
    ensures Value(Applied(summary, rows, sign), scope, column)
      == Value(summary, scope, column) + Signed(sign, SumRows(rows, scope, column))
  {
    if rows != [] {
      AppliedMoves(summary, rows[..|rows| - 1], sign, scope, column);
      RowMoves(Applied(summary, rows[..|rows| - 1], sign), rows[|rows| - 1], sign, scope, column);
    }
  }

  lemma {:induction false} AppliedKeys(summary: Summary, rows: seq<FileRow>, sign: Sign)
    requires summary.catalog.Some?
    ensures Applied(summary, rows, sign).catalog.Some?
    ensures Applied(summary, rows, sign).libraries.Keys == summary.libraries.Keys + LibrariesIn(rows)
  {
    if rows != [] {
      AppliedKeys(summary, rows[..|rows| - 1], sign);
      assert rows == rows[..|rows| - 1] + [rows[|rows| - 1]];
    }
  }

  /** Summaries with the same rows and the same counters are the same. */
  lemma SameSummary(a: Summary, b: Summary)
    requires a.catalog.Some? && b.catalog.Some? && a.libraries.Keys == b.libraries.Keys
    requires forall scope, column :: Value(a, scope, column) == Value(b, scope, column)
    ensures a == b
  {
    SameValues(a, b);
    forall library | library in a.libraries ensures a.libraries[library] == b.libraries[library] {
      assert LibraryRow(a.libraries, library) == LibraryRow(b.libraries, library);
    }
  }

  lemma SameValues(a: Summary, b: Summary)
    requires a.catalog.Some? && b.catalog.Some?
    requires forall scope, column :: Value(a, scope, column) == Value(b, scope, column)
    ensures a.catalog == b.catalog
    ensures forall library :: LibraryRow(a.libraries, library) == LibraryRow(b.libraries, library)
  {
    forall column ensures At(a.catalog.value, column) == At(b.catalog.value, column) {
      assert Value(a, Catalog, column) == Value(b, Catalog, column);
    }
    SameCounters(a.catalog.value, b.catalog.value);
    forall library ensures LibraryRow(a.libraries, library) == LibraryRow(b.libraries, library) {
      forall column ensures At(LibraryRow(a.libraries, library), column) == At(LibraryRow(b.libraries, library), column) {
        assert Value(a, Library(library), column) == Value(b, Library(library), column);
      }
      SameCounters(LibraryRow(a.libraries, library), LibraryRow(b.libraries, library));
    }
  }

  lemma {:induction false} NothingBeforeTheCatalog(summary: Summary, rows: seq<FileRow>, sign: Sign)
    requires summary.catalog.None?
    ensures Applied(summary, rows, sign) == summary
  {
    if rows != [] { NothingBeforeTheCatalog(summary, rows[..|rows| - 1], sign); }
  }

  /** Applying rows in another order comes to the same summary. */
  lemma ApplyingIsOrderFree(summary: Summary, a: seq<FileRow>, b: seq<FileRow>, sign: Sign)
    requires multiset(a) == multiset(b)
    ensures Applied(summary, a, sign) == Applied(summary, b, sign)
  {
    if summary.catalog.None? {
      NothingBeforeTheCatalog(summary, a, sign);
      NothingBeforeTheCatalog(summary, b, sign);
    } else {
      AppliedKeys(summary, a, sign);
      AppliedKeys(summary, b, sign);
      forall row ensures row in a <==> row in b {
        assert row in multiset(a) <==> row in multiset(b);
      }
      var x, y := Applied(summary, a, sign), Applied(summary, b, sign);
      forall scope, column ensures Value(x, scope, column) == Value(y, scope, column) {
        SumRowsPermuted(a, b, scope, column);
        AppliedMoves(summary, a, sign, scope, column);
        AppliedMoves(summary, b, sign, scope, column);
      }
      SameSummary(x, y);
    }
  }

  /** Adding rows and removing them again restores every counter. */
  lemma AddThenRemove(summary: Summary, rows: seq<FileRow>)
    ensures var after := Applied(Applied(summary, rows, Add), rows, Remove);
      && after.catalog == summary.catalog
      && forall library :: LibraryRow(after.libraries, library) == LibraryRow(summary.libraries, library)
  {
    if summary.catalog.None? {
      NothingBeforeTheCatalog(summary, rows, Add);
      NothingBeforeTheCatalog(summary, rows, Remove);
    } else {
      var added := Applied(summary, rows, Add);
      AppliedKeys(summary, rows, Add);
      AppliedKeys(added, rows, Remove);
      var after := Applied(added, rows, Remove);
      forall scope, column ensures Value(after, scope, column) == Value(summary, scope, column) {
        AppliedMoves(summary, rows, Add, scope, column);
        AppliedMoves(added, rows, Remove, scope, column);
      }
      SameValues(after, summary);
    }
  }

  // ----- agreement with the recount

  /** Once the catalog row exists, every counter is what a recount by delta gives. */
  ghost predicate Agrees(files: map<Id, FileRow>, summary: Summary) {
    summary.catalog.Some? ==>
      forall scope, column :: Value(summary, scope, column) == Recount(files, scope, column, ByDelta)
  }

  predicate Clean(files: map<Id, FileRow>) {
    forall id :: id in files ==> NullOrText(files[id])
  }

  lemma InsertAgrees(files: map<Id, FileRow>, summary: Summary, id: Id, row: FileRow)
    requires Agrees(files, summary) && id !in files
    ensures Agrees(files[id := row], WithDelta(summary, row.libraryId, RowDelta(row, Add)))
  {
    if summary.catalog.Some? {
      var after := WithDelta(summary, row.libraryId, RowDelta(row, Add));
      forall scope, column ensures Value(after, scope, column) == Recount(files[id := row], scope, column, ByDelta) {
        RowMoves(summary, row, Add, scope, column);
        RecountSet(files, id, row, scope, column, ByDelta);
      }
    }
  }

  lemma OneRow(summary: Summary, row: FileRow, sign: Sign)
    ensures Applied(summary, [row], sign) == WithDelta(summary, row.libraryId, RowDelta(row, sign))
  {
  }

  /** `delta` is what replacing `before` by `after` does to the counters. */
  predicate IsChange(delta: Counters, before: FileRow, after: FileRow) {
    before.libraryId == after.libraryId
      && forall column :: At(delta, column) == At(CountedAs(after, ByDelta), column) - At(CountedAs(before, ByDelta), column)
  }

  /** A change of one row with its delta keeps the agreement, and a delta of zeros may be left out. */
  lemma ChangeAgrees(files: map<Id, FileRow>, summary: Summary, id: Id, row: FileRow, delta: Counters)
    requires Agrees(files, summary) && id in files && IsChange(delta, files[id], row)
    ensures Agrees(files[id := row], WithDelta(summary, row.libraryId, delta))
    ensures delta == ZERO ==> Agrees(files[id := row], summary)
  {
    if summary.catalog.Some? {
      var after := WithDelta(summary, row.libraryId, delta);
      forall scope, column
        ensures Value(after, scope, column) == Recount(files[id := row], scope, column, ByDelta)
        ensures delta == ZERO ==> Value(summary, scope, column) == Recount(files[id := row], scope, column, ByDelta)
      {
        RecountSet(files, id, row, scope, column, ByDelta);
        DeltaMoves(summary, row.libraryId, delta, scope, column);
      }
    }
  }

  lemma DeltaMoves(summary: Summary, library: Id, delta: Counters, scope: Scope, column: Column)
    requires summary.catalog.Some?
    ensures Value(WithDelta(summary, library, delta), scope, column)
      == Value(summary, scope, column) + if scope == Catalog || scope == Library(library) then At(delta, column) else 0
  {
  }

  function WithoutIds(files: map<Id, FileRow>, ids: seq<Id>): map<Id, FileRow> {
    if ids == [] then files else WithoutIds(files, ids[..|ids| - 1]) - {ids[|ids| - 1]}
  }

  lemma {:induction false} WithoutAll(files: map<Id, FileRow>, ids: seq<Id>)
    ensures WithoutIds(files, ids) == files - (set id | id in ids)
  {
    if ids != [] {
      var rest, last := ids[..|ids| - 1], ids[|ids| - 1];
      WithoutAll(files, rest);
      assert ids == rest + [last];
    }
  }

  /** The recount fell by the rows taken out. */
  ghost predicate TakenOut(before: map<Id, FileRow>, after: map<Id, FileRow>, rows: seq<FileRow>) {
    forall scope, column ::
      Recount(after, scope, column, ByDelta) == Recount(before, scope, column, ByDelta) - SumRows(rows, scope, column)
  }

  lemma TakeOutOne(before: map<Id, FileRow>, files: map<Id, FileRow>, id: Id, rows: seq<FileRow>)
    requires TakenOut(before, files, rows) && id in files
    ensures TakenOut(before, files - {id}, rows + [files[id]])
  {
    forall scope, column ensures Recount(files - {id}, scope, column, ByDelta)
      == Recount(before, scope, column, ByDelta) - SumRows(rows + [files[id]], scope, column)
    {
      RecountAt(files, id, scope, column, ByDelta);
      assert (rows + [files[id]])[..|rows|] == rows;
      assert Recount(files, scope, column, ByDelta) == Recount(before, scope, column, ByDelta) - SumRows(rows, scope, column);
    }
  }

  lemma RemovalAgrees(before: map<Id, FileRow>, after: map<Id, FileRow>, summary: Summary, rows: seq<FileRow>)
    requires Agrees(before, summary) && TakenOut(before, after, rows)
    ensures Agrees(after, Applied(summary, rows, Remove))
  {
    if summary.catalog.Some? {
      AppliedKeys(summary, rows, Remove);
      forall scope, column
        ensures Value(Applied(summary, rows, Remove), scope, column) == Recount(after, scope, column, ByDelta)
      {
        AppliedMoves(summary, rows, Remove, scope, column);
        assert Value(summary, scope, column) == Recount(before, scope, column, ByDelta);
        assert Recount(after, scope, column, ByDelta) == Recount(before, scope, column, ByDelta) - SumRows(rows, scope, column);
      }
    } else {
      NothingBeforeTheCatalog(summary, rows, Remove);
    }
  }

  // ----- the rebuild

  function ColumnOf(libraries: map<Id, Counters>, column: Column): map<Id, int> {
    map library | library in libraries :: At(libraries[library], column)
  }

  /** The grouped query: one row for each library that has files, counted by SQL. */
  ghost predicate Grouped(files: map<Id, FileRow>, libraries: map<Id, Counters>) {
    && libraries.Keys == LibrariesOf(files)
    && forall library, column ::
         At(LibraryRow(libraries, library), column) == Recount(files, Library(library), column, BySql)
  }

  /** The catalog row is the sum of the library rows. */
  ghost predicate SummedUp(libraries: map<Id, Counters>, catalog: Counters) {
    forall column :: At(catalog, column) == Sum(ColumnOf(libraries, column))
  }

  /** Counters rebuilt by SQL are the SQL recount, for the catalog too. */
  lemma RebuiltCountsBySql(files: map<Id, FileRow>, libraries: map<Id, Counters>, catalog: Counters, scope: Scope, column: Column)
    requires Grouped(files, libraries) && SummedUp(libraries, catalog)
    ensures Value(Summary(libraries, Some(catalog)), scope, column) == Recount(files, scope, column, BySql)
  {
    match scope
    case Library(library) =>
      assert At(LibraryRow(libraries, library), column) == Recount(files, Library(library), column, BySql);
    case Catalog =>
      LibrariesAddUp(files, libraries.Keys, column, BySql);
      GroupedColumn(files, libraries, column);
  }

  lemma GroupedColumn(files: map<Id, FileRow>, libraries: map<Id, Counters>, column: Column)
    requires Grouped(files, libraries)
    ensures ColumnOf(libraries, column) == PerLibrary(files, libraries.Keys, column, BySql)
  {
    forall library | library in libraries
      ensures At(libraries[library], column) == Recount(files, Library(library), column, BySql)
    {
      assert At(LibraryRow(libraries, library), column) == Recount(files, Library(library), column, BySql);
    }
  }

  /** The two ways of counting agree on every counter exactly when no file has an empty id or tag. */
  lemma RulesAgreeIff(files: map<Id, FileRow>)
    ensures (forall scope, column :: Recount(files, scope, column, ByDelta) == Recount(files, scope, column, BySql))
      <==> Clean(files)
  {
    if Clean(files) {
      forall scope, column ensures Recount(files, scope, column, ByDelta) == Recount(files, scope, column, BySql) {
        forall id | id in files ensures Share(files[id], scope, column, ByDelta) == Share(files[id], scope, column, BySql) {
          SqlCountsMore(files[id]);
        }
        assert Shares(files, scope, column, ByDelta) == Shares(files, scope, column, BySql);
      }
    }
    if forall scope, column :: Recount(files, scope, column, ByDelta) == Recount(files, scope, column, BySql) {
      forall id | id in files ensures NullOrText(files[id]) {
        forall column ensures At(CountedAs(files[id], ByDelta), column) == At(CountedAs(files[id], BySql), column) {
          SameShares(files, column);
          assert Shares(files, Catalog, column, ByDelta)[id] == Shares(files, Catalog, column, BySql)[id];
        }
        SqlCountsMore(files[id]);
      }
    }
  }

  /** One file with an empty quality tag: a rebuild counts the tag, the deltas do not. */
  lemma EmptyTagIsDrift(id: Id, library: Id)
    ensures var files := map[id := FileRow(library, None, None, None, Some(""))];
      Recount(files, Catalog, QualityCount, BySql) == 1 && Recount(files, Catalog, QualityCount, ByDelta) == 0
  {
    var files := map[id := FileRow(library, None, None, None, Some(""))];
    assert files - {id} == map[];
    RecountAt(files, id, Catalog, QualityCount, BySql);
    RecountAt(files, id, Catalog, QualityCount, ByDelta);
  }

  lemma SameShares(files: map<Id, FileRow>, column: Column)
    requires Recount(files, Catalog, column, ByDelta) == Recount(files, Catalog, column, BySql)
    ensures Shares(files, Catalog, column, ByDelta) == Shares(files, Catalog, column, BySql)
  {
    forall id | id in files ensures Share(files[id], Catalog, column, ByDelta) <= Share(files[id], Catalog, column, BySql) {
      SqlCountsMore(files[id]);
    }
    SumCompares(Shares(files, Catalog, column, ByDelta), Shares(files, Catalog, column, BySql));
  }

  /** A rebuild agrees with the deltas exactly when no file has an empty id or tag. */
  lemma RebuildAgreesIff(files: map<Id, FileRow>, libraries: map<Id, Counters>, catalog: Counters)
    requires Grouped(files, libraries) && SummedUp(libraries, catalog)
    ensures Agrees(files, Summary(libraries, Some(catalog))) <==> Clean(files)
  {
    var rebuilt := Summary(libraries, Some(catalog));
    forall scope, column ensures Value(rebuilt, scope, column) == Recount(files, scope, column, BySql) {
      RebuiltCountsBySql(files, libraries, catalog, scope, column);
    }
    RulesAgreeIff(files);
    if Agrees(files, rebuilt) {
      forall scope, column ensures Recount(files, scope, column, ByDelta) == Recount(files, scope, column, BySql) {
        assert Value(rebuilt, scope, column) == Recount(files, scope, column, ByDelta);
      }
    }
  }

  // ----- library deletion

  function WithoutLibrary(files: map<Id, FileRow>, library: Id): map<Id, FileRow> {
    map id | id in files && files[id].libraryId != library :: files[id]
  }

  /** Deleting a library's files leaves the other libraries' recounts alone and none of its own. */
  lemma RecountWithoutLibrary(files: map<Id, FileRow>, library: Id, other: Id, column: Column)
    ensures Recount(WithoutLibrary(files, library), Library(other), column, ByDelta)
      == if other == library then 0 else Recount(files, Library(other), column, ByDelta)
  {
    var kept := WithoutLibrary(files, library);
    if other == library {
      SumOfZeros(Shares(kept, Library(other), column, ByDelta));
    } else {
      var gone := set id | id in files && files[id].libraryId == library;
      SumWithoutZeros(Shares(files, Library(other), column, ByDelta), gone);
      assert Shares(kept, Library(other), column, ByDelta) == Shares(files, Library(other), column, ByDelta) - gone;
    }
  }

  /** A library with files has a row. */
  lemma LibraryHasRow(files: map<Id, FileRow>, summary: Summary)
    requires Agrees(files, summary) && summary.catalog.Some?
    ensures LibrariesOf(files) <= summary.libraries.Keys
  {
    forall id | id in files ensures files[id].libraryId in summary.libraries {
      var library := files[id].libraryId;
      RecountAt(files, id, Library(library), FileCount, ByDelta);
      var rest := Shares(files - {id}, Library(library), FileCount, ByDelta);
      SumOfZeros(map k | k in rest :: 0);
      SumCompares(map k | k in rest :: 0, rest);
      assert Value(summary, Library(library), FileCount) == Recount(files, Library(library), FileCount, ByDelta);
    }
  }

  /** After a library deletion the catalog summed from the remaining rows is the recount of the remaining files. */
  lemma LibraryDeletionAgrees(files: map<Id, FileRow>, summary: Summary, library: Id, catalog: Counters)
    requires Agrees(files, summary) && summary.catalog.Some?
    requires SummedUp(summary.libraries - {library}, catalog)
    ensures Agrees(WithoutLibrary(files, library), Summary(summary.libraries - {library}, Some(catalog)))
  {
    var kept, after := WithoutLibrary(files, library), Summary(summary.libraries - {library}, Some(catalog));
    forall other, column ensures At(LibraryRow(after.libraries, other), column) == Recount(kept, Library(other), column, ByDelta) {
      RecountWithoutLibrary(files, library, other, column);
      assert Value(summary, Library(other), column) == Recount(files, Library(other), column, ByDelta);
    }
    LibraryHasRow(files, summary);
    forall scope, column ensures Value(after, scope, column) == Recount(kept, scope, column, ByDelta) {
      match scope
      case Library(other) =>
      case Catalog =>
        LibrariesAddUp(kept, after.libraries.Keys, column, ByDelta);
        forall other | other in after.libraries
          ensures At(after.libraries[other], column) == Recount(kept, Library(other), column, ByDelta)
        {
          assert At(LibraryRow(after.libraries, other), column) == Recount(kept, Library(other), column, ByDelta);
        }
        assert ColumnOf(after.libraries, column) == PerLibrary(kept, after.libraries.Keys, column, ByDelta);
    }
  }

  // ----- the repository

  class StatsRepository {
    var files: map<Id, FileRow>
    var libraries: map<Id, Counters>
    var catalog: Option<Counters>

    function Now(): Summary
      reads this`libraries, this`catalog
    {
      Summary(libraries, catalog)
    }

    method ApplyLibraryDelta(library: Id, delta: Counters)
      modifies this`libraries
      ensures libraries == WithLibraryDelta(old(libraries), library, delta)
    {
      if library in libraries {
        libraries := libraries[library := Merged(libraries[library], delta)];
      } else {
        libraries := libraries[library := delta];
        assert Merged(ZERO, delta) == delta;
      }
    }

    method ApplyCatalogDelta(delta: Counters)
      modifies this`catalog
      ensures catalog == Some(Merged(if old(catalog).Some? then old(catalog).value else ZERO, delta))
    {
      catalog := Some(if catalog.Some? then Merged(catalog.value, delta) else delta);
    }

    /** The body the three single-field deltas share. */
    method ApplyDelta(library: Id, delta: Counters)
      modifies this`libraries, this`catalog
      ensures Now() == WithDelta(old(Now()), library, delta)
    {
      if catalog.None? { return; }
      ApplyLibraryDelta(library, delta);
      ApplyCatalogDelta(delta);
    }

    method ApplyMediaFileSizeDelta(library: Id, sizeDelta: int)
      modifies this`libraries, this`catalog
      ensures Now() == if sizeDelta == 0 then old(Now()) else WithDelta(old(Now()), library, ZERO.(totalSize := sizeDelta))
    {
      if sizeDelta == 0 { return; }
      ApplyDelta(library, ZERO.(totalSize := sizeDelta));
    }

    method ApplyMediaFileQualityDelta(library: Id, qualityDelta: int)
      modifies this`libraries, this`catalog
      ensures Now() == if qualityDelta == 0 then old(Now()) else WithDelta(old(Now()), library, ZERO.(qualityCount := qualityDelta))
    {
      if qualityDelta == 0 { return; }
      ApplyDelta(library, ZERO.(qualityCount := qualityDelta));
    }

    method ApplyMediaFileFlagDelta(library: Id, movieDelta: int, episodeDelta: int)
      modifies this`libraries, this`catalog
      ensures Now() == if movieDelta == 0 && episodeDelta == 0 then old(Now())
        else WithDelta(old(Now()), library, ZERO.(movieCount := movieDelta, episodeCount := episodeDelta))
    {
      if movieDelta == 0 && episodeDelta == 0 { return; }
      ApplyDelta(library, ZERO.(movieCount := movieDelta, episodeCount := episodeDelta));
    }

    /** `applyMediaFileStats`: grouping by library comes to the same as applying the rows one by one. */
    method ApplyMediaFileStats(rows: seq<FileRow>, sign: Sign)
      modifies this`libraries, this`catalog
      ensures Now() == Applied(old(Now()), rows, sign)
      ensures catalog.Some? <==> old(catalog).Some?
    {
      if rows == [] { return; }
      ghost var before := Now();
      if catalog.None? {
        NothingBeforeTheCatalog(before, rows, sign);
        return;
      }
      var byLibrary, total := Group(rows, sign);
      ApplyGroups(byLibrary);
      ApplyCatalogDelta(total);
      GroupedIsApplied(before, Now(), byLibrary, total, rows, sign);
    }

    /** The loop over the library deltas. */
    method ApplyGroups(byLibrary: map<Id, Counters>)
      modifies this`libraries
      ensures Spread(old(libraries), libraries, byLibrary, byLibrary.Keys)
    {
      var left := byLibrary.Keys;
      while left != {}
        invariant left <= byLibrary.Keys
        invariant Spread(old(libraries), libraries, byLibrary, byLibrary.Keys - left)
        decreases |left|
      {
        var library :| library in left;
        SpreadOne(old(libraries), libraries, byLibrary, byLibrary.Keys - left, library);
        assert byLibrary.Keys - (left - {library}) == byLibrary.Keys - left + {library};
        ApplyLibraryDelta(library, byLibrary[library]);
        left := left - {library};
      }
      assert byLibrary.Keys - {} == byLibrary.Keys;
    }

    /** The loop that folds the rows into one delta for each library and one for the catalog. */
    method Group(rows: seq<FileRow>, sign: Sign) returns (byLibrary: map<Id, Counters>, total: Counters)
      ensures IsGrouping(byLibrary, total, rows, sign)
    {
      byLibrary, total := map[], ZERO;
      for i := 0 to |rows|
        invariant IsGrouping(byLibrary, total, rows[..i], sign)
      {
        assert rows[..i + 1][..i] == rows[..i] && rows[..i + 1] == rows[..i] + [rows[i]];
        var delta := RowDelta(rows[i], sign);
        GroupOneMore(byLibrary, total, rows[..i + 1], sign);
        byLibrary := WithLibraryDelta(byLibrary, rows[i].libraryId, delta);
        total := Merged(total, delta);
      }
      assert rows[..|rows|] == rows;
    }

    /** The grouped insert of `rebuildMediaStats`: one pass over the files. */
    method RebuildLibraries()
      modifies this`libraries
      ensures Grouped(files, libraries)
    {
      libraries := map[];
      ghost var done: map<Id, FileRow> := map[];
      var left := files.Keys;
      forall library, column ensures Recount(done, Library(library), column, BySql) == 0 {
        NoFilesNoCount({library}, column, BySql);
        assert Shares(map[], Library(library), column, BySql) == map[];
      }
      while left != {}
        invariant left <= files.Keys && done == files - left
        invariant Grouped(done, libraries)
        decreases |left|
      {
        var id :| id in left;
        GroupAnother(done, libraries, id, files[id]);
        libraries := WithLibraryDelta(libraries, files[id].libraryId, SqlCounters(files[id]));
        done := done[id := files[id]];
        left := left - {id};
      }
      assert done == files;
    }

    /** `rebuildCatalogFromLibraries`. */
    method RebuildCatalogFromLibraries()
      modifies this`catalog
      ensures catalog.Some? && SummedUp(libraries, catalog.value)
    {
      var total := ZERO;
      var left := libraries.Keys;
      forall column ensures Sum(ColumnOf(libraries - left, column)) == 0 {
        assert libraries - left == map[] && ColumnOf(map[], column) == map[];
      }
      while left != {}
        invariant left <= libraries.Keys && SummedUp(libraries - left, total)
        decreases |left|
      {
        var library :| library in left;
        forall column ensures Sum(ColumnOf(libraries - (left - {library}), column)) == At(total, column) + At(libraries[library], column) {
          var after := ColumnOf(libraries - (left - {library}), column);
          SumAt(after, library);
          assert after - {library} == ColumnOf(libraries - left, column);
        }
        total := Merged(total, libraries[library]);
        left := left - {library};
      }
      assert libraries - {} == libraries;
      catalog := Some(total);
    }

    /** `rebuildMediaStats`: agrees with the deltas exactly when no file has an empty id or tag. */
    method RebuildMediaStats()
      modifies this`libraries, this`catalog
      ensures catalog.Some?
      ensures forall scope, column :: Value(Now(), scope, column) == Recount(files, scope, column, BySql)
      ensures Agrees(files, Now()) <==> Clean(files)
    {
      RebuildLibraries();
      RebuildCatalogFromLibraries();
      forall scope, column ensures Value(Now(), scope, column) == Recount(files, scope, column, BySql) {
        RebuiltCountsBySql(files, libraries, catalog.value, scope, column);
      }
      RebuildAgreesIff(files, libraries, catalog.value);
    }

    // the writers

    /** `createWithStreams`, when the row is new. */
    method CreateFile(id: Id, row: FileRow)
      requires Agrees(files, Now()) && id !in files
      modifies this
      ensures files == old(files)[id := row] && Agrees(files, Now())
      ensures catalog.Some? <==> old(catalog).Some?
    {
      InsertAgrees(files, Now(), id, row);
      OneRow(Now(), row, Add);
      files := files[id := row];
      ApplyMediaFileStats([row], Add);
    }

    /** `deleteByIds` and its kin: the rows found are removed and their counters with them. */
    method DeleteFiles(ids: seq<Id>) returns (deleted: nat)
      requires Agrees(files, Now())
      modifies this
      ensures files == old(files) - (set id | id in ids) && Agrees(files, Now())
      ensures deleted == |old(files)| - |files|
      ensures catalog.Some? <==> old(catalog).Some?
    {
      ghost var before, summary := files, Now();
      var rows := TakeOut(ids);
      deleted := |rows|;
      ApplyMediaFileStats(rows, Remove);
      RemovalAgrees(before, files, summary, rows);
    }

    /** The loop that selects rows and deletes them; an id listed twice is found once. */
    method TakeOut(ids: seq<Id>) returns (rows: seq<FileRow>)
      modifies this`files
      ensures files == old(files) - (set id | id in ids) && |rows| == |old(files)| - |files|
      ensures TakenOut(old(files), files, rows)
    {
      rows := [];
      ghost var before := files;
      for i := 0 to |ids|
        invariant files == WithoutIds(before, ids[..i])
        invariant |rows| == |before| - |files|
        invariant TakenOut(before, files, rows)
      {
        assert ids[..i + 1][..i] == ids[..i];
        if ids[i] in files {
          TakeOutOne(before, files, ids[i], rows);
          rows := rows + [files[ids[i]]];
          files := files - {ids[i]};
        } else {
          assert files - {ids[i]} == files;
        }
      }
      assert ids[..|ids|] == ids;
      WithoutAll(before, ids);
    }

    /** `updateAndRead` with a quality tag. */
    method UpdateQualityTag(id: Id, tag: Option<string>)
      requires Agrees(files, Now())
      modifies this
      ensures files == if id in old(files) then old(files)[id := old(files)[id].(qualityTag := tag)] else old(files)
      ensures Agrees(files, Now())
      ensures catalog.Some? <==> old(catalog).Some?
    {
      if id !in files { return; }
      var existing := files[id];
      var delta := Truthy(tag) - Truthy(existing.qualityTag);
      ChangeAgrees(files, Now(), id, existing.(qualityTag := tag), ZERO.(qualityCount := delta));
      files := files[id := existing.(qualityTag := tag)];
      ApplyMediaFileQualityDelta(existing.libraryId, delta);
    }

    /** `reassign`. */
    method Reassign(id: Id, movieId: Option<Id>, episodeId: Option<Id>)
      requires Agrees(files, Now())
      modifies this
      ensures files == if id in old(files) then old(files)[id := old(files)[id].(movieId := movieId, episodeId := episodeId)] else old(files)
      ensures Agrees(files, Now())
      ensures catalog.Some? <==> old(catalog).Some?
    {
      if id !in files { return; }
      var existing := files[id];
      var movieDelta, episodeDelta := Truthy(movieId) - Truthy(existing.movieId), Truthy(episodeId) - Truthy(existing.episodeId);
      ChangeAgrees(files, Now(), id, existing.(movieId := movieId, episodeId := episodeId),
                   ZERO.(movieCount := movieDelta, episodeCount := episodeDelta));
      files := files[id := existing.(movieId := movieId, episodeId := episodeId)];
      ApplyMediaFileFlagDelta(existing.libraryId, movieDelta, episodeDelta);
    }

    /** `replaceTechnicalData`: a size delta and a quality delta, one after the other. */
    method ReplaceTechnicalData(id: Id, size: int, tag: Option<string>)
      requires Agrees(files, Now())
      modifies this
      ensures files == if id in old(files) then old(files)[id := old(files)[id].(size := Some(size), qualityTag := tag)] else old(files)
      ensures Agrees(files, Now())
      ensures catalog.Some? <==> old(catalog).Some?
    {
      if id !in files { return; }
      var existing := files[id];
      ghost var resized := files[id := existing.(size := Some(size))];
      var sizeDelta, qualityDelta := size - SizeOf(existing), Truthy(tag) - Truthy(existing.qualityTag);
      ChangeAgrees(files, Now(), id, existing.(size := Some(size)), ZERO.(totalSize := sizeDelta));
      files := files[id := existing.(size := Some(size), qualityTag := tag)];
      ApplyMediaFileSizeDelta(existing.libraryId, sizeDelta);
      assert Agrees(resized, Now());
      ChangeAgrees(resized, Now(), id, files[id], ZERO.(qualityCount := qualityDelta));
      assert resized[id := files[id]] == files;
      ApplyMediaFileQualityDelta(existing.libraryId, qualityDelta);
    }

    /** The deletion of a library: its files, its row, and a catalog summed from the rows that remain. */
    method RemoveLibrary(library: Id)
      requires Agrees(files, Now())
      modifies this
      ensures files == WithoutLibrary(old(files), library) && libraries == old(libraries) - {library}
      ensures Agrees(files, Now()) && (catalog.Some? <==> old(catalog).Some?)
    {
      ghost var before, summary := files, Now();
      files := map id | id in files && files[id].libraryId != library :: files[id];
      libraries := libraries - {library};
      if catalog.Some? {
        RebuildCatalogFromLibraries();
        LibraryDeletionAgrees(before, summary, library, catalog.value);
      }
    }
  }

  /** One delta for each library the rows touch, and one for all of them. */
  ghost predicate IsGrouping(byLibrary: map<Id, Counters>, total: Counters, rows: seq<FileRow>, sign: Sign) {
    && byLibrary.Keys == LibrariesIn(rows)
    && forall scope, column :: Value(Summary(byLibrary, Some(total)), scope, column) == Signed(sign, SumRows(rows, scope, column))
  }

  lemma GroupOneMore(byLibrary: map<Id, Counters>, total: Counters, rows: seq<FileRow>, sign: Sign)
    requires rows != [] && IsGrouping(byLibrary, total, rows[..|rows| - 1], sign)
    ensures var last := rows[|rows| - 1];
      IsGrouping(WithLibraryDelta(byLibrary, last.libraryId, RowDelta(last, sign)), Merged(total, RowDelta(last, sign)), rows, sign)
  {
    var rest, last := rows[..|rows| - 1], rows[|rows| - 1];
    var before := Summary(byLibrary, Some(total));
    var after := WithDelta(before, last.libraryId, RowDelta(last, sign));
    assert rows == rest + [last];
    assert LibrariesIn(rows) == LibrariesIn(rest) + {last.libraryId};
    forall scope, column ensures Value(after, scope, column) == Signed(sign, SumRows(rows, scope, column)) {
      RowMoves(before, last, sign, scope, column);
      assert Value(before, scope, column) == Signed(sign, SumRows(rest, scope, column));
    }
  }

  /** Each of the `done` libraries took its delta, the others kept their rows. */
  ghost predicate Spread(before: map<Id, Counters>, after: map<Id, Counters>, byLibrary: map<Id, Counters>, done: set<Id>)
    requires done <= byLibrary.Keys
  {
    && after.Keys == before.Keys + done
    && (forall library :: library in done ==> LibraryRow(after, library) == Merged(LibraryRow(before, library), byLibrary[library]))
    && (forall library :: library !in done ==> LibraryRow(after, library) == LibraryRow(before, library))
  }

  lemma SpreadOne(before: map<Id, Counters>, mid: map<Id, Counters>, byLibrary: map<Id, Counters>, done: set<Id>, library: Id)
    requires done <= byLibrary.Keys && Spread(before, mid, byLibrary, done) && library in byLibrary && library !in done
    ensures Spread(before, WithLibraryDelta(mid, library, byLibrary[library]), byLibrary, done + {library})
  {
  }

  lemma GroupedMoves(before: Summary, after: Summary, byLibrary: map<Id, Counters>, total: Counters, scope: Scope, column: Column)
    requires before.catalog.Some? && after.catalog == Some(Merged(before.catalog.value, total))
    requires Spread(before.libraries, after.libraries, byLibrary, byLibrary.Keys)
    ensures Value(after, scope, column) == Value(before, scope, column) + Value(Summary(byLibrary, Some(total)), scope, column)
  {
  }

  lemma GroupedIsApplied(before: Summary, after: Summary, byLibrary: map<Id, Counters>, total: Counters, rows: seq<FileRow>, sign: Sign)
    requires before.catalog.Some? && after.catalog == Some(Merged(before.catalog.value, total))
    requires Spread(before.libraries, after.libraries, byLibrary, byLibrary.Keys) && IsGrouping(byLibrary, total, rows, sign)
    ensures after == Applied(before, rows, sign)
  {
    AppliedKeys(before, rows, sign);
    forall scope, column ensures Value(after, scope, column) == Value(Applied(before, rows, sign), scope, column) {
      AppliedMoves(before, rows, sign, scope, column);
      GroupedMoves(before, after, byLibrary, total, scope, column);
      assert Value(Summary(byLibrary, Some(total)), scope, column) == Signed(sign, SumRows(rows, scope, column));
    }
    SameSummary(after, Applied(before, rows, sign));
  }

  lemma GroupAnother(done: map<Id, FileRow>, libraries: map<Id, Counters>, id: Id, row: FileRow)
    requires Grouped(done, libraries) && id !in done
    ensures Grouped(done[id := row], WithLibraryDelta(libraries, row.libraryId, SqlCounters(row)))
  {
    var after := WithLibraryDelta(libraries, row.libraryId, SqlCounters(row));
    assert LibrariesOf(done[id := row]) == LibrariesOf(done) + {row.libraryId} by {
      forall x | x in LibrariesOf(done) + {row.libraryId} ensures x in LibrariesOf(done[id := row]) {
        if x == row.libraryId {
          assert done[id := row][id].libraryId == x;
        } else {
          var other :| other in done && done[other].libraryId == x;
          assert done[id := row][other].libraryId == x;
        }
      }
    }
    forall library, column
      ensures At(LibraryRow(after, library), column) == Recount(done[id := row], Library(library), column, BySql)
    {
      RecountSet(done, id, row, Library(library), column, BySql);
      ShareOfLibrary(row, library, column, BySql);
      assert At(LibraryRow(libraries, library), column) == Recount(done, Library(library), column, BySql);
    }
  }

  // ----- any run

  datatype Change =
    | Create(id: Id, row: FileRow)
    | Delete(ids: seq<Id>)
    | Tag(id: Id, tag: Option<string>)
    | Move(id: Id, movieId: Option<Id>, episodeId: Option<Id>)
    | Technical(id: Id, size: int, tag: Option<string>)
    | Rebuild
    | RemoveLibrary(library: Id)

  /** The files after one change; an id that is taken is not created again. */
  function Changed(files: map<Id, FileRow>, change: Change): map<Id, FileRow> {
    match change
    case Create(id, row) => if id in files then files else files[id := row]
    case Delete(ids) => files - (set id | id in ids)
    case Tag(id, tag) => if id in files then files[id := files[id].(qualityTag := tag)] else files
    case Move(id, movieId, episodeId) =>
      if id in files then files[id := files[id].(movieId := movieId, episodeId := episodeId)] else files
    case Technical(id, size, tag) => if id in files then files[id := files[id].(size := Some(size), qualityTag := tag)] else files
    case Rebuild => files
    case RemoveLibrary(library) => WithoutLibrary(files, library)
  }

  function FilesAfter(files: map<Id, FileRow>, changes: seq<Change>): map<Id, FileRow> {
    if changes == [] then files else Changed(FilesAfter(files, changes[..|changes| - 1]), changes[|changes| - 1])
  }

  /** No file has an empty id or tag when a rebuild runs. */
  predicate CleanAtRebuilds(files: map<Id, FileRow>, changes: seq<Change>) {
    forall i :: 0 <= i < |changes| && changes[i].Rebuild? ==> Clean(FilesAfter(files, changes[..i]))
  }

  /** Over any run of changes and rebuilds the counters stay what a recount gives, if every rebuild finds clean files. */
  method Run(repository: StatsRepository, changes: seq<Change>)
    requires Agrees(repository.files, repository.Now()) && CleanAtRebuilds(repository.files, changes)
    modifies repository
    ensures repository.files == FilesAfter(old(repository.files), changes)
    ensures Agrees(repository.files, repository.Now())
    ensures Rebuild in changes ==> repository.catalog.Some?
  {
    ghost var files := repository.files;
    for i := 0 to |changes|
      invariant repository.files == FilesAfter(files, changes[..i])
      invariant Agrees(repository.files, repository.Now())
      invariant Rebuild in changes[..i] ==> repository.catalog.Some?
    {
      assert changes[..i + 1][..i] == changes[..i] && changes[..i + 1] == changes[..i] + [changes[i]];
      RunOne(repository, changes[i]);
    }
    assert changes[..|changes|] == changes;
  }

  method RunOne(repository: StatsRepository, change: Change)
    requires Agrees(repository.files, repository.Now()) && (change.Rebuild? ==> Clean(repository.files))
    modifies repository
    ensures repository.files == Changed(old(repository.files), change)
    ensures Agrees(repository.files, repository.Now())
    ensures change.Rebuild? || old(repository.catalog).Some? ==> repository.catalog.Some?
  {
    match change
    case Create(id, row) => if id !in repository.files { repository.CreateFile(id, row); }
    case Delete(ids) => var _ := repository.DeleteFiles(ids);
    case Tag(id, tag) => repository.UpdateQualityTag(id, tag);
    case Move(id, movieId, episodeId) => repository.Reassign(id, movieId, episodeId);
    case Technical(id, size, tag) => repository.ReplaceTechnicalData(id, size, tag);
    case Rebuild => repository.RebuildMediaStats();
    case RemoveLibrary(library) => repository.RemoveLibrary(library);
  }
}
