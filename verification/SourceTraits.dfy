/**
 What a title brings to "more like this": the junction rows loaded for it, or rows handed in by the caller, and the
 traits collected from them.
 */
module SourceTraits {
  import opened Text
  import Ordering

  /** A junction row: the title has the trait. */
  datatype Link = Link(titleId: Id, traitId: Id)

  datatype CrewRow = CrewRow(titleId: Id, personId: Id, isDirector: bool)

  datatype CastRow = CastRow(titleId: Id, personId: Id, role: Option<string>, isActor: bool, sortOrder: Option<int>)

  datatype Title = Title(id: Id, kind: Option<string>)

  datatype Catalog = Catalog(
    titles: seq<Title>, collections: seq<Link>, genres: seq<Link>, keywords: seq<Link>, cast: seq<CastRow>, crew: seq<CrewRow>)

  datatype Traits = Traits(collectionIds: seq<Id>, genreIds: seq<Id>, keywordIds: seq<Id>, directors: seq<Id>, topCast: seq<Id>)

  datatype CastMember = CastMember(role: Option<string>, isActor: bool, sortOrder: Option<int>, id: Option<Id>)

  datatype CrewMember = CrewMember(isDirector: bool, id: Option<Id>)

  /** `MoreLikeThisSource`: ids may be missing or empty. */
  datatype SourceRows = SourceRows(
    kind: Option<string>, collections: seq<Option<Id>>, genres: seq<Option<Id>>, keywords: seq<Option<Id>>,
    crew: seq<CrewMember>, cast: seq<CastMember>)

  // ----- picking from a list

  /** What `pick` gives for the items it gives something for, in order. */
  function Picked<T, U>(items: seq<T>, pick: T -> Option<U>): seq<U> {
    if items == [] then []
    else
      var last := pick(items[|items| - 1]);
      Picked(items[..|items| - 1], pick) + if last.Some? then [last.value] else []
  }

  lemma {:induction false} PickedAre<T, U>(items: seq<T>, pick: T -> Option<U>, u: U)
    ensures u in Picked(items, pick) <==> exists i :: 0 <= i < |items| && pick(items[i]) == Some(u)
  {
    if items != [] {
      var rest, last := items[..|items| - 1], |items| - 1;
      PickedAre(rest, pick, u);
      if i :| 0 <= i < |rest| && pick(rest[i]) == Some(u) { assert items[i] == rest[i]; }
      if i :| 0 <= i < |items| && pick(items[i]) == Some(u) { assert i < last ==> rest[i] == items[i]; }
    }
  }

  /** `at` says where each picked item stood: in list order, every item that was picked, no other. */
  predicate PickedFrom<T, U(==)>(items: seq<T>, pick: T -> Option<U>, picked: seq<U>, at: seq<nat>) {
    && |at| == |picked|
    && (forall k :: 0 <= k < |at| ==> at[k] < |items| && pick(items[at[k]]) == Some(picked[k]))
    && (forall j, k :: 0 <= j < k < |at| ==> at[j] < at[k])
    && (forall i: nat :: i < |items| && pick(items[i]).Some? ==> i in at)
  }

  lemma {:induction false} PickedInOrder<T, U>(items: seq<T>, pick: T -> Option<U>) returns (at: seq<nat>)
    ensures PickedFrom(items, pick, Picked(items, pick), at)
  {
    at := [];
    if items != [] {
      var rest, last: nat := items[..|items| - 1], |items| - 1;
      var before := PickedInOrder(rest, pick);
      at := before + if pick(items[last]).Some? then [last] else [];
      OneMorePicked(items, pick, Picked(rest, pick), before);
    }
  }

  lemma OneMorePicked<T, U>(items: seq<T>, pick: T -> Option<U>, picked: seq<U>, at: seq<nat>)
    requires items != [] && PickedFrom(items[..|items| - 1], pick, picked, at)
    ensures var last: nat := |items| - 1;
      if pick(items[last]).Some? then PickedFrom(items, pick, picked + [pick(items[last]).value], at + [last])
      else PickedFrom(items, pick, picked, at)
  {
    var rest, last: nat := items[..|items| - 1], |items| - 1;
    var now := if pick(items[last]).Some? then at + [last] else at;
    forall k | 0 <= k < |at| ensures at[k] < last && items[at[k]] == rest[at[k]] {
    }
    forall i: nat | i < |items| && pick(items[i]).Some? ensures i in now {
      if i < last {
        assert rest[i] == items[i] && i in at;
      } else {
        assert now[|at|] == last;
      }
    }
  }

  // ----- the traits of a source

  predicate ValidId(id: Option<Id>) {
    id.Some? && id.value != ""
  }

  function Valid(id: Option<Id>): Option<Id> {
    if ValidId(id) then id else None
  }

  /** An id of white space only is no id to `isNonEmptyString`. */
  function Full(id: Option<Id>): Option<Id> {
    if id.Some? && !IsBlank(id.value) then id else None
  }

  /** `pluckValidIds`. */
  method PluckValidIds(items: seq<Option<Id>>) returns (ids: seq<Id>)
    ensures ids == Picked(items, Full)
    ensures forall id :: id in ids <==> !IsBlank(id) && Some(id) in items
  {
    ids := [];
    for i := 0 to |items|
      invariant ids == Picked(items[..i], Full)
    {
      assert items[..i + 1][..i] == items[..i];
      if items[i].Some? {
        var blank := TrimsAway(items[i].value);
        if !blank { ids := ids + [items[i].value]; }
      }
    }
    assert items[..|items|] == items;
    forall id ensures id in ids <==> !IsBlank(id) && Some(id) in items {
      PickedAre(items, Full, id);
    }
  }

  function DirectorId(member: CrewMember): Option<Id> {
    if member.isDirector then Valid(member.id) else None
  }

  /** The directors with an id, in row order; a person listed twice is kept twice. */
  method CollectDirectors(crew: seq<CrewMember>) returns (directors: seq<Id>)
    ensures directors == Picked(crew, DirectorId)
    ensures forall id :: id in directors <==> id != "" && CrewMember(true, Some(id)) in crew
    ensures exists at :: PickedFrom(crew, DirectorId, directors, at)
  {
    directors := [];
    for i := 0 to |crew|
      invariant directors == Picked(crew[..i], DirectorId)
    {
      assert crew[..i + 1][..i] == crew[..i];
      if crew[i].isDirector && ValidId(crew[i].id) { directors := directors + [crew[i].id.value]; }
    }
    assert crew[..|crew|] == crew;
    ghost var at := PickedInOrder(crew, DirectorId);
    forall id ensures id in directors <==> id != "" && CrewMember(true, Some(id)) in crew {
      PickedAre(crew, DirectorId, id);
      if i :| 0 <= i < |crew| && DirectorId(crew[i]) == Some(id) { assert crew[i] == CrewMember(true, Some(id)); }
    }
  }

  datatype Billed = Billed(id: Id, sortOrder: int)

  predicate ByBilling(a: Billed, b: Billed) {
    a.sortOrder <= b.sortOrder
  }

  /** Cast rows that count: actors, or rows without a role, with an id. */
  function BilledAs(member: CastMember): Option<Billed> {
    if (member.isActor || member.role.None? || member.role.value == "") && ValidId(member.id)
    then Some(Billed(member.id.value, if member.sortOrder.Some? then member.sortOrder.value else 0))
    else None
  }

  /** The people of the cast rows that count, in billing order; equal billing keeps the order of the rows. */
  function BillingOrder(cast: seq<CastMember>): seq<Billed> {
    Ordering.ToSorted(ByBilling, Picked(cast, BilledAs))
  }

  const TOP_CAST := 5

  function TopCast(cast: seq<CastMember>): seq<Id> {
    var order := BillingOrder(cast);
    var top := if |order| < TOP_CAST then order else order[..TOP_CAST];
    seq(|top|, i requires 0 <= i < |top| => top[i].id)
  }

  /** The loop over the cast rows. */
  method CollectBilled(cast: seq<CastMember>) returns (candidates: seq<Billed>)
    ensures candidates == Picked(cast, BilledAs)
  {
    candidates := [];
    for i := 0 to |cast|
      invariant candidates == Picked(cast[..i], BilledAs)
    {
      assert cast[..i + 1][..i] == cast[..i];
      var member := cast[i];
      if (member.isActor || member.role.None? || member.role.value == "") && ValidId(member.id) {
        candidates := candidates + [Billed(member.id.value, if member.sortOrder.Some? then member.sortOrder.value else 0)];
      }
    }
    assert cast[..|cast|] == cast;
  }

  /** A cast row counts: it is an actor's or names no role, and it has an id. */
  predicate Counts(member: CastMember) {
    member.id.Some? && member.id.value != "" && (member.role.None? || member.role.value == "" || member.isActor)
  }

  /**
   A row with sort order `first` at `a` is billed before one with `second` at `b`: its sort order is smaller, where none
   counts as 0, or it is equal and the row comes first.
   */
  predicate BilledBefore(first: Option<int>, a: nat, second: Option<int>, b: nat) {
    if first.None? && second.None? then a < b
    else if first.None? then 0 < second.value || (second.value == 0 && a < b)
    else if second.None? then first.value < 0 || (first.value == 0 && a < b)
    else first.value < second.value || (first.value == second.value && a < b)
  }

  /** `at` lists the rows that count, best billed first, and `top` are the people of the first five. */
  predicate BestBilled(cast: seq<CastMember>, at: seq<nat>, top: seq<Id>) {
    && (forall k :: 0 <= k < |at| ==> at[k] < |cast| && Counts(cast[at[k]]))
    && (forall i: nat :: i < |cast| && Counts(cast[i]) ==> i in at)
    && (forall j, k :: 0 <= j < k < |at| ==>
          BilledBefore(cast[at[j]].sortOrder, at[j], cast[at[k]].sortOrder, at[k]))
    && |top| == (if |at| < 5 then |at| else 5)
    && (forall k :: 0 <= k < |top| ==> cast[at[k]].id == Some(top[k]))
  }

  lemma CountsIff(member: CastMember)
    ensures BilledAs(member).Some? <==> Counts(member)
    ensures Counts(member) ==> member.id == Some(BilledAs(member).value.id)
  {
  }

  /** `at` says where each entry stood before it was picked and sorted. */
  ghost predicate PickedAndSorted(cast: seq<CastMember>, order: seq<Billed>, at: seq<nat>) {
    && |at| == |order|
    && (forall k :: 0 <= k < |at| ==> at[k] < |cast| && BilledAs(cast[at[k]]) == Some(order[k]))
    && (forall i: nat :: i < |cast| && BilledAs(cast[i]).Some? ==> i in at)
    && (forall j, k :: 0 <= j < k < |at| ==> ByBilling(order[j], order[k]) && (ByBilling(order[k], order[j]) ==> at[j] < at[k]))
  }

  /** Positions among positions. */
  lemma Composed(rows: seq<nat>, moved: seq<nat>) returns (at: seq<nat>)
    requires forall k :: 0 <= k < |moved| ==> moved[k] < |rows|
    ensures |at| == |moved| && forall k :: 0 <= k < |at| ==> at[k] == rows[moved[k]]
    ensures forall r: nat :: r < |rows| && r in moved ==> rows[r] in at
  {
    at := seq(|moved|, k requires 0 <= k < |moved| => rows[moved[k]]);
    forall r: nat | r < |rows| && r in moved ensures rows[r] in at {
      var k :| 0 <= k < |moved| && moved[k] == r;
      assert at[k] == rows[r];
    }
  }

  lemma BillingOrderRows(cast: seq<CastMember>) returns (at: seq<nat>)
    ensures PickedAndSorted(cast, BillingOrder(cast), at)
  {
    var billed := Picked(cast, BilledAs);
    var rows := PickedInOrder(cast, BilledAs);
    var moved := Ordering.SortMoves(ByBilling, billed);
    at := Composed(rows, moved);
    SortedRowsAre(cast, billed, BillingOrder(cast), rows, moved, at);
  }

  lemma SortedRowsAre(
      cast: seq<CastMember>, billed: seq<Billed>, order: seq<Billed>, rows: seq<nat>, moved: seq<nat>, at: seq<nat>)
    requires PickedFrom(cast, BilledAs, billed, rows) && Ordering.SortedAt(ByBilling, billed, order, moved)
    requires |at| == |moved| && forall k :: 0 <= k < |at| ==> at[k] == rows[moved[k]]
    requires forall r: nat :: r < |rows| && r in moved ==> rows[r] in at
    ensures PickedAndSorted(cast, order, at)
  {
    forall i: nat | i < |cast| && BilledAs(cast[i]).Some? ensures i in at {
      var r: nat :| r < |rows| && rows[r] == i;
      assert r < |billed| && r in moved;
    }
    forall j, k | 0 <= j < k < |at|
      ensures ByBilling(order[j], order[k]) && (ByBilling(order[k], order[j]) ==> at[j] < at[k])
    {
      assert Ordering.Precedes(ByBilling, billed, moved[j], moved[k]);
    }
  }

  /** The top cast on the rows themselves. */
  lemma TopCastIsBestBilled(cast: seq<CastMember>) returns (at: seq<nat>)
    ensures BestBilled(cast, at, TopCast(cast))
  {
    at := BillingOrderRows(cast);
    var order := BillingOrder(cast);
    forall i: nat | i < |cast| && Counts(cast[i]) ensures i in at {
      CountsIff(cast[i]);
    }
    forall k | 0 <= k < |at| ensures at[k] < |cast| && Counts(cast[at[k]]) && cast[at[k]].id == Some(order[k].id) {
      CountsIff(cast[at[k]]);
    }
    forall j, k | 0 <= j < k < |at| ensures BilledBefore(cast[at[j]].sortOrder, at[j], cast[at[k]].sortOrder, at[k]) {
      assert BilledAs(cast[at[j]]) == Some(order[j]) && BilledAs(cast[at[k]]) == Some(order[k]);
    }
  }

  method CollectTopCast(cast: seq<CastMember>) returns (topCast: seq<Id>)
    ensures topCast == TopCast(cast)
    ensures exists at :: BestBilled(cast, at, topCast)
  {
    ghost var at := TopCastIsBestBilled(cast);
    var candidates := CollectBilled(cast);
    var sorted := Ordering.ToSorted(ByBilling, candidates);
    var top := if |sorted| < TOP_CAST then sorted else sorted[..TOP_CAST];
    topCast := seq(|top|, i requires 0 <= i < |top| => top[i].id);
  }

  function TraitsOf(rows: SourceRows): Traits {
    Traits(Picked(rows.collections, Full), Picked(rows.genres, Full), Picked(rows.keywords, Full),
           Picked(rows.crew, DirectorId), TopCast(rows.cast))
  }

  /** `collectSimilarityTraits`. */
  method CollectSimilarityTraits(rows: SourceRows) returns (traits: Traits)
    ensures traits == TraitsOf(rows)
  {
    var directors := CollectDirectors(rows.crew);
    var topCast := CollectTopCast(rows.cast);
    var collectionIds := PluckValidIds(rows.collections);
    var genreIds := PluckValidIds(rows.genres);
    var keywordIds := PluckValidIds(rows.keywords);
    traits := Traits(collectionIds, genreIds, keywordIds, directors, topCast);
  }

  lemma {:induction false} TopCastAre(cast: seq<CastMember>, id: Id)
    requires id in TopCast(cast)
    ensures exists i :: 0 <= i < |cast| && BilledAs(cast[i]).Some? && cast[i].id == Some(id)
  {
    var k :| 0 <= k < |TopCast(cast)| && TopCast(cast)[k] == id;
    var billed := BillingOrder(cast)[k];
    Ordering.SortKeepsEntries(ByBilling, Picked(cast, BilledAs));
    PickedAre(cast, BilledAs, billed);
    var i :| 0 <= i < |cast| && BilledAs(cast[i]) == Some(billed);
    assert cast[i].id == Some(id);
  }

  // ----- loading a stored title

  datatype Origin = FromCollections | FromGenres | FromKeywords | FromCast | FromCrew

  /** A row of the junction union; `flag` is the text match on the role or the job. */
  datatype LoadedRow = LoadedRow(origin: Origin, id: Id, role: Option<string>, flag: bool, sortOrder: Option<int>)

  function LinksLoaded(links: seq<Link>, origin: Origin, metadataId: Id): seq<LoadedRow> {
    Picked(links, (link: Link) =>
             if link.titleId == metadataId then Some(LoadedRow(origin, link.traitId, None, false, None)) else None)
  }

  function CastLoaded(cast: seq<CastRow>, metadataId: Id): seq<LoadedRow> {
    Picked(cast, (row: CastRow) =>
             if row.titleId == metadataId then Some(LoadedRow(FromCast, row.personId, row.role, row.isActor, row.sortOrder)) else None)
  }

  function CrewLoaded(crew: seq<CrewRow>, metadataId: Id): seq<LoadedRow> {
    Picked(crew, (row: CrewRow) =>
             if row.titleId == metadataId then Some(LoadedRow(FromCrew, row.personId, None, row.isDirector, None)) else None)
  }

  /** The `UNION ALL` over the five junction tables. */
  function Loaded(catalog: Catalog, metadataId: Id): seq<LoadedRow> {
    LinksLoaded(catalog.collections, FromCollections, metadataId)
      + LinksLoaded(catalog.genres, FromGenres, metadataId)
      + LinksLoaded(catalog.keywords, FromKeywords, metadataId)
      + CastLoaded(catalog.cast, metadataId)
      + CrewLoaded(catalog.crew, metadataId)
  }

  function IdFrom(origin: Origin): LoadedRow -> Option<Option<Id>> {
    (row: LoadedRow) => if row.id != "" && row.origin == origin then Some(Some(row.id)) else None
  }

  function CrewFrom(row: LoadedRow): Option<CrewMember> {
    if row.id != "" && row.origin == FromCrew then Some(CrewMember(row.flag, Some(row.id))) else None
  }

  function CastFrom(row: LoadedRow): Option<CastMember> {
    if row.id != "" && row.origin == FromCast then Some(CastMember(row.role, row.flag, row.sortOrder, Some(row.id))) else None
  }

  function Sorted(kind: Option<string>, loaded: seq<LoadedRow>): SourceRows {
    SourceRows(kind, Picked(loaded, IdFrom(FromCollections)), Picked(loaded, IdFrom(FromGenres)),
               Picked(loaded, IdFrom(FromKeywords)), Picked(loaded, CrewFrom), Picked(loaded, CastFrom))
  }

  function KindOf(titles: seq<Title>, id: Id): Option<Option<string>> {
    if titles == [] then None else if titles[0].id == id then Some(titles[0].kind) else KindOf(titles[1..], id)
  }

  /** `None` when there is no such title. */
  function LoadOf(catalog: Catalog, metadataId: Id): Option<SourceRows> {
    var kind := KindOf(catalog.titles, metadataId);
    if kind.None? then None else Some(Sorted(kind.value, Loaded(catalog, metadataId)))
  }

  /** `loadSourceTraits`: one row of `metadata`, one union over the junctions, then a switch on where each row is from. */
  method LoadSourceTraits(catalog: Catalog, metadataId: Id) returns (rows: Option<SourceRows>)
    ensures rows == LoadOf(catalog, metadataId)
  {
    var kind := KindOf(catalog.titles, metadataId);
    if kind.None? { return None; }
    var loaded := Loaded(catalog, metadataId);
    var sorted := SourceRows(kind.value, [], [], [], [], []);
    for i := 0 to |loaded|
      invariant sorted == Sorted(kind.value, loaded[..i])
    {
      assert loaded[..i + 1][..i] == loaded[..i];
      var row := loaded[i];
      if row.id == "" { continue; }
      match row.origin {
        case FromCollections => sorted := sorted.(collections := sorted.collections + [Some(row.id)]);
        case FromGenres => sorted := sorted.(genres := sorted.genres + [Some(row.id)]);
        case FromKeywords => sorted := sorted.(keywords := sorted.keywords + [Some(row.id)]);
        case FromCrew => sorted := sorted.(crew := sorted.crew + [CrewMember(row.flag, Some(row.id))]);
        case FromCast => sorted := sorted.(cast := sorted.cast + [CastMember(row.role, row.flag, row.sortOrder, Some(row.id))]);
      }
    }
    assert loaded[..|loaded|] == loaded;
    return Some(sorted);
  }

  lemma LinksLoadedAre(links: seq<Link>, origin: Origin, metadataId: Id, row: LoadedRow)
    ensures row in LinksLoaded(links, origin, metadataId)
      <==> row == LoadedRow(origin, row.id, None, false, None) && Link(metadataId, row.id) in links
  {
    var pick := (link: Link) =>
      if link.titleId == metadataId then Some(LoadedRow(origin, link.traitId, None, false, None)) else None;
    PickedAre(links, pick, row);
    if i :| 0 <= i < |links| && pick(links[i]) == Some(row) { assert links[i] == Link(metadataId, row.id); }
    if row == LoadedRow(origin, row.id, None, false, None) && Link(metadataId, row.id) in links {
      var i :| 0 <= i < |links| && links[i] == Link(metadataId, row.id);
      assert pick(links[i]) == Some(row);
    }
  }

  lemma CrewLoadedAre(crew: seq<CrewRow>, metadataId: Id, row: LoadedRow)
    ensures row in CrewLoaded(crew, metadataId)
      <==> row == LoadedRow(FromCrew, row.id, None, row.flag, None) && CrewRow(metadataId, row.id, row.flag) in crew
  {
    var pick := (c: CrewRow) =>
      if c.titleId == metadataId then Some(LoadedRow(FromCrew, c.personId, None, c.isDirector, None)) else None;
    PickedAre(crew, pick, row);
    if i :| 0 <= i < |crew| && pick(crew[i]) == Some(row) { assert crew[i] == CrewRow(metadataId, row.id, row.flag); }
    if row == LoadedRow(FromCrew, row.id, None, row.flag, None) && CrewRow(metadataId, row.id, row.flag) in crew {
      var i :| 0 <= i < |crew| && crew[i] == CrewRow(metadataId, row.id, row.flag);
      assert pick(crew[i]) == Some(row);
    }
  }

  lemma CastLoadedAre(cast: seq<CastRow>, metadataId: Id, row: LoadedRow)
    ensures row in CastLoaded(cast, metadataId) ==>
      row.origin == FromCast && CastRow(metadataId, row.id, row.role, row.flag, row.sortOrder) in cast
  {
    var pick := (c: CastRow) =>
      if c.titleId == metadataId then Some(LoadedRow(FromCast, c.personId, c.role, c.isActor, c.sortOrder)) else None;
    PickedAre(cast, pick, row);
    if i :| 0 <= i < |cast| && pick(cast[i]) == Some(row) {
      assert cast[i] == CastRow(metadataId, row.id, row.role, row.flag, row.sortOrder);
    }
  }

  /** The rows of each origin are those of its junction table. */
  lemma LoadedAre(catalog: Catalog, metadataId: Id, row: LoadedRow)
    ensures row in Loaded(catalog, metadataId) <==>
      match row.origin
      case FromCollections => row in LinksLoaded(catalog.collections, FromCollections, metadataId)
      case FromGenres => row in LinksLoaded(catalog.genres, FromGenres, metadataId)
      case FromKeywords => row in LinksLoaded(catalog.keywords, FromKeywords, metadataId)
      case FromCast => row in CastLoaded(catalog.cast, metadataId)
      case FromCrew => row in CrewLoaded(catalog.crew, metadataId)
  {
    LinksLoadedAre(catalog.collections, FromCollections, metadataId, row);
    LinksLoadedAre(catalog.genres, FromGenres, metadataId, row);
    LinksLoadedAre(catalog.keywords, FromKeywords, metadataId, row);
    CastLoadedAre(catalog.cast, metadataId, row);
    CrewLoadedAre(catalog.crew, metadataId, row);
  }

  lemma IdsFromAre(loaded: seq<LoadedRow>, origin: Origin, id: Id)
    ensures id in Picked(Picked(loaded, IdFrom(origin)), Full)
      <==> !IsBlank(id) && exists row :: row in loaded && row.origin == origin && row.id == id
  {
    var ids := Picked(loaded, IdFrom(origin));
    PickedAre(ids, Full, id);
    PickedAre(loaded, IdFrom(origin), Some(id));
    if i :| 0 <= i < |ids| && Full(ids[i]) == Some(id) { assert ids[i] == Some(id) && Some(id) in ids; }
    if i :| 0 <= i < |loaded| && IdFrom(origin)(loaded[i]) == Some(Some(id)) { assert loaded[i] in loaded; }
    if row :| !IsBlank(id) && row in loaded && row.origin == origin && row.id == id {
      var i :| 0 <= i < |loaded| && loaded[i] == row;
      assert IdFrom(origin)(loaded[i]) == Some(Some(id));
      var k :| 0 <= k < |ids| && ids[k] == Some(id);
      assert Full(ids[k]) == Some(id);
    }
  }

  lemma LinkedTraits(links: seq<Link>, loaded: seq<LoadedRow>, origin: Origin, metadataId: Id, t: Id)
    requires forall row :: row in loaded && row.origin == origin <==> row in LinksLoaded(links, origin, metadataId)
    ensures t in Picked(Picked(loaded, IdFrom(origin)), Full) <==> !IsBlank(t) && Link(metadataId, t) in links
  {
    IdsFromAre(loaded, origin, t);
    var row := LoadedRow(origin, t, None, false, None);
    LinksLoadedAre(links, origin, metadataId, row);
    if other :| other in loaded && other.origin == origin && other.id == t {
      LinksLoadedAre(links, origin, metadataId, other);
    }
  }

  lemma DirectorsFromAre(loaded: seq<LoadedRow>, id: Id)
    ensures id in Picked(Picked(loaded, CrewFrom), DirectorId)
      <==> id != "" && exists row :: row in loaded && row.origin == FromCrew && row.flag && row.id == id
  {
    var crew := Picked(loaded, CrewFrom);
    PickedAre(crew, DirectorId, id);
    PickedAre(loaded, CrewFrom, CrewMember(true, Some(id)));
    if i :| 0 <= i < |crew| && DirectorId(crew[i]) == Some(id) { assert crew[i] == CrewMember(true, Some(id)); }
    if i :| 0 <= i < |loaded| && CrewFrom(loaded[i]) == Some(CrewMember(true, Some(id))) { assert loaded[i] in loaded; }
    if row :| id != "" && row in loaded && row.origin == FromCrew && row.flag && row.id == id {
      var i :| 0 <= i < |loaded| && loaded[i] == row;
      assert CrewFrom(loaded[i]) == Some(CrewMember(true, Some(id)));
      var k :| 0 <= k < |crew| && crew[k] == CrewMember(true, Some(id));
      assert DirectorId(crew[k]) == Some(id);
    }
  }

  lemma LoadedDirectors(crew: seq<CrewRow>, loaded: seq<LoadedRow>, metadataId: Id, p: Id)
    requires forall row :: row in loaded && row.origin == FromCrew <==> row in CrewLoaded(crew, metadataId)
    ensures p in Picked(Picked(loaded, CrewFrom), DirectorId) <==> p != "" && CrewRow(metadataId, p, true) in crew
  {
    DirectorsFromAre(loaded, p);
    CrewLoadedAre(crew, metadataId, LoadedRow(FromCrew, p, None, true, None));
    if other :| other in loaded && other.origin == FromCrew && other.flag && other.id == p {
      CrewLoadedAre(crew, metadataId, other);
    }
  }

  /** A trait is collected exactly when a junction row of the title has it. */
  predicate LoadedAs(catalog: Catalog, traits: Traits, id: Id, t: Id) {
    && (t in traits.collectionIds <==> !IsBlank(t) && Link(id, t) in catalog.collections)
    && (t in traits.genreIds <==> !IsBlank(t) && Link(id, t) in catalog.genres)
    && (t in traits.keywordIds <==> !IsBlank(t) && Link(id, t) in catalog.keywords)
    && (t in traits.directors <==> t != "" && CrewRow(id, t, true) in catalog.crew)
  }

  lemma LoadedTraitsAre(catalog: Catalog, id: Id, t: Id)
    requires LoadOf(catalog, id).Some?
    ensures LoadedAs(catalog, TraitsOf(LoadOf(catalog, id).value), id, t)
  {
    var loaded := Loaded(catalog, id);
    forall row ensures row in loaded <==>
      match row.origin
      case FromCollections => row in LinksLoaded(catalog.collections, FromCollections, id)
      case FromGenres => row in LinksLoaded(catalog.genres, FromGenres, id)
      case FromKeywords => row in LinksLoaded(catalog.keywords, FromKeywords, id)
      case FromCast => row in CastLoaded(catalog.cast, id)
      case FromCrew => row in CrewLoaded(catalog.crew, id)
    {
      LoadedAre(catalog, id, row);
    }
    forall row ensures row in LinksLoaded(catalog.collections, FromCollections, id) ==> row.origin == FromCollections {
      LinksLoadedAre(catalog.collections, FromCollections, id, row);
    }
    forall row ensures row in LinksLoaded(catalog.genres, FromGenres, id) ==> row.origin == FromGenres {
      LinksLoadedAre(catalog.genres, FromGenres, id, row);
    }
    forall row ensures row in LinksLoaded(catalog.keywords, FromKeywords, id) ==> row.origin == FromKeywords {
      LinksLoadedAre(catalog.keywords, FromKeywords, id, row);
    }
    forall row ensures row in CrewLoaded(catalog.crew, id) ==> row.origin == FromCrew {
      CrewLoadedAre(catalog.crew, id, row);
    }
    LinkedTraits(catalog.collections, loaded, FromCollections, id, t);
    LinkedTraits(catalog.genres, loaded, FromGenres, id, t);
    LinkedTraits(catalog.keywords, loaded, FromKeywords, id, t);
    LoadedDirectors(catalog.crew, loaded, id, t);
  }

  lemma TopCastRow(loaded: seq<LoadedRow>, p: Id) returns (row: LoadedRow)
    requires p in TopCast(Picked(loaded, CastFrom))
    ensures row in loaded && row.origin == FromCast && row.id == p && p != ""
    ensures row.flag || row.role.None? || row.role.value == ""
  {
    var cast := Picked(loaded, CastFrom);
    TopCastAre(cast, p);
    var i :| 0 <= i < |cast| && BilledAs(cast[i]).Some? && cast[i].id == Some(p);
    PickedAre(loaded, CastFrom, cast[i]);
    var k :| 0 <= k < |loaded| && CastFrom(loaded[k]) == Some(cast[i]);
    row := loaded[k];
  }

  predicate PlaysIn(row: CastRow, id: Id, p: Id) {
    row.titleId == id && row.personId == p && (row.isActor || row.role.None? || row.role.value == "")
  }

  /** Whoever is among the top cast plays in the title: a cast row of an actor, or one without a role. */
  lemma LoadedTopCast(catalog: Catalog, id: Id, p: Id)
    requires LoadOf(catalog, id).Some? && p in TraitsOf(LoadOf(catalog, id).value).topCast
    ensures p != "" && exists row :: row in catalog.cast && PlaysIn(row, id, p)
  {
    var row := TopCastRow(Loaded(catalog, id), p);
    LoadedAre(catalog, id, row);
    CastLoadedAre(catalog.cast, id, row);
    assert PlaysIn(CastRow(id, p, row.role, row.flag, row.sortOrder), id, p);
  }

  // ----- the top cast of a stored title

  function CastOf(metadataId: Id): CastRow -> Option<CastMember> {
    (row: CastRow) =>
      if row.titleId == metadataId && row.personId != "" then
        Some(CastMember(row.role, row.isActor, row.sortOrder, Some(row.personId)))
      else None
  }

  lemma {:induction false} PickedAppend<T, U>(a: seq<T>, b: seq<T>, pick: T -> Option<U>)
    ensures Picked(a + b, pick) == Picked(a, pick) + Picked(b, pick)
  {
    if b == [] {
      assert a + b == a;
    } else {
      assert (a + b)[..|a + b| - 1] == a + b[..|b| - 1];
      PickedAppend(a, b[..|b| - 1], pick);
    }
  }

  lemma {:induction false} NonePicked<T, U>(items: seq<T>, pick: T -> Option<U>)
    requires forall i :: 0 <= i < |items| ==> pick(items[i]).None?
    ensures Picked(items, pick) == []
  {
    if items != [] { NonePicked(items[..|items| - 1], pick); }
  }

  lemma NoCastLoaded(loaded: seq<LoadedRow>)
    requires forall row :: row in loaded ==> row.origin != FromCast
    ensures Picked(loaded, CastFrom) == []
  {
    forall i | 0 <= i < |loaded| ensures CastFrom(loaded[i]).None? {
      assert loaded[i] in loaded;
    }
    NonePicked(loaded, CastFrom);
  }

  lemma {:induction false} CastLoadedGives(cast: seq<CastRow>, metadataId: Id)
    ensures Picked(CastLoaded(cast, metadataId), CastFrom) == Picked(cast, CastOf(metadataId))
  {
    if cast != [] {
      var rest, row := cast[..|cast| - 1], cast[|cast| - 1];
      CastLoadedGives(rest, metadataId);
      if row.titleId == metadataId {
        var last := LoadedRow(FromCast, row.personId, row.role, row.isActor, row.sortOrder);
        assert CastLoaded(cast, metadataId) == CastLoaded(rest, metadataId) + [last];
        PickedAppend(CastLoaded(rest, metadataId), [last], CastFrom);
        assert [last][..0] == [];
      } else {
        assert CastLoaded(cast, metadataId) == CastLoaded(rest, metadataId) + [];
        assert CastLoaded(rest, metadataId) + [] == CastLoaded(rest, metadataId);
      }
    }
  }

  /** The cast loaded for a title are its own cast rows that name a person, in table order. */
  lemma LoadedCastIs(catalog: Catalog, id: Id)
    ensures Picked(Loaded(catalog, id), CastFrom) == Picked(catalog.cast, CastOf(id))
  {
    var collections := LinksLoaded(catalog.collections, FromCollections, id);
    var genres := LinksLoaded(catalog.genres, FromGenres, id);
    var keywords := LinksLoaded(catalog.keywords, FromKeywords, id);
    var cast, crew := CastLoaded(catalog.cast, id), CrewLoaded(catalog.crew, id);
    forall row ensures row in collections ==> row.origin != FromCast
      ensures row in genres ==> row.origin != FromCast
      ensures row in keywords ==> row.origin != FromCast
      ensures row in crew ==> row.origin != FromCast
    {
      LinksLoadedAre(catalog.collections, FromCollections, id, row);
      LinksLoadedAre(catalog.genres, FromGenres, id, row);
      LinksLoadedAre(catalog.keywords, FromKeywords, id, row);
      CrewLoadedAre(catalog.crew, id, row);
    }
    NoCastLoaded(collections + genres + keywords);
    NoCastLoaded(crew);
    PickedAppend(collections + genres + keywords, cast, CastFrom);
    PickedAppend(collections + genres + keywords + cast, crew, CastFrom);
    CastLoadedGives(catalog.cast, id);
  }

  /** `at` lists the cast rows of a title that count, best billed first, and `top` are the people of the first five. */
  predicate BestBilledOf(cast: seq<CastRow>, id: Id, at: seq<nat>, top: seq<Id>) {
    && (forall k :: 0 <= k < |at| ==> at[k] < |cast| && PlaysIn(cast[at[k]], id, cast[at[k]].personId) && cast[at[k]].personId != "")
    && (forall i: nat :: i < |cast| && PlaysIn(cast[i], id, cast[i].personId) && cast[i].personId != "" ==> i in at)
    && (forall j, k :: 0 <= j < k < |at| ==>
          BilledBefore(cast[at[j]].sortOrder, at[j], cast[at[k]].sortOrder, at[k]))
    && |top| == (if |at| < 5 then |at| else 5)
    && (forall k :: 0 <= k < |top| ==> cast[at[k]].personId == top[k])
  }

  /** The top cast of a stored title, on the cast table. */
  lemma StoredTopCast(catalog: Catalog, id: Id) returns (at: seq<nat>)
    requires LoadOf(catalog, id).Some?
    ensures BestBilledOf(catalog.cast, id, at, TraitsOf(LoadOf(catalog, id).value).topCast)
  {
    LoadedCastIs(catalog, id);
    at := TopCastOfRows(catalog.cast, id);
  }

  lemma TopCastOfRows(cast: seq<CastRow>, id: Id) returns (at: seq<nat>)
    ensures BestBilledOf(cast, id, at, TopCast(Picked(cast, CastOf(id))))
  {
    var members := Picked(cast, CastOf(id));
    var rows := PickedInOrder(cast, CastOf(id));
    var best := TopCastIsBestBilled(members);
    at := Composed(rows, best);
    forall r: nat | r < |rows| ensures IsMemberOf(cast, id, rows[r], members[r]) {
      assert CastOf(id)(cast[rows[r]]) == Some(members[r]);
    }
    forall i: nat | i < |cast| && PlaysIn(cast[i], id, cast[i].personId) && cast[i].personId != "" ensures i in at {
      assert CastOf(id)(cast[i]).Some?;
      var r: nat :| r < |rows| && rows[r] == i;
      assert IsMemberOf(cast, id, rows[r], members[r]) && r in best;
    }
    BestOfRows(cast, id, members, rows, best, at, TopCast(members));
  }

  predicate IsMemberOf(cast: seq<CastRow>, id: Id, i: nat, member: CastMember) {
    && i < |cast| && cast[i].titleId == id && cast[i].personId != ""
    && member == CastMember(cast[i].role, cast[i].isActor, cast[i].sortOrder, Some(cast[i].personId))
  }

  lemma BestOfRows(
      cast: seq<CastRow>, id: Id, members: seq<CastMember>, rows: seq<nat>, best: seq<nat>, at: seq<nat>, top: seq<Id>)
    requires |rows| == |members| && BestBilled(members, best, top)
    requires forall r: nat :: r < |rows| ==> IsMemberOf(cast, id, rows[r], members[r])
    requires forall q, r :: 0 <= q < r < |rows| ==> rows[q] < rows[r]
    requires |at| == |best| && forall k :: 0 <= k < |at| ==> at[k] == rows[best[k]]
    requires forall i: nat :: i < |cast| && PlaysIn(cast[i], id, cast[i].personId) && cast[i].personId != "" ==> i in at
    ensures BestBilledOf(cast, id, at, top)
  {
    forall k | 0 <= k < |at| ensures IsMemberOf(cast, id, at[k], members[best[k]]) && Counts(members[best[k]]) {
    }
    forall j, k | 0 <= j < k < |at| ensures BilledBefore(cast[at[j]].sortOrder, at[j], cast[at[k]].sortOrder, at[k]) {
      assert BilledBefore(members[best[j]].sortOrder, best[j], members[best[k]].sortOrder, best[k]);
    }
  }

  /** A title is loaded exactly when it is stored, with the type of the row with its id. */
  lemma {:induction false} KindOfIs(titles: seq<Title>, id: Id)
    ensures KindOf(titles, id).None? <==> forall title :: title in titles ==> title.id != id
    ensures KindOf(titles, id).Some? ==> Title(id, KindOf(titles, id).value) in titles
  {
    if titles != [] {
      KindOfIs(titles[1..], id);
      assert titles == [titles[0]] + titles[1..];
    }
  }
}
