/**
 "More like this": a union of trait rows, grouped and scored in SQL, against a formula for one title; the ranking and its
 pages; and the batch fetch put back in rank order.
 */
module SimilarTitles {
  import opened SourceTraits
  import opened Text
  import Ordering

  datatype TraitKind = Collection | Genre | Keyword | Director | Cast

  datatype TraitRow = TraitRow(titleId: Id, kind: TraitKind)

  // ----- the trait union

  /** `WHERE trait IN (...)`: one title for each matching row. */
  function Matches(links: seq<Link>, ids: seq<Id>): seq<Id> {
    if links == [] then []
    else
      var last := links[|links| - 1];
      Matches(links[..|links| - 1], ids) + if last.traitId in ids then [last.titleId] else []
  }

  /** `SELECT DISTINCT`. */
  function Distinct(titles: seq<Id>): seq<Id> {
    if titles == [] then []
    else
      var rest, last := titles[..|titles| - 1], titles[|titles| - 1];
      if last in rest then Distinct(rest) else Distinct(rest) + [last]
  }

  function DirectorLinks(crew: seq<CrewRow>): seq<Link> {
    if crew == [] then []
    else
      var last := crew[|crew| - 1];
      DirectorLinks(crew[..|crew| - 1]) + if last.isDirector then [Link(last.titleId, last.personId)] else []
  }

  function CastLinks(cast: seq<CastRow>): seq<Link> {
    seq(|cast|, i requires 0 <= i < |cast| => Link(cast[i].titleId, cast[i].personId))
  }

  function Tagged(titles: seq<Id>, kind: TraitKind): seq<TraitRow> {
    seq(|titles|, i requires 0 <= i < |titles| => TraitRow(titles[i], kind))
  }

  predicate NoTraits(traits: Traits) {
    && traits.collectionIds == [] && traits.genreIds == [] && traits.keywordIds == [] && traits.directors == []
    && traits.topCast == []
  }

  /** `buildTraitUnion`: collections and directors once for each title, the other traits once for each row. */
  function TraitUnion(catalog: Catalog, traits: Traits): seq<TraitRow> {
    Tagged(Distinct(Matches(catalog.collections, traits.collectionIds)), Collection)
      + Tagged(Matches(catalog.genres, traits.genreIds), Genre)
      + Tagged(Matches(catalog.keywords, traits.keywordIds), Keyword)
      + Tagged(Distinct(Matches(DirectorLinks(catalog.crew), traits.directors)), Director)
      + Tagged(Matches(CastLinks(catalog.cast), traits.topCast), Cast)
  }

  // ----- the grouped score

  function KindWeight(kind: TraitKind): int {
    match kind
    case Genre => 30
    case Keyword => 12
    case Cast => 15
    case _ => 0
  }

  /** The `SUM(CASE ...)` over the rows of a title. */
  function SumOfWeights(rows: seq<TraitRow>, title: Id): int {
    if rows == [] then 0
    else
      var last := rows[|rows| - 1];
      SumOfWeights(rows[..|rows| - 1], title) + if last.titleId == title then KindWeight(last.kind) else 0
  }

  /** `buildScoresCte` for the group of one title. */
  function GroupScore(rows: seq<TraitRow>, title: Id): int {
    SumOfWeights(rows, title)
      + (if TraitRow(title, Collection) in rows then -100 else 0)
      + (if TraitRow(title, Director) in rows then 80 else 0)
  }

  predicate Grouped(rows: seq<TraitRow>, title: Id) {
    exists row :: row in rows && row.titleId == title
  }

  // ----- the formula

  function SharedRows(links: seq<Link>, ids: seq<Id>, title: Id): set<nat> {
    set i: nat | i < |links| && links[i].titleId == title && links[i].traitId in ids
  }

  predicate SharesCollection(catalog: Catalog, traits: Traits, title: Id) {
    exists link :: link in catalog.collections && link.titleId == title && link.traitId in traits.collectionIds
  }

  predicate SharesDirector(catalog: Catalog, traits: Traits, title: Id) {
    exists row :: row in catalog.crew && row.titleId == title && row.isDirector && row.personId in traits.directors
  }

  /** The score of a title: 30 a shared genre, 12 a keyword, 15 a cast row, 100 off for a shared collection, 80 for a director. */
  function Formula(catalog: Catalog, traits: Traits, title: Id): int {
    30 * |SharedRows(catalog.genres, traits.genreIds, title)|
      + 12 * |SharedRows(catalog.keywords, traits.keywordIds, title)|
      + 15 * |SharedRows(CastLinks(catalog.cast), traits.topCast, title)|
      - (if SharesCollection(catalog, traits, title) then 100 else 0)
      + (if SharesDirector(catalog, traits, title) then 80 else 0)
  }

  lemma {:induction false} SumAppends(a: seq<TraitRow>, b: seq<TraitRow>, title: Id)
    ensures SumOfWeights(a + b, title) == SumOfWeights(a, title) + SumOfWeights(b, title)
  {
    if b == [] {
      assert a + b == a;
    } else {
      assert (a + b)[..|a + b| - 1] == a + b[..|b| - 1];
      SumAppends(a, b[..|b| - 1], title);
    }
  }

  function Occurrences(titles: seq<Id>, title: Id): nat {
    if titles == [] then 0
    else Occurrences(titles[..|titles| - 1], title) + if titles[|titles| - 1] == title then 1 else 0
  }

  lemma {:induction false} TagsWeigh(titles: seq<Id>, kind: TraitKind, title: Id)
    ensures SumOfWeights(Tagged(titles, kind), title) == KindWeight(kind) * Occurrences(titles, title)
  {
    if titles == [] {
      assert Tagged(titles, kind) == [];
    } else {
      TagsWeigh(titles[..|titles| - 1], kind, title);
      assert Tagged(titles, kind)[..|titles| - 1] == Tagged(titles[..|titles| - 1], kind);
      OneMoreTimes(KindWeight(kind), Occurrences(titles[..|titles| - 1], title));
    }
  }

  lemma OneMoreTimes(weight: int, n: nat)
    ensures weight * (n + 1) == weight * n + weight
  {
  }

  lemma OneMoreRow(links: seq<Link>, ids: seq<Id>, title: Id)
    requires links != []
    ensures var rest, last := links[..|links| - 1], links[|links| - 1];
      |SharedRows(links, ids, title)| == |SharedRows(rest, ids, title)| + if last.titleId == title && last.traitId in ids then 1 else 0
  {
    var rest, last := links[..|links| - 1], links[|links| - 1];
    assert SharedRows(links, ids, title)
        == SharedRows(rest, ids, title) + if last.titleId == title && last.traitId in ids then {|rest|} else {};
  }

  lemma {:induction false} MatchesOccur(links: seq<Link>, ids: seq<Id>, title: Id)
    ensures Occurrences(Matches(links, ids), title) == |SharedRows(links, ids, title)|
  {
    if links == [] {
      assert SharedRows(links, ids, title) == {};
    } else {
      var rest, last := links[..|links| - 1], links[|links| - 1];
      MatchesOccur(rest, ids, title);
      OneMoreRow(links, ids, title);
      if last.traitId in ids {
        var matches := Matches(rest, ids);
        assert (matches + [last.titleId])[..|matches|] == matches;
      } else {
        assert Matches(links, ids) == Matches(rest, ids) + [];
        assert Matches(rest, ids) + [] == Matches(rest, ids);
      }
    }
  }

  lemma TaggedMatchesWeigh(links: seq<Link>, ids: seq<Id>, kind: TraitKind, title: Id)
    ensures SumOfWeights(Tagged(Matches(links, ids), kind), title) == KindWeight(kind) * |SharedRows(links, ids, title)|
  {
    TagsWeigh(Matches(links, ids), kind, title);
    MatchesOccur(links, ids, title);
  }

  lemma {:induction false} UnweightedTags(titles: seq<Id>, kind: TraitKind, title: Id)
    requires KindWeight(kind) == 0
    ensures SumOfWeights(Tagged(titles, kind), title) == 0
  {
    if titles != [] {
      UnweightedTags(titles[..|titles| - 1], kind, title);
      assert Tagged(titles, kind)[..|titles| - 1] == Tagged(titles[..|titles| - 1], kind);
    }
  }

  lemma {:induction false} MatchesAre(links: seq<Link>, ids: seq<Id>, title: Id)
    ensures title in Matches(links, ids) <==> exists link :: link in links && link.titleId == title && link.traitId in ids
  {
    if links != [] {
      var rest, last := links[..|links| - 1], links[|links| - 1];
      MatchesAre(rest, ids, title);
      assert links == rest + [last];
      if exists link :: link in links && link.titleId == title && link.traitId in ids {
        var link :| link in links && link.titleId == title && link.traitId in ids;
        assert link in rest || link == last;
      }
      if exists link :: link in rest && link.titleId == title && link.traitId in ids {
        var link :| link in rest && link.titleId == title && link.traitId in ids;
        assert link in links;
      }
      if last.titleId == title && last.traitId in ids { assert last in links; }
    }
  }

  lemma {:induction false} DistinctKeeps(titles: seq<Id>, title: Id)
    ensures title in Distinct(titles) <==> title in titles
  {
    if titles != [] {
      DistinctKeeps(titles[..|titles| - 1], title);
      assert titles == titles[..|titles| - 1] + [titles[|titles| - 1]];
    }
  }

  lemma TaggedAre(titles: seq<Id>, kind: TraitKind, row: TraitRow)
    ensures row in Tagged(titles, kind) <==> row.kind == kind && row.titleId in titles
  {
    if row.kind == kind && row.titleId in titles {
      var i :| 0 <= i < |titles| && titles[i] == row.titleId;
      assert Tagged(titles, kind)[i] == row;
    }
  }

  lemma {:induction false} DirectorLinksAre(crew: seq<CrewRow>, link: Link)
    ensures link in DirectorLinks(crew) <==> CrewRow(link.titleId, link.traitId, true) in crew
  {
    if crew != [] {
      DirectorLinksAre(crew[..|crew| - 1], link);
      assert crew == crew[..|crew| - 1] + [crew[|crew| - 1]];
    }
  }

  lemma DirectorMatches(catalog: Catalog, traits: Traits, title: Id)
    ensures title in Matches(DirectorLinks(catalog.crew), traits.directors) <==> SharesDirector(catalog, traits, title)
  {
    var links := DirectorLinks(catalog.crew);
    MatchesAre(links, traits.directors, title);
    if SharesDirector(catalog, traits, title) {
      var row :| row in catalog.crew && row.titleId == title && row.isDirector && row.personId in traits.directors;
      DirectorLinksAre(catalog.crew, Link(title, row.personId));
      assert Link(title, row.personId) in links;
    }
    if exists link :: link in links && link.titleId == title && link.traitId in traits.directors {
      var link :| link in links && link.titleId == title && link.traitId in traits.directors;
      DirectorLinksAre(catalog.crew, link);
    }
  }

  /** Which titles the union has a row of a kind for. */
  function TitlesOf(catalog: Catalog, traits: Traits, kind: TraitKind): seq<Id> {
    match kind
    case Collection => Distinct(Matches(catalog.collections, traits.collectionIds))
    case Genre => Matches(catalog.genres, traits.genreIds)
    case Keyword => Matches(catalog.keywords, traits.keywordIds)
    case Director => Distinct(Matches(DirectorLinks(catalog.crew), traits.directors))
    case Cast => Matches(CastLinks(catalog.cast), traits.topCast)
  }

  lemma UnionHas(catalog: Catalog, traits: Traits, row: TraitRow)
    ensures row in TraitUnion(catalog, traits) <==> row.titleId in TitlesOf(catalog, traits, row.kind)
  {
    TaggedAre(TitlesOf(catalog, traits, Collection), Collection, row);
    TaggedAre(TitlesOf(catalog, traits, Genre), Genre, row);
    TaggedAre(TitlesOf(catalog, traits, Keyword), Keyword, row);
    TaggedAre(TitlesOf(catalog, traits, Director), Director, row);
    TaggedAre(TitlesOf(catalog, traits, Cast), Cast, row);
  }

  /** The grouped SQL score of a title is the formula. */
  lemma ScoreIsFormula(catalog: Catalog, traits: Traits, title: Id)
    ensures GroupScore(TraitUnion(catalog, traits), title) == Formula(catalog, traits, title)
  {
    var a, b := Tagged(TitlesOf(catalog, traits, Collection), Collection), Tagged(TitlesOf(catalog, traits, Genre), Genre);
    var c, d := Tagged(TitlesOf(catalog, traits, Keyword), Keyword), Tagged(TitlesOf(catalog, traits, Director), Director);
    var e := Tagged(TitlesOf(catalog, traits, Cast), Cast);
    SumAppends(a + b + c + d, e, title);
    SumAppends(a + b + c, d, title);
    SumAppends(a + b, c, title);
    SumAppends(a, b, title);
    UnweightedTags(TitlesOf(catalog, traits, Collection), Collection, title);
    UnweightedTags(TitlesOf(catalog, traits, Director), Director, title);
    TaggedMatchesWeigh(catalog.genres, traits.genreIds, Genre, title);
    TaggedMatchesWeigh(catalog.keywords, traits.keywordIds, Keyword, title);
    TaggedMatchesWeigh(CastLinks(catalog.cast), traits.topCast, Cast, title);
    UnionHas(catalog, traits, TraitRow(title, Collection));
    UnionHas(catalog, traits, TraitRow(title, Director));
    DistinctKeeps(Matches(catalog.collections, traits.collectionIds), title);
    DistinctKeeps(Matches(DirectorLinks(catalog.crew), traits.directors), title);
    MatchesAre(catalog.collections, traits.collectionIds, title);
    DirectorMatches(catalog, traits, title);
  }

  predicate SharesKind(catalog: Catalog, traits: Traits, title: Id, kind: TraitKind) {
    match kind
    case Collection => SharesCollection(catalog, traits, title)
    case Genre => SharedRows(catalog.genres, traits.genreIds, title) != {}
    case Keyword => SharedRows(catalog.keywords, traits.keywordIds, title) != {}
    case Director => SharesDirector(catalog, traits, title)
    case Cast => SharedRows(CastLinks(catalog.cast), traits.topCast, title) != {}
  }

  lemma SharedRowsAre(links: seq<Link>, ids: seq<Id>, title: Id)
    ensures SharedRows(links, ids, title) != {} <==> title in Matches(links, ids)
  {
    MatchesAre(links, ids, title);
    if SharedRows(links, ids, title) != {} {
      var i :| i in SharedRows(links, ids, title);
      assert links[i] in links;
    }
    if exists link :: link in links && link.titleId == title && link.traitId in ids {
      var link :| link in links && link.titleId == title && link.traitId in ids;
      var i: nat :| i < |links| && links[i] == link;
      assert i in SharedRows(links, ids, title);
    }
  }

  lemma KindIsShared(catalog: Catalog, traits: Traits, title: Id, kind: TraitKind)
    ensures TraitRow(title, kind) in TraitUnion(catalog, traits) <==> SharesKind(catalog, traits, title, kind)
  {
    UnionHas(catalog, traits, TraitRow(title, kind));
    match kind
    case Collection =>
      DistinctKeeps(Matches(catalog.collections, traits.collectionIds), title);
      MatchesAre(catalog.collections, traits.collectionIds, title);
    case Genre => SharedRowsAre(catalog.genres, traits.genreIds, title);
    case Keyword => SharedRowsAre(catalog.keywords, traits.keywordIds, title);
    case Director =>
      DistinctKeeps(Matches(DirectorLinks(catalog.crew), traits.directors), title);
      DirectorMatches(catalog, traits, title);
    case Cast => SharedRowsAre(CastLinks(catalog.cast), traits.topCast, title);
  }

  /** A title has a score exactly when it shares a trait with the source. */
  lemma GroupedIffShared(catalog: Catalog, traits: Traits, title: Id)
    ensures Grouped(TraitUnion(catalog, traits), title) <==> exists kind :: SharesKind(catalog, traits, title, kind)
  {
    var rows := TraitUnion(catalog, traits);
    if Grouped(rows, title) {
      var row :| row in rows && row.titleId == title;
      assert row == TraitRow(title, row.kind);
      KindIsShared(catalog, traits, title, row.kind);
    }
    if kind :| SharesKind(catalog, traits, title, kind) {
      KindIsShared(catalog, traits, title, kind);
      assert TraitRow(title, kind).titleId == title;
    }
  }

  // ----- the ranking

  datatype Source = Source(metadataId: Id, kind: Option<string>, traits: Traits)

  /** What a title is compared by: its type, and the traits collected from its rows. */
  function SourceOf(metadataId: Id, rows: SourceRows): Source {
    Source(metadataId, rows.kind, TraitsOf(rows))
  }

  datatype Ranked = Ranked(id: Id, score: int)

  function TypeScore(kind: Option<string>): int {
    if kind.Some? && kind.value != "" then 50 else 0
  }

  predicate TypeFits(kind: Option<string>, title: Title) {
    kind.Some? && kind.value != "" ==> title.kind == kind
  }

  /** The rows both queries rank: with traits the scored titles, without any every title of the type. */
  predicate IsCandidate(catalog: Catalog, source: Source, title: Title) {
    title.id != source.metadataId && TypeFits(source.kind, title)
      && (NoTraits(source.traits) || Grouped(TraitUnion(catalog, source.traits), title.id))
  }

  function Score(catalog: Catalog, source: Source, title: Id): int {
    TypeScore(source.kind) + if NoTraits(source.traits) then 0 else GroupScore(TraitUnion(catalog, source.traits), title)
  }

  function Candidates(catalog: Catalog, source: Source, titles: seq<Title>): seq<Ranked> {
    if titles == [] then []
    else
      var last := titles[|titles| - 1];
      Candidates(catalog, source, titles[..|titles| - 1])
        + if IsCandidate(catalog, source, last) then [Ranked(last.id, Score(catalog, source, last.id))] else []
  }

  /** `ORDER BY score DESC, id DESC`. */
  predicate RankAtMost(a: Ranked, b: Ranked) {
    a.score > b.score || (a.score == b.score && Ordering.TextAtMost(b.id, a.id))
  }

  lemma RankIsTotal()
    ensures Ordering.TotalPreorder(RankAtMost)
  {
    forall a, b ensures RankAtMost(a, b) || RankAtMost(b, a) {
      Ordering.TextIsTotal(a.id, b.id);
    }
    forall a, b, c | RankAtMost(a, b) && RankAtMost(b, c) ensures RankAtMost(a, c) {
      if a.score == b.score == c.score { Ordering.TextIsTransitive(c.id, b.id, a.id); }
    }
  }

  /** (score, id) tells any two rows apart. */
  lemma RankIsStrict(rows: seq<Ranked>)
    ensures Ordering.Strict(RankAtMost, rows)
  {
    forall x | x in rows ensures RankAtMost(x, x) {
      Ordering.TextIsTotal(x.id, x.id);
    }
    forall x, y | x in rows && y in rows && Ordering.Tied(RankAtMost, x, y) ensures x == y {
      Ordering.TextIsTotal(x.id, y.id);
    }
  }

  function Ranking(catalog: Catalog, source: Source): seq<Ranked> {
    Ordering.ToSorted(RankAtMost, Candidates(catalog, source, catalog.titles))
  }

  /** However the rows come out of the table, there is one way to rank them. */
  lemma RankingIsUnique(catalog: Catalog, source: Source, rows: seq<Ranked>)
    requires multiset(rows) == multiset(Candidates(catalog, source, catalog.titles)) && Ordering.Sorted(RankAtMost, rows)
    ensures rows == Ranking(catalog, source)
  {
    var candidates := Candidates(catalog, source, catalog.titles);
    RankIsTotal();
    RankIsStrict(rows);
    Ordering.SortSorts(RankAtMost, candidates);
    Ordering.SortKeepsEntries(RankAtMost, candidates);
    Ordering.SortedIsUnique(RankAtMost, rows, Ranking(catalog, source));
  }

  /** A higher score comes first; at equal scores the id that is later in the order of text does. */
  lemma RankingIsOrdered(catalog: Catalog, source: Source, i: nat, j: nat)
    requires DistinctTitles(catalog.titles) && i < j < |Ranking(catalog, source)|
    ensures var ranking := Ranking(catalog, source);
      ranking[i].score > ranking[j].score
      || (ranking[i].score == ranking[j].score && Ordering.TextBefore(ranking[j].id, ranking[i].id))
  {
    var ranking := Ranking(catalog, source);
    RankIsTotal();
    Ordering.SortSorts(RankAtMost, Candidates(catalog, source, catalog.titles));
    RankingHasNoRepeats(catalog, source, i, j);
    Ordering.TextOrderIsExact(ranking[j].id, ranking[i].id);
  }

  predicate RanksAs(catalog: Catalog, source: Source, title: Title, row: Ranked) {
    IsCandidate(catalog, source, title) && row == Ranked(title.id, Score(catalog, source, title.id))
  }

  lemma {:induction false} CandidatesAre(catalog: Catalog, source: Source, titles: seq<Title>, row: Ranked)
    ensures row in Candidates(catalog, source, titles) <==> exists title :: title in titles && RanksAs(catalog, source, title, row)
  {
    if titles != [] {
      var rest, last := titles[..|titles| - 1], titles[|titles| - 1];
      CandidatesAre(catalog, source, rest, row);
      assert titles == rest + [last];
      if title :| title in titles && RanksAs(catalog, source, title, row) {
        assert title in rest || title == last;
      }
      if row in Candidates(catalog, source, rest) {
        var title :| title in rest && RanksAs(catalog, source, title, row);
        assert title in titles;
      }
      if RanksAs(catalog, source, last, row) { assert last in titles; }
    }
  }

  predicate Untyped(source: Source) {
    source.kind.None? || |source.kind.value| == 0
  }

  /**
   Another title of the source's type, if it has one, scored by the formula and 50 for the type: one that shares a trait, or
   any when the source has no traits, for which the formula gives nothing.
   */
  predicate Recommends(catalog: Catalog, source: Source, title: Title, row: Ranked) {
    && title.id != source.metadataId
    && (Untyped(source) || title.kind == source.kind)
    && (NoTraits(source.traits) || exists kind :: SharesKind(catalog, source.traits, title.id, kind))
    && row.id == title.id
    && row.score == Formula(catalog, source.traits, title.id) + if Untyped(source) then 0 else 50
  }

  lemma NothingShared(catalog: Catalog, traits: Traits, title: Id)
    requires NoTraits(traits)
    ensures Formula(catalog, traits, title) == 0
  {
    assert SharedRows(catalog.genres, [], title) == {} && SharedRows(catalog.keywords, [], title) == {};
    assert SharedRows(CastLinks(catalog.cast), [], title) == {};
  }

  lemma RanksByFormula(catalog: Catalog, source: Source, title: Title, row: Ranked)
    ensures RanksAs(catalog, source, title, row) <==> Recommends(catalog, source, title, row)
  {
    if NoTraits(source.traits) { NothingShared(catalog, source.traits, title.id); }
    ScoreIsFormula(catalog, source.traits, title.id);
    GroupedIffShared(catalog, source.traits, title.id);
  }

  ghost predicate SomeTitleRecommends(catalog: Catalog, source: Source, row: Ranked) {
    exists title :: title in catalog.titles && Recommends(catalog, source, title, row)
  }

  /** The grouped query, or the query without traits, ranks exactly what the formula recommends. */
  lemma RankingIsByFormula(catalog: Catalog, source: Source, row: Ranked)
    ensures row in Ranking(catalog, source) <==> SomeTitleRecommends(catalog, source, row)
  {
    CandidatesAre(catalog, source, catalog.titles, row);
    Ordering.SortKeepsEntries(RankAtMost, Candidates(catalog, source, catalog.titles));
    forall title ensures RanksAs(catalog, source, title, row) <==> Recommends(catalog, source, title, row) {
      RanksByFormula(catalog, source, title, row);
    }
    if title :| title in catalog.titles && RanksAs(catalog, source, title, row) {
      assert Recommends(catalog, source, title, row);
    }
  }

  predicate DistinctTitles(titles: seq<Title>) {
    forall i, j :: 0 <= i < j < |titles| ==> titles[i].id != titles[j].id
  }

  lemma {:induction false} CandidatesOnce(catalog: Catalog, source: Source, titles: seq<Title>, row: Ranked)
    requires DistinctTitles(titles)
    ensures multiset(Candidates(catalog, source, titles))[row] <= 1
  {
    if titles != [] {
      var rest, last := titles[..|titles| - 1], titles[|titles| - 1];
      CandidatesOnce(catalog, source, rest, row);
      CandidatesAre(catalog, source, rest, row);
      if RanksAs(catalog, source, last, row) {
        forall title | title in rest ensures title.id != last.id {
          var i :| 0 <= i < |rest| && rest[i] == title;
          assert titles[i].id != titles[|titles| - 1].id;
        }
        assert row !in Candidates(catalog, source, rest);
      }
    }
  }

  lemma TwoPlaces(rows: seq<Ranked>, i: nat, j: nat)
    requires i < j < |rows| && rows[i] == rows[j]
    ensures multiset(rows)[rows[i]] >= 2
  {
    assert rows == rows[..j] + [rows[j]] + rows[j + 1..];
    assert rows[..j][i] == rows[i];
    assert rows[i] in multiset(rows[..j]);
  }

  /** No title is ranked twice. */
  lemma RankingHasNoRepeats(catalog: Catalog, source: Source, i: nat, j: nat)
    requires DistinctTitles(catalog.titles) && i < j < |Ranking(catalog, source)|
    ensures Ranking(catalog, source)[i].id != Ranking(catalog, source)[j].id
  {
    var ranking, candidates := Ranking(catalog, source), Candidates(catalog, source, catalog.titles);
    Ordering.SortKeepsEntries(RankAtMost, candidates);
    CandidatesAre(catalog, source, catalog.titles, ranking[i]);
    CandidatesAre(catalog, source, catalog.titles, ranking[j]);
    CandidatesOnce(catalog, source, catalog.titles, ranking[i]);
    if ranking[i] == ranking[j] { TwoPlaces(ranking, i, j); }
  }

  // ----- pages

  datatype RankedRow = RankedRow(row: Ranked, total: nat)

  datatype Page = Page(ids: seq<Id>, total: nat)

  /** `LIMIT n OFFSET offset`. */
  function Window<T>(rows: seq<T>, offset: nat, n: nat): seq<T> {
    if offset >= |rows| then [] else if offset + n >= |rows| then rows[offset..] else rows[offset..offset + n]
  }

  function Ids(rows: seq<Ranked>): (ids: seq<Id>)
    ensures |ids| == |rows|
  {
    seq(|rows|, i requires 0 <= i < |rows| => rows[i].id)
  }

  /** One row more than the page, each with the count of all rows: `readScoredRows` and `readFallbackRows`. */
  function ReadRows(ranking: seq<Ranked>, limit: nat, offset: nat): seq<RankedRow> {
    var rows := Window(ranking, offset, limit + 1);
    seq(|rows|, i requires 0 <= i < |rows| => RankedRow(rows[i], |ranking|))
  }

  function PageOf(ranking: seq<Ranked>, limit: nat, offset: nat): Page {
    Page(Ids(Window(ranking, offset, limit)), |ranking|)
  }

  method PageIds(rows: seq<RankedRow>, limit: nat) returns (ids: seq<Id>)
    ensures |ids| == if |rows| > limit then limit else |rows|
    ensures forall i :: 0 <= i < |ids| ==> ids[i] == rows[i].row.id
  {
    var kept := if |rows| > limit then rows[..limit] else rows;
    ids := seq(|kept|, i requires 0 <= i < |kept| => kept[i].row.id);
  }

  /** `rankSimilarIds`: the page of the ranking, and the number of candidates whatever the offset. */
  method RankSimilarIds(catalog: Catalog, metadataId: Id, rows: SourceRows, limit: nat, offset: nat) returns (page: Page)
    ensures page == PageOf(Ranking(catalog, SourceOf(metadataId, rows)), limit, offset)
  {
    var traits := CollectSimilarityTraits(rows);
    page := RankByTraits(catalog, Source(metadataId, rows.kind, traits), limit, offset);
  }

  method RankByTraits(catalog: Catalog, source: Source, limit: nat, offset: nat) returns (page: Page)
    ensures page == PageOf(Ranking(catalog, source), limit, offset)
  {
    var ranking := Ranking(catalog, source);
    var rows := ReadRows(ranking, limit, offset);
    var ids := PageIds(rows, limit);
    assert ids == Ids(Window(ranking, offset, limit));
    if ids == [] && offset > 0 {
      return Page(ids, |ranking|);
    }
    return Page(ids, if rows == [] then 0 else rows[0].total);
  }

  /** The first `n` pages, one after the other. */
  function Pages(ranking: seq<Ranked>, limit: nat, n: nat): seq<Id> {
    if n == 0 then [] else Pages(ranking, limit, n - 1) + PageOf(ranking, limit, (n - 1) * limit).ids
  }

  /** Consecutive pages concatenate to the ranking: no gap, no repeat. */
  lemma {:induction false} PagesConcatenate(ranking: seq<Ranked>, limit: nat, n: nat)
    ensures Pages(ranking, limit, n) == Ids(Window(ranking, 0, n * limit))
  {
    if n > 0 {
      PagesConcatenate(ranking, limit, n - 1);
      OnePageMore(n - 1, limit);
      WindowsJoin(ranking, (n - 1) * limit, limit);
      IdsAppend(Window(ranking, 0, (n - 1) * limit), Window(ranking, (n - 1) * limit, limit));
    }
  }

  /** Enough pages are the whole ranking. */
  lemma AllPages(ranking: seq<Ranked>, limit: nat, n: nat)
    requires n * limit >= |ranking|
    ensures Pages(ranking, limit, n) == Ids(ranking)
  {
    PagesConcatenate(ranking, limit, n);
    WholeWindow(ranking, n * limit);
  }

  lemma WholeWindow(ranking: seq<Ranked>, n: nat)
    requires n >= |ranking|
    ensures Window(ranking, 0, n) == ranking
  {
  }

  lemma OnePageMore(n: nat, limit: nat)
    ensures (n + 1) * limit == n * limit + limit
  {
  }

  lemma WindowsJoin(ranking: seq<Ranked>, seen: nat, limit: nat)
    ensures Window(ranking, 0, seen) + Window(ranking, seen, limit) == Window(ranking, 0, seen + limit)
  {
  }

  lemma IdsAppend(a: seq<Ranked>, b: seq<Ranked>)
    ensures Ids(a) + Ids(b) == Ids(a + b)
  {
  }

  // ----- the batch fetch

  datatype Item = Item(id: Id, body: string)

  predicate HasItem(items: seq<Item>, id: Id) {
    exists item :: item in items && item.id == id
  }

  function ItemOf(items: seq<Item>, id: Id): Option<Item> {
    if items == [] then None
    else if items[|items| - 1].id == id then Some(items[|items| - 1])
    else ItemOf(items[..|items| - 1], id)
  }

  /** The items in the order of the ids, leaving out ids without an item. */
  function Restored(ids: seq<Id>, items: seq<Item>): seq<Item> {
    if ids == [] then []
    else
      var last := ItemOf(items, ids[|ids| - 1]);
      Restored(ids[..|ids| - 1], items) + if last.Some? then [last.value] else []
  }

  /** The `Map` lookup that puts an unordered fetch back in rank order. */
  method RestoreOrder(ids: seq<Id>, items: seq<Item>) returns (data: seq<Item>)
    ensures data == Restored(ids, items)
  {
    var byId: map<Id, Item> := map[];
    for i := 0 to |items|
      invariant forall id :: (if id in byId then Some(byId[id]) else None) == ItemOf(items[..i], id)
    {
      assert items[..i + 1][..i] == items[..i];
      byId := byId[items[i].id := items[i]];
    }
    assert items[..|items|] == items;
    data := [];
    for i := 0 to |ids|
      invariant data == Restored(ids[..i], items)
    {
      assert ids[..i + 1][..i] == ids[..i];
      assert (if ids[i] in byId then Some(byId[ids[i]]) else None) == ItemOf(items, ids[i]);
      if ids[i] in byId { data := data + [byId[ids[i]]]; }
    }
    assert ids[..|ids|] == ids;
  }

  lemma {:induction false} ItemOfIsIn(items: seq<Item>, id: Id)
    ensures ItemOf(items, id).Some? <==> HasItem(items, id)
    ensures ItemOf(items, id).Some? ==> ItemOf(items, id).value in items && ItemOf(items, id).value.id == id
  {
    if items != [] {
      var rest, last := items[..|items| - 1], items[|items| - 1];
      ItemOfIsIn(rest, id);
      assert items == rest + [last];
      if item :| item in items && item.id == id {
        assert item in rest || item == last;
      }
      if last.id == id { assert last in items; }
    }
  }

  /** When the fetch returns one item for every id, the data is the page in rank order, whatever order the fetch had. */
  lemma {:induction false} RankOrderIsRestored(ids: seq<Id>, items: seq<Item>)
    requires forall id :: id in ids ==> HasItem(items, id)
    ensures |Restored(ids, items)| == |ids|
    ensures forall i :: 0 <= i < |ids| ==> Restored(ids, items)[i].id == ids[i] && Restored(ids, items)[i] in items
  {
    if ids != [] {
      RankOrderIsRestored(ids[..|ids| - 1], items);
      assert HasItem(items, ids[|ids| - 1]);
      ItemOfIsIn(items, ids[|ids| - 1]);
      assert Restored(ids, items) == Restored(ids[..|ids| - 1], items) + [ItemOf(items, ids[|ids| - 1]).value];
    }
  }

  // ----- the page cache

  datatype PageKey = PageKey(metadataId: Id, limit: nat, offset: nat)

  /** The page a fresh computation gives: nothing for a title that is not stored. */
  function FreshPage(catalog: Catalog, metadataId: Id, given: Option<SourceRows>, limit: nat, offset: nat): Page {
    var rows := if given.Some? then given else LoadOf(catalog, metadataId);
    if rows.None? then Page([], 0) else PageOf(Ranking(catalog, SourceOf(metadataId, rows.value)), limit, offset)
  }

  /** `page` is the window of a ranking with the size of the whole ranking. */
  predicate IsPageOf(page: Page, ranking: seq<Ranked>, limit: nat, offset: nat) {
    && page.total == |ranking|
    && |page.ids| == (if offset >= |ranking| then 0 else if |ranking| - offset <= limit then |ranking| - offset else limit)
    && forall i :: 0 <= i < |page.ids| ==> page.ids[i] == ranking[offset + i].id
  }

  /** Rows handed in are ranked as they are; else those of the stored title, and an unknown title has an empty page. */
  lemma FreshPageIs(catalog: Catalog, metadataId: Id, given: Option<SourceRows>, limit: nat, offset: nat)
    ensures var page, stored := FreshPage(catalog, metadataId, given, limit, offset), LoadOf(catalog, metadataId);
      match (given, stored)
      case (Some(rows), _) => IsPageOf(page, Ranking(catalog, SourceOf(metadataId, rows)), limit, offset)
      case (None, Some(rows)) => IsPageOf(page, Ranking(catalog, SourceOf(metadataId, rows)), limit, offset)
      case (None, None) => page.ids == [] && page.total == 0
  {
  }

  class SimilarReader {
    var catalog: Catalog
    var cache: map<PageKey, Page>
    /** The catalogs in force since the cache was last cleared, the current one last. */
    ghost var recent: seq<Catalog>

    ghost predicate FreshSome(page: Page, key: PageKey)
      reads this
    {
      exists c :: c in recent && page == FreshPage(c, key.metadataId, None, key.limit, key.offset)
    }

    /** Every cached page is what a fresh computation gave on some catalog since the cache was cleared. */
    ghost predicate Coherent()
      reads this
    {
      && recent != [] && recent[|recent| - 1] == catalog
      && forall key :: key in cache ==> FreshSome(cache[key], key)
    }

    constructor (catalog: Catalog)
      ensures Coherent() && this.catalog == catalog && recent == [catalog]
    {
      this.catalog, cache, recent := catalog, map[], [catalog];
    }

    /** A metadata write; most go on to `clearSimilarIdsCache`, the others leave the pages until they expire. */
    method Write(catalog: Catalog, clears: bool)
      requires Coherent()
      modifies this
      ensures Coherent() && this.catalog == catalog
      ensures recent == if clears then [catalog] else old(recent) + [catalog]
    {
      ghost var before := recent;
      this.catalog := catalog;
      if clears {
        cache, recent := map[], [catalog];
      } else {
        recent := recent + [catalog];
        forall key | key in cache ensures FreshSome(cache[key], key) {
          var c :| c in before && cache[key] == FreshPage(c, key.metadataId, None, key.limit, key.offset);
          assert c in recent;
        }
      }
    }

    /**
     The ranked page of `getMoreLikeThis`, for a stored title or for rows handed in. Cached or not, it is the fresh page on
     a catalog in force since the cache was cleared: the current one, if every write since has cleared it.
     */
    method FindPage(metadataId: Id, given: Option<SourceRows>, limit: nat, offset: nat) returns (page: Page)
      requires Coherent()
      modifies this`cache
      ensures Coherent()
      ensures given.None? ==> FreshSome(page, PageKey(metadataId, limit, offset))
      ensures given.Some? || |recent| == 1 ==> page == FreshPage(catalog, metadataId, given, limit, offset)
    {
      var key := PageKey(metadataId, limit, offset);
      if given.None? && key in cache { return cache[key]; }
      var rows := given;
      if rows.None? {
        rows := LoadSourceTraits(catalog, metadataId);
        if rows.None? {
          CurrentIsFresh(Page([], 0), key);
          return Page([], 0);
        }
      }
      page := RankSimilarIds(catalog, metadataId, rows.value, limit, offset);
      if given.None? {
        CurrentIsFresh(page, key);
        Remember(key, page);
      }
    }

    lemma CurrentIsFresh(page: Page, key: PageKey)
      requires recent != [] && recent[|recent| - 1] == catalog
      requires page == FreshPage(catalog, key.metadataId, None, key.limit, key.offset)
      ensures FreshSome(page, key)
    {
      assert catalog in recent;
    }

    method Remember(key: PageKey, page: Page)
      requires Coherent() && FreshSome(page, key)
      modifies this`cache
      ensures Coherent() && cache == old(cache)[key := page]
    {
      cache := cache[key := page];
    }
  }

  // ----- what two stored titles share

  ghost predicate HaveInCommon(links: seq<Link>, a: Id, b: Id) {
    exists t :: !IsBlank(t) && Link(a, t) in links && Link(b, t) in links
  }

  ghost predicate HaveDirectorInCommon(crew: seq<CrewRow>, a: Id, b: Id) {
    exists p :: p != "" && CrewRow(a, p, true) in crew && CrewRow(b, p, true) in crew
  }

  lemma SharedLinksAre(links: seq<Link>, ids: seq<Id>, a: Id, b: Id)
    requires forall t :: t in ids <==> !IsBlank(t) && Link(a, t) in links
    ensures SharedRows(links, ids, b) != {} <==> HaveInCommon(links, a, b)
  {
    SharedRowsAre(links, ids, b);
    MatchesAre(links, ids, b);
    if HaveInCommon(links, a, b) {
      var t :| !IsBlank(t) && Link(a, t) in links && Link(b, t) in links;
      assert Link(b, t).titleId == b && Link(b, t).traitId in ids;
    }
    if link :| link in links && link.titleId == b && link.traitId in ids {
      assert link == Link(b, link.traitId);
    }
  }

  /**
   For a stored title, the shared kinds are the plain relation between the two titles' own rows, both ways round: a
   collection, genre or keyword they both have, or a person who directs both.
   */
  lemma StoredTitlesShare(catalog: Catalog, id: Id, other: Id)
    requires LoadOf(catalog, id).Some?
    ensures var traits := TraitsOf(LoadOf(catalog, id).value);
      && (SharesKind(catalog, traits, other, Collection) <==> HaveInCommon(catalog.collections, id, other))
      && (SharesKind(catalog, traits, other, Genre) <==> HaveInCommon(catalog.genres, id, other))
      && (SharesKind(catalog, traits, other, Keyword) <==> HaveInCommon(catalog.keywords, id, other))
      && (SharesKind(catalog, traits, other, Director) <==> HaveDirectorInCommon(catalog.crew, id, other))
  {
    var traits := TraitsOf(LoadOf(catalog, id).value);
    forall t ensures t in traits.collectionIds <==> !IsBlank(t) && Link(id, t) in catalog.collections {
      LoadedTraitsAre(catalog, id, t);
    }
    forall t ensures t in traits.genreIds <==> !IsBlank(t) && Link(id, t) in catalog.genres {
      LoadedTraitsAre(catalog, id, t);
    }
    forall t ensures t in traits.keywordIds <==> !IsBlank(t) && Link(id, t) in catalog.keywords {
      LoadedTraitsAre(catalog, id, t);
    }
    forall t ensures t in traits.directors <==> t != "" && CrewRow(id, t, true) in catalog.crew {
      LoadedTraitsAre(catalog, id, t);
    }
    SharedLinksAre(catalog.collections, traits.collectionIds, id, other);
    SharedLinksAre(catalog.genres, traits.genreIds, id, other);
    SharedLinksAre(catalog.keywords, traits.keywordIds, id, other);
    CollectionRowsAre(catalog, traits, other);
    DirectorsInCommon(catalog, traits, id, other);
  }

  lemma CollectionRowsAre(catalog: Catalog, traits: Traits, title: Id)
    ensures SharesCollection(catalog, traits, title) <==> SharedRows(catalog.collections, traits.collectionIds, title) != {}
  {
    SharedRowsAre(catalog.collections, traits.collectionIds, title);
    MatchesAre(catalog.collections, traits.collectionIds, title);
  }

  lemma DirectorsInCommon(catalog: Catalog, traits: Traits, a: Id, b: Id)
    requires forall p :: p in traits.directors <==> p != "" && CrewRow(a, p, true) in catalog.crew
    ensures SharesDirector(catalog, traits, b) <==> HaveDirectorInCommon(catalog.crew, a, b)
  {
    if row :| row in catalog.crew && row.titleId == b && row.isDirector && row.personId in traits.directors {
      assert row == CrewRow(b, row.personId, true);
    }
    if HaveDirectorInCommon(catalog.crew, a, b) {
      var p :| p != "" && CrewRow(a, p, true) in catalog.crew && CrewRow(b, p, true) in catalog.crew;
      assert CrewRow(b, p, true).personId in traits.directors;
    }
  }
}
