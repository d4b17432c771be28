/**
 `rematchProviderMetadata`: every title that stands in the way of a new provider identity is folded into the target,
 one merge after the other, then the target takes the provider's values except where fields are locked.
 */
module Rematch {
  import opened Text
  import opened Catalog
  import opened Folding
  import opened TvMerge
  import opened LinkMerge
  import opened TitleMerge
  import opened MergePlanner

  // ----- folding any number of titles

  function Home(targetId: Id, gone: set<Id>, titleId: Id): Id {
    if titleId in gone then targetId else titleId
  }

  /** No two of these titles have files competing for one slot. */
  ghost predicate Apart(db: Tables, titles: set<Id>) {
    forall a, b :: a in titles && b in titles && a != b ==> NoFileClash(db, a, b)
  }

  ghost predicate FileFolded(db: Tables, now: Tables, targetId: Id, gone: set<Id>, was: MediaFile, kept: MediaFile) {
    && kept.path == was.path && kept.isDefault == was.isDefault
    && kept.titleId == Home(targetId, gone, was.titleId)
    && SlotOf(now, kept) == SlotOf(db, was)
    && (was.titleId !in gone ==> kept == was)
  }

  ghost predicate FilesFolded(db: Tables, now: Tables, targetId: Id, gone: set<Id>) {
    && now.files.Keys == db.files.Keys
    && forall f :: f in db.files ==> FileFolded(db, now, targetId, gone, db.files[f], now.files[f])
  }

  /** Every season number and every episode identity of the folded titles is in the target. */
  ghost predicate ContentFolded(db: Tables, now: Tables, targetId: Id, gone: set<Id>) {
    && (forall s :: s in db.seasons ==> HasSeason(now, Home(targetId, gone, db.seasons[s].titleId), db.seasons[s].number))
    && (forall e, t :: EpisodeIn(db, e, t) ==> HasEpisode(now, Home(targetId, gone, t), EpisodeSlotOf(db, e)))
  }

  /** Every link of the folded titles is the target's now, no link is invented, and the target's own values win. */
  ghost predicate LinksFolded(links: map<Link, int>, now: map<Link, int>, targetId: Id, gone: set<Id>) {
    && (forall l :: l in links ==> Link(Home(targetId, gone, l.titleId), l.otherId) in now)
    && (forall l :: l in now ==> l.titleId !in gone && Inherited(links, now[l], l, targetId, gone))
    && (forall l :: l in links && l.titleId !in gone ==> now[l] == links[l])
  }

  ghost predicate Inherited(links: map<Link, int>, value: int, l: Link, targetId: Id, gone: set<Id>) {
    exists t :: Link(t, l.otherId) in links && Home(targetId, gone, t) == l.titleId && links[Link(t, l.otherId)] == value
  }

  ghost predicate FoldedIn(db: Tables, now: Tables, targetId: Id, gone: set<Id>) {
    && now.titles == (map i | i in db.titles && i !in gone :: db.titles[i])
    && FilesFolded(db, now, targetId, gone)
    && ContentFolded(db, now, targetId, gone)
    && LinksFolded(db.watchlist, now.watchlist, targetId, gone)
    && LinksFolded(db.ratings, now.ratings, targetId, gone)
    && LinksFolded(db.memberships, now.memberships, targetId, gone)
    && Integrity(now)
  }

  lemma NothingFolded(db: Tables, targetId: Id)
    requires Integrity(db)
    ensures FoldedIn(db, db, targetId, {})
  {
    forall s | s in db.seasons ensures HasSeason(db, db.seasons[s].titleId, db.seasons[s].number) {
      assert db.seasons[s] == Season(db.seasons[s].titleId, db.seasons[s].number);
    }
    forall l | l in db.watchlist ensures Inherited(db.watchlist, db.watchlist[l], l, targetId, {}) {
      assert Link(l.titleId, l.otherId) in db.watchlist;
    }
    forall l | l in db.ratings ensures Inherited(db.ratings, db.ratings[l], l, targetId, {}) {
      assert Link(l.titleId, l.otherId) in db.ratings;
    }
    forall l | l in db.memberships ensures Inherited(db.memberships, db.memberships[l], l, targetId, {}) {
      assert Link(l.titleId, l.otherId) in db.memberships;
    }
  }

  lemma LinkIsInherited(links: map<Link, int>, mid: map<Link, int>, targetId: Id, gone: set<Id>, sourceId: Id, l: Link)
    requires LinksFolded(links, mid, targetId, gone)
    requires targetId !in gone && sourceId !in gone && sourceId != targetId
    requires l in JoinLinks(mid, targetId, sourceId)
    ensures l.titleId !in gone + {sourceId}
    ensures Inherited(links, JoinLinks(mid, targetId, sourceId)[l], l, targetId, gone + {sourceId})
  {
  }

  lemma LinkIsKept(links: map<Link, int>, mid: map<Link, int>, targetId: Id, gone: set<Id>, sourceId: Id, l: Link)
    requires LinksFolded(links, mid, targetId, gone)
    requires targetId !in gone && sourceId !in gone && sourceId != targetId
    requires l in links
    ensures Link(Home(targetId, gone + {sourceId}, l.titleId), l.otherId) in JoinLinks(mid, targetId, sourceId)
    ensures l.titleId !in gone + {sourceId} ==> JoinLinks(mid, targetId, sourceId)[l] == links[l]
  {
  }

  lemma LinksFoldOneMore(links: map<Link, int>, mid: map<Link, int>, targetId: Id, gone: set<Id>, sourceId: Id)
    requires LinksFolded(links, mid, targetId, gone)
    requires targetId !in gone && sourceId !in gone && sourceId != targetId
    ensures LinksFolded(links, JoinLinks(mid, targetId, sourceId), targetId, gone + {sourceId})
  {
    var now, all := JoinLinks(mid, targetId, sourceId), gone + {sourceId};
    forall l | l in links
      ensures Link(Home(targetId, all, l.titleId), l.otherId) in now && (l.titleId !in all ==> now[l] == links[l])
    {
      LinkIsKept(links, mid, targetId, gone, sourceId, l);
    }
    forall l | l in now ensures l.titleId !in all && Inherited(links, now[l], l, targetId, all) {
      LinkIsInherited(links, mid, targetId, gone, sourceId, l);
    }
  }

  lemma FilesFoldOneMore(db: Tables, mid: Tables, now: Tables, targetId: Id, gone: set<Id>, sourceId: Id)
    requires FilesFolded(db, mid, targetId, gone) && FilesCarriedOver(mid, now, targetId, sourceId)
    requires targetId !in gone && sourceId !in gone && sourceId != targetId
    ensures FilesFolded(db, now, targetId, gone + {sourceId})
  {
  }

  lemma SeasonFoldsOneMore(mid: Tables, now: Tables, targetId: Id, sourceId: Id, titleId: Id, number: nat)
    requires SeasonUnion(mid, now, targetId, sourceId) && HasSeason(mid, titleId, number)
    ensures HasSeason(now, if titleId == sourceId then targetId else titleId, number)
  {
  }

  lemma EpisodeFoldsOneMore(mid: Tables, now: Tables, targetId: Id, sourceId: Id, titleId: Id, slot: Slot)
    requires SeasonUnion(mid, now, targetId, sourceId) && EpisodeUnion(mid, now, targetId, sourceId)
    requires HasEpisode(mid, titleId, slot)
    ensures HasEpisode(now, if titleId == sourceId then targetId else titleId, slot)
  {
  }

  lemma ContentFoldsOneMore(db: Tables, mid: Tables, now: Tables, targetId: Id, gone: set<Id>, sourceId: Id)
    requires ContentFolded(db, mid, targetId, gone)
    requires SeasonUnion(mid, now, targetId, sourceId) && EpisodeUnion(mid, now, targetId, sourceId)
    requires targetId !in gone && sourceId !in gone && sourceId != targetId
    ensures ContentFolded(db, now, targetId, gone + {sourceId})
  {
    forall s | s in db.seasons
      ensures HasSeason(now, Home(targetId, gone + {sourceId}, db.seasons[s].titleId), db.seasons[s].number)
    {
      SeasonFoldsOneMore(mid, now, targetId, sourceId, Home(targetId, gone, db.seasons[s].titleId), db.seasons[s].number);
    }
    forall e, t | EpisodeIn(db, e, t) ensures HasEpisode(now, Home(targetId, gone + {sourceId}, t), EpisodeSlotOf(db, e)) {
      EpisodeFoldsOneMore(mid, now, targetId, sourceId, Home(targetId, gone, t), EpisodeSlotOf(db, e));
    }
  }

  lemma TitlesFoldOneMore(titles: map<Id, Title>, gone: set<Id>, sourceId: Id)
    ensures var before := map i | i in titles && i !in gone :: titles[i];
      (map i | i in before && i != sourceId :: before[i]) == map i | i in titles && i !in gone + {sourceId} :: titles[i]
  {
  }

  /** One more merge folds one more title. */
  lemma FoldOneMore(db: Tables, mid: Tables, now: Tables, targetId: Id, gone: set<Id>, sourceId: Id)
    requires FoldedIn(db, mid, targetId, gone)
    requires targetId !in gone && sourceId !in gone && sourceId != targetId && Merged(mid, now, targetId, sourceId)
    ensures FoldedIn(db, now, targetId, gone + {sourceId})
  {
    TitlesFoldOneMore(db.titles, gone, sourceId);
    FilesFoldOneMore(db, mid, now, targetId, gone, sourceId);
    ContentFoldsOneMore(db, mid, now, targetId, gone, sourceId);
    LinksFoldOneMore(db.watchlist, mid.watchlist, targetId, gone, sourceId);
    LinksFoldOneMore(db.ratings, mid.ratings, targetId, gone, sourceId);
    LinksFoldOneMore(db.memberships, mid.memberships, targetId, gone, sourceId);
  }

  /** After some folding, the target clashes with a title exactly if it or one of the folded titles did before. */
  lemma ClashesAddUp(db: Tables, mid: Tables, targetId: Id, gone: set<Id>, sourceId: Id)
    requires FilesFolded(db, mid, targetId, gone)
    requires targetId !in gone && sourceId !in gone && sourceId != targetId
    ensures NoFileClash(mid, targetId, sourceId) <==> forall t :: t in gone + {targetId} ==> NoFileClash(db, t, sourceId)
  {
    forall f | f in db.files ensures FileFolded(db, mid, targetId, gone, db.files[f], mid.files[f]) {}
    forall f, g | f in db.files && g in db.files
      ensures SlotClash(mid, mid.files[f], mid.files[g]) == SlotClash(db, db.files[f], db.files[g])
    {
    }
    if NoFileClash(mid, targetId, sourceId) {
      forall t | t in gone + {targetId} ensures NoFileClash(db, t, sourceId) {
        forall f, g | f in db.files && g in db.files && db.files[f].titleId == sourceId && db.files[g].titleId == t
          ensures !SlotClash(db, db.files[f], db.files[g])
        {
          assert mid.files[f].titleId == sourceId && mid.files[g].titleId == targetId;
        }
      }
    }
    if forall t :: t in gone + {targetId} ==> NoFileClash(db, t, sourceId) {
      forall f, g | f in mid.files && g in mid.files && mid.files[f].titleId == sourceId && mid.files[g].titleId == targetId
        ensures !SlotClash(mid, mid.files[f], mid.files[g])
      {
        assert db.files[g].titleId in gone + {targetId};
        assert NoFileClash(db, db.files[g].titleId, sourceId);
      }
    }
  }

  lemma ApartOneMore(db: Tables, titles: set<Id>, t: Id)
    requires t !in titles
    ensures Apart(db, titles + {t}) <==> Apart(db, titles) && forall x :: x in titles ==> NoFileClash(db, x, t)
  {
  }

  // ----- the new identity

  /** The provider's values; a missing optional value leaves the stored one. */
  datatype ProviderTitle = ProviderTitle(
    title: string, releaseDate: string, stableKey: string,
    originalTitle: Option<string>, overview: Option<string>, tagline: Option<string>, status: Option<string>,
    budget: Option<nat>, revenue: Option<nat>)

  function Given<T>(locked: bool, value: Option<T>, stored: Option<T>): Option<T> {
    if locked || value.None? then stored else value
  }

  /** The stored row after the update: the key is the provider's, every other column the provider's or, if locked or missing, its own. */
  function Rewritten(row: Title, provider: ProviderTitle, locked: set<string>): Title {
    row.(
    stableKey := provider.stableKey,
    name := if "title" in locked then row.name else provider.title,
    releaseDate := if "releaseDate" in locked then row.releaseDate else provider.releaseDate,
    originalTitle := Given("originalTitle" in locked, provider.originalTitle, row.originalTitle),
    overview := Given("overview" in locked, provider.overview, row.overview),
    tagline := Given("tagline" in locked, provider.tagline, row.tagline),
    status := Given("status" in locked, provider.status, row.status),
    budget := Given("budget" in locked, provider.budget, row.budget),
    revenue := Given("revenue" in locked, provider.revenue, row.revenue))
  }

  /** A column that is always given: its own value while locked, else the provider's. */
  predicate Follows<T(==)>(isLocked: bool, given: T, before: T, now: T) {
    (isLocked ==> now == before) && (!isLocked ==> now == given)
  }

  /** A column that may be missing: it changes only when it is not locked and the provider gives a value, and then to that. */
  predicate FollowsIfGiven<T(==)>(isLocked: bool, given: Option<T>, before: Option<T>, now: Option<T>) {
    && (isLocked ==> now == before)
    && (!isLocked && given.None? ==> now == before)
    && (!isLocked && given.Some? ==> now == given)
  }

  /** Each of the eight lockable columns obeys its own lock; the kind stays and the key is the provider's. */
  predicate LocksObeyed(before: Title, now: Title, provider: ProviderTitle, locked: set<string>) {
    && Follows("title" in locked, provider.title, before.name, now.name)
    && Follows("releaseDate" in locked, provider.releaseDate, before.releaseDate, now.releaseDate)
    && FollowsIfGiven("originalTitle" in locked, provider.originalTitle, before.originalTitle, now.originalTitle)
    && FollowsIfGiven("overview" in locked, provider.overview, before.overview, now.overview)
    && FollowsIfGiven("tagline" in locked, provider.tagline, before.tagline, now.tagline)
    && FollowsIfGiven("status" in locked, provider.status, before.status, now.status)
    && FollowsIfGiven("budget" in locked, provider.budget, before.budget, now.budget)
    && FollowsIfGiven("revenue" in locked, provider.revenue, before.revenue, now.revenue)
    && now.kind == before.kind && now.stableKey == provider.stableKey
  }

  /** There is one row that obeys the locks. */
  lemma LocksDecideRow(before: Title, provider: ProviderTitle, locked: set<string>, a: Title, b: Title)
    requires LocksObeyed(before, a, provider, locked) && LocksObeyed(before, b, provider, locked)
    ensures a == b
  {
  }

  lemma RewrittenObeysLocks(row: Title, provider: ProviderTitle, locked: set<string>)
    ensures LocksObeyed(row, Rewritten(row, provider, locked), provider, locked)
  {
  }

  /** A locked overview stays although the provider gives another, and the provider's is taken without the lock. */
  lemma LockedOverviewStays(row: Title, provider: ProviderTitle)
    requires row.overview == Some("mine") && provider.overview == Some("theirs")
    ensures Rewritten(row, provider, {"overview"}).overview == Some("mine")
    ensures Rewritten(row, provider, {}).overview == Some("theirs")
  {
  }

  /** The titles a rematch has to fold away: same provider name, kind and date, or the provider's stable key. */
  function Conflicting(titles: map<Id, Title>, targetId: Id, kind: Kind, provider: ProviderTitle): set<Id> {
    set i | i in titles && i != targetId
      && ((titles[i].name == provider.title && titles[i].kind == kind && titles[i].releaseDate == provider.releaseDate)
          || titles[i].stableKey == provider.stableKey)
  }

  function Unblocked(titles: map<Id, Title>, gone: set<Id>): map<Id, Title> {
    map i | i in titles && i !in gone :: titles[i]
  }

  /** A remaining title already has the mix of stored and provider values that the locks produce. */
  predicate MixTaken(titles: map<Id, Title>, targetId: Id, kind: Kind, provider: ProviderTitle, locked: set<string>)
    requires targetId in titles
  {
    var mine := Rewritten(titles[targetId], provider, locked);
    exists i :: i in titles && i != targetId && i !in Conflicting(titles, targetId, kind, provider)
      && titles[i].name == mine.name && titles[i].kind == kind && titles[i].releaseDate == mine.releaseDate
  }

  /** Writing the new identity violates a unique index exactly when the mix of values is taken. */
  lemma RewriteIsUnique(titles: map<Id, Title>, targetId: Id, kind: Kind, provider: ProviderTitle, locked: set<string>)
    requires targetId in titles && titles[targetId].kind == kind && TitlesUnique(titles)
    ensures var rest := Unblocked(titles, Conflicting(titles, targetId, kind, provider));
            TitlesUnique(rest[targetId := Rewritten(titles[targetId], provider, locked)])
            <==> !MixTaken(titles, targetId, kind, provider, locked)
  {
    var gone := Conflicting(titles, targetId, kind, provider);
    var mine := Rewritten(titles[targetId], provider, locked);
    var after := Unblocked(titles, gone)[targetId := mine];
    if MixTaken(titles, targetId, kind, provider, locked) {
      var i :| i in titles && i != targetId && i !in gone
        && titles[i].name == mine.name && titles[i].kind == kind && titles[i].releaseDate == mine.releaseDate;
      assert TitlesCollide(after[i], after[targetId]);
    } else {
      forall i, j | i in after && j in after && i != j ensures !TitlesCollide(after[i], after[j]) {
        if i != targetId && j != targetId {
          assert !TitlesCollide(titles[i], titles[j]);
        }
      }
    }
  }

  /** With both or neither of title and release date locked the mix is never taken. */
  lemma WholeIdentityIsFree(titles: map<Id, Title>, targetId: Id, kind: Kind, provider: ProviderTitle, locked: set<string>)
    requires targetId in titles && titles[targetId].kind == kind && TitlesUnique(titles)
    requires "title" in locked <==> "releaseDate" in locked
    ensures !MixTaken(titles, targetId, kind, provider, locked)
  {
    forall i | i in titles && i != targetId ensures !TitlesCollide(titles[i], titles[targetId]) {}
  }

  function PlainTitle(name: string, releaseDate: string, key: string): Title {
    Title(name, Movie, releaseDate, key, None, None, None, None, None, None)
  }

  /** A locked title with a new date can meet a third title: the rematch of "a" below is rejected. */
  lemma LockedTitleMeetsThird()
    ensures var titles := map["a" := PlainTitle("Solaris", "1972", "k1"), "b" := PlainTitle("Solaris", "2002", "k2")];
            var provider := ProviderTitle("Solyaris", "2002", "k3", None, None, None, None, None, None);
            TitlesUnique(titles) && MixTaken(titles, "a", Movie, provider, {"title"})
  {
    var titles := map["a" := PlainTitle("Solaris", "1972", "k1"), "b" := PlainTitle("Solaris", "2002", "k2")];
    var provider := ProviderTitle("Solyaris", "2002", "k3", None, None, None, None, None, None);
    assert "b" in titles && "b" !in Conflicting(titles, "a", Movie, provider);
  }

  /** Two movies that each have a default file: the merge of "b" into "a" is rejected by the default-file index. */
  lemma TwoDefaultFilesClash()
    ensures var db := Tables(
              map["a" := PlainTitle("Solaris", "1972", "k1"), "b" := PlainTitle("Solyaris", "1972", "k2")],
              map["m" := "a", "n" := "b"], map[], map[],
              map["f" := MediaFile("a", Some("m"), None, "/1.mkv", true), "g" := MediaFile("b", Some("n"), None, "/2.mkv", true)],
              map[], map[], map[]);
            CanMerge(db, "a", "b", Movie) && !NoFileClash(db, "a", "b")
  {
    var db := Tables(
      map["a" := PlainTitle("Solaris", "1972", "k1"), "b" := PlainTitle("Solyaris", "1972", "k2")],
      map["m" := "a", "n" := "b"], map[], map[],
      map["f" := MediaFile("a", Some("m"), None, "/1.mkv", true), "g" := MediaFile("b", Some("n"), None, "/2.mkv", true)],
      map[], map[], map[]);
    assert SlotClash(db, db.files["g"], db.files["f"]);
  }

  // ----- relation rows

  datatype Relation = Cast | Crew | Genres | Keywords | Companies | Collections | Ratings

  const ALL_RELATIONS := [Cast, Crew, Genres, Keywords, Companies, Collections, Ratings]

  function Place(relation: Relation): nat {
    match relation
    case Cast => 0
    case Crew => 1
    case Genres => 2
    case Keywords => 3
    case Companies => 4
    case Collections => 5
    case Ratings => 6
  }

  lemma PlaceIsExact(relation: Relation, i: nat)
    requires i < |ALL_RELATIONS|
    ensures ALL_RELATIONS[i] == relation <==> Place(relation) == i
  {
  }

  function LockName(relation: Relation): string {
    match relation
    case Cast => "cast"
    case Crew => "crew"
    case Genres => "genres"
    case Keywords => "keywords"
    case Companies => "companies"
    case Collections => "collections"
    case Ratings => "ratings"
  }

  /** Each relation answers to its own lock name; companies answer to "studios" as well. */
  predicate IsRelationLocked(locked: set<string>, relation: Relation) {
    LockName(relation) in locked || (relation == Companies && "studios" in locked)
  }

  /** Rows of a relation: a title and the other side (person and role, genre, rating source, ...) with its payload. */
  type Rows = map<Link, int>

  /** Deletes the rows of these titles: by the cascade of a merged title, or by a relation delete. */
  function RowsWithout(rows: Rows, titles: set<Id>): Rows {
    map l | l in rows && l.titleId !in titles :: rows[l]
  }

  function RowsFor(titleId: Id, incoming: map<Id, int>): Rows {
    map l | l in (set o | o in incoming :: Link(titleId, o)) :: incoming[l.otherId]
  }

  /** What one relation holds after a rematch, from what it held once the conflicts were folded in. */
  function RelationAfter(rows: Rows, titleId: Id, isLocked: bool, incoming: map<Id, int>): Rows {
    Joined(Kept(rows, titleId, isLocked), titleId, isLocked, incoming)
  }

  function Kept(rows: Rows, titleId: Id, isLocked: bool): Rows {
    if isLocked then rows else RowsWithout(rows, {titleId})
  }

  function Joined(rows: Rows, titleId: Id, isLocked: bool, incoming: map<Id, int>): Rows {
    if isLocked then rows else rows + RowsFor(titleId, incoming)
  }

  /** Locked rows all survive and nothing is added; unlocked rows are exactly the provider's. */
  lemma LockDecidesRelation(rows: Rows, titleId: Id, isLocked: bool, incoming: map<Id, int>, l: Link)
    ensures var after := RelationAfter(rows, titleId, isLocked, incoming);
      && (isLocked || l.titleId != titleId ==> (l in after <==> l in rows) && (l in rows ==> after[l] == rows[l]))
      && (!isLocked && l.titleId == titleId ==>
            (l in after <==> l.otherId in incoming) && (l.otherId in incoming ==> after[l] == incoming[l.otherId]))
  {
    if l.titleId == titleId && l.otherId in incoming {
      assert l in (set o | o in incoming :: Link(titleId, o));
    }
  }

  /** The rows that the titles take along when they are deleted. */
  function DropRows(relations: map<Relation, Rows>, titles: set<Id>): map<Relation, Rows> {
    map r | r in relations :: RowsWithout(relations[r], titles)
  }

  /** The relations after the first `n` entries of the list were deleted unless locked. */
  function KeptSoFar(relations: map<Relation, Rows>, titleId: Id, locked: set<string>, n: nat): map<Relation, Rows> {
    map r | r in relations ::
      if r == Collections || Place(r) >= n then relations[r] else Kept(relations[r], titleId, IsRelationLocked(locked, r))
  }

  lemma KeptNext(relations: map<Relation, Rows>, titleId: Id, locked: set<string>, n: nat)
    requires n < |ALL_RELATIONS| && ALL_RELATIONS[n] in relations
    ensures var r := ALL_RELATIONS[n];
            var before, after := KeptSoFar(relations, titleId, locked, n), KeptSoFar(relations, titleId, locked, n + 1);
      if r == Collections || IsRelationLocked(locked, r) then after == before
      else after == before[r := RowsWithout(before[r], {titleId})]
  {
    forall r: Relation | r in relations ensures ALL_RELATIONS[n] == r <==> Place(r) == n {
      PlaceIsExact(r, n);
    }
  }

  /** One relation after its processor; collections are kept with the titles, not here. */
  function JoinedOne(
      relations: map<Relation, Rows>, relation: Relation, titleId: Id, locked: set<string>,
      incoming: map<Relation, map<Id, int>>): (after: map<Relation, Rows>)
    requires relation in relations && relation in incoming
    ensures after.Keys == relations.Keys
  {
    if relation == Collections || IsRelationLocked(locked, relation) then relations
    else relations[relation := relations[relation] + RowsFor(titleId, incoming[relation])]
  }

  function JoinedAll(
      relations: map<Relation, Rows>, titleId: Id, locked: set<string>, incoming: map<Relation, map<Id, int>>): map<Relation, Rows>
    requires forall r :: r in incoming
  {
    map r | r in relations ::
      if r == Collections then relations[r] else Joined(relations[r], titleId, IsRelationLocked(locked, r), incoming[r])
  }

  /** The order of the processors: five relations, then the two kinds of credits. */
  const PROCESSORS: seq<Relation> := [Collections, Companies, Genres, Keywords, Ratings, Cast, Crew]

  function Turn(relation: Relation): nat {
    match relation
    case Collections => 0
    case Companies => 1
    case Genres => 2
    case Keywords => 3
    case Ratings => 4
    case Cast => 5
    case Crew => 6
  }

  /** The relations once the first `n` processors have run. */
  function JoinedSoFar(
      relations: map<Relation, Rows>, titleId: Id, locked: set<string>, incoming: map<Relation, map<Id, int>>,
      n: nat): map<Relation, Rows>
    requires forall r :: r in incoming
  {
    map r | r in relations ::
      if r == Collections || Turn(r) >= n then relations[r]
      else Joined(relations[r], titleId, IsRelationLocked(locked, r), incoming[r])
  }

  lemma TurnIsExact(relation: Relation, n: nat)
    requires n < |PROCESSORS|
    ensures PROCESSORS[n] == relation <==> Turn(relation) == n
  {
  }

  lemma JoinedNext(
      relations: map<Relation, Rows>, titleId: Id, locked: set<string>, incoming: map<Relation, map<Id, int>>, n: nat)
    requires (forall r :: r in relations && r in incoming) && n < |PROCESSORS|
    ensures JoinedOne(JoinedSoFar(relations, titleId, locked, incoming, n), PROCESSORS[n], titleId, locked, incoming)
      == JoinedSoFar(relations, titleId, locked, incoming, n + 1)
  {
    forall r ensures PROCESSORS[n] == r <==> Turn(r) == n {
      TurnIsExact(r, n);
    }
  }

  lemma JoinedByAll(relations: map<Relation, Rows>, titleId: Id, locked: set<string>, incoming: map<Relation, map<Id, int>>)
    requires forall r :: r in incoming
    ensures JoinedSoFar(relations, titleId, locked, incoming, 0) == relations
    ensures JoinedSoFar(relations, titleId, locked, incoming, |PROCESSORS|) == JoinedAll(relations, titleId, locked, incoming)
  {
  }

  // ----- the repository

  /** The tables after a rematch of `targetId`. */
  ghost predicate TablesRematched(
      db: Tables, now: Tables, targetId: Id, kind: Kind, provider: ProviderTitle, locked: set<string>, collections: map<Id, int>)
    requires targetId in db.titles
  {
    var gone := Conflicting(db.titles, targetId, kind, provider);
    && now.titles == Unblocked(db.titles, gone)[targetId := Rewritten(db.titles[targetId], provider, locked)]
    && TitlesUnique(now.titles) && Integrity(now)
    && FilesFolded(db, now, targetId, gone)
    && ContentFolded(db, now, targetId, gone)
    && LinksFolded(db.watchlist, now.watchlist, targetId, gone)
    && LinksFolded(db.ratings, now.ratings, targetId, gone)
    && MembershipsRematched(db.memberships, now.memberships, targetId, gone, IsRelationLocked(locked, Collections), collections)
  }

  /** The target's row obeys the locks; the rows of all other titles that are left are as they were. */
  predicate TitleRowsRematched(
      before: map<Id, Title>, now: map<Id, Title>, targetId: Id, provider: ProviderTitle, locked: set<string>)
    requires targetId in before
  {
    && targetId in now && LocksObeyed(before[targetId], now[targetId], provider, locked)
    && forall i :: i in now && i != targetId ==> i in before && now[i] == before[i]
  }

  lemma RowsAreRematched(before: map<Id, Title>, targetId: Id, gone: set<Id>, provider: ProviderTitle, locked: set<string>)
    requires targetId in before
    ensures TitleRowsRematched(before, Unblocked(before, gone)[targetId := Rewritten(before[targetId], provider, locked)],
                               targetId, provider, locked)
  {
    RewrittenObeysLocks(before[targetId], provider, locked);
  }

  lemma TitlesAfter(
      db: Tables, now: Tables, targetId: Id, kind: Kind, provider: ProviderTitle, locked: set<string>, collections: map<Id, int>)
    requires targetId in db.titles && TablesRematched(db, now, targetId, kind, provider, locked, collections)
    ensures now.titles == Unblocked(db.titles, Conflicting(db.titles, targetId, kind, provider))[
      targetId := Rewritten(db.titles[targetId], provider, locked)]
  {
  }

  /** The other six relations: the rows of folded titles are gone, locked relations are untouched, others are the provider's. */
  ghost predicate RelationsRematched(
      relations: map<Relation, Rows>, after: map<Relation, Rows>, targetId: Id, gone: set<Id>, locked: set<string>,
      incoming: map<Relation, map<Id, int>>)
    requires forall r :: r in relations && r in after && r in incoming
  {
    forall r :: r != Collections ==>
      after[r] == RelationAfter(RowsWithout(relations[r], gone), targetId, IsRelationLocked(locked, r), incoming[r])
  }

  ghost predicate MembershipsRematched(links: Rows, now: Rows, targetId: Id, gone: set<Id>, isLocked: bool, incoming: map<Id, int>) {
    exists folded: Rows :: LinksFolded(links, folded, targetId, gone) && now == RelationAfter(folded, targetId, isLocked, incoming)
  }

  /**
   What became of the rows of one relation: those of folded titles are gone, those of other titles are as they were, and
   those of the target are as they were if the relation is locked, else exactly the provider's.
   */
  ghost predicate RowsFollowLock(before: Rows, after: Rows, targetId: Id, gone: set<Id>, isLocked: bool, incoming: map<Id, int>) {
    forall l: Link ::
      if l.titleId == targetId && !isLocked then
        (l in after <==> l.otherId in incoming) && (l in after ==> after[l] == incoming[l.otherId])
      else (l in after <==> l in before && l.titleId !in gone) && (l in after ==> after[l] == before[l])
  }

  /** The names under which a user locks each relation; companies have two. */
  ghost predicate RelationLocksObeyed(
      before: map<Relation, Rows>, after: map<Relation, Rows>, targetId: Id, gone: set<Id>, locked: set<string>,
      incoming: map<Relation, map<Id, int>>)
    requires forall r :: r in before && r in after && r in incoming
  {
    && RowsFollowLock(before[Cast], after[Cast], targetId, gone, "cast" in locked, incoming[Cast])
    && RowsFollowLock(before[Crew], after[Crew], targetId, gone, "crew" in locked, incoming[Crew])
    && RowsFollowLock(before[Genres], after[Genres], targetId, gone, "genres" in locked, incoming[Genres])
    && RowsFollowLock(before[Keywords], after[Keywords], targetId, gone, "keywords" in locked, incoming[Keywords])
    && RowsFollowLock(before[Ratings], after[Ratings], targetId, gone, "ratings" in locked, incoming[Ratings])
    && RowsFollowLock(before[Companies], after[Companies], targetId, gone, "companies" in locked || "studios" in locked, incoming[Companies])
  }

  lemma RelationAfterFollowsLock(rows: Rows, targetId: Id, gone: set<Id>, isLocked: bool, incoming: map<Id, int>)
    requires targetId !in gone
    ensures RowsFollowLock(rows, RelationAfter(RowsWithout(rows, gone), targetId, isLocked, incoming), targetId, gone, isLocked, incoming)
  {
    forall l: Link {
      LockDecidesRelation(RowsWithout(rows, gone), targetId, isLocked, incoming, l);
    }
  }

  lemma RelationsFollowLocks(
      before: map<Relation, Rows>, after: map<Relation, Rows>, targetId: Id, gone: set<Id>, locked: set<string>,
      incoming: map<Relation, map<Id, int>>)
    requires (forall r :: r in before && r in after && r in incoming) && targetId !in gone
    requires RelationsRematched(before, after, targetId, gone, locked, incoming)
    ensures RelationLocksObeyed(before, after, targetId, gone, locked, incoming)
  {
    forall r | r != Collections
      ensures RowsFollowLock(before[r], after[r], targetId, gone, IsRelationLocked(locked, r), incoming[r])
    {
      RelationAfterFollowsLock(before[r], targetId, gone, IsRelationLocked(locked, r), incoming[r]);
    }
    LockNames(locked);
  }

  lemma LockNames(locked: set<string>)
    ensures IsRelationLocked(locked, Cast) == ("cast" in locked) && IsRelationLocked(locked, Crew) == ("crew" in locked)
    ensures IsRelationLocked(locked, Genres) == ("genres" in locked) && IsRelationLocked(locked, Keywords) == ("keywords" in locked)
    ensures IsRelationLocked(locked, Ratings) == ("ratings" in locked)
    ensures IsRelationLocked(locked, Companies) == ("companies" in locked || "studios" in locked)
    ensures IsRelationLocked(locked, Collections) == ("collections" in locked)
  {
  }

  /** Locked memberships are those folded together; unlocked, the target's are exactly the provider's collections. */
  lemma MembershipsFollowLock(links: Rows, now: Rows, targetId: Id, gone: set<Id>, locked: set<string>, incoming: map<Id, int>)
    requires MembershipsRematched(links, now, targetId, gone, IsRelationLocked(locked, Collections), incoming)
    ensures "collections" in locked ==> LinksFolded(links, now, targetId, gone)
    ensures "collections" !in locked ==> forall l: Link :: l.titleId == targetId ==>
      (l in now <==> l.otherId in incoming) && (l in now ==> now[l] == incoming[l.otherId])
  {
    var isLocked := IsRelationLocked(locked, Collections);
    var folded: Rows :| LinksFolded(links, folded, targetId, gone) && now == RelationAfter(folded, targetId, isLocked, incoming);
    forall l: Link {
      LockDecidesRelation(folded, targetId, isLocked, incoming, l);
    }
  }

  /** What the source demands of a rematch: a stored title, and stable keys that encode the kind of their title. */
  ghost predicate CanRematch(db: Tables, targetId: Id, kind: Kind, provider: ProviderTitle) {
    && Integrity(db) && TitlesUnique(db.titles)
    && targetId in db.titles && db.titles[targetId].kind == kind
    && forall i :: i in db.titles && db.titles[i].stableKey == provider.stableKey ==> db.titles[i].kind == kind
  }

  class RematchRepository {
    const store: MergeRepository
    var relations: map<Relation, Rows>

    constructor (store: MergeRepository, relations: map<Relation, Rows>)
      ensures this.store == store && this.relations == relations
    {
      this.store := store;
      this.relations := relations;
    }

    /** Every conflict goes through the merge; the rows the merge does not move go with its title. */
    method FoldConflicts(targetId: Id, conflicts: seq<Id>, kind: Kind, newMovieId: Id) returns (ok: bool)
      requires FoldingAt(store.Snapshot(), store.Snapshot(), targetId, {}, kind, newMovieId)
      requires forall i :: 0 <= i < |conflicts| ==> conflicts[i] in store.titles && conflicts[i] != targetId
                                                    && store.titles[conflicts[i]].kind == kind
      requires forall i, j :: 0 <= i < j < |conflicts| ==> conflicts[i] != conflicts[j]
      requires store.KeysFit()
      modifies this, store, store.movieKeys
      ensures ok ==> store.KeysFit()
      ensures ok <==> Apart(old(store.Snapshot()), {targetId} + ToSet(conflicts))
      ensures ok ==> FoldingAt(old(store.Snapshot()), store.Snapshot(), targetId, ToSet(conflicts), kind, newMovieId)
      ensures ok ==> relations == DropRows(old(relations), ToSet(conflicts))
    {
      ghost var db := store.Snapshot();
      NothingDropped(relations);
      assert ToSet(conflicts[..0]) == {};
      ok := true;
      for i := 0 to |conflicts|
        invariant ok && store.KeysFit() && FoldingAt(db, store.Snapshot(), targetId, ToSet(conflicts[..i]), kind, newMovieId)
        invariant Apart(db, {targetId} + ToSet(conflicts[..i]))
        invariant relations == DropRows(old(relations), ToSet(conflicts[..i]))
      {
        NextConflict(targetId, conflicts, i);
        ok := FoldOne(db, targetId, conflicts[i], ToSet(conflicts[..i]), kind, newMovieId);
        if !ok { return; }
        DroppedTwice(old(relations), ToSet(conflicts[..i]), {conflicts[i]});
      }
      assert conflicts[..|conflicts|] == conflicts;
    }

    /** One turn of that loop. */
    method FoldOne(ghost db: Tables, targetId: Id, conflict: Id, ghost gone: set<Id>, kind: Kind, newMovieId: Id) returns (ok: bool)
      requires FoldingAt(db, store.Snapshot(), targetId, gone, kind, newMovieId)
      requires conflict in db.titles && conflict != targetId && conflict !in gone && db.titles[conflict].kind == kind
      requires Apart(db, {targetId} + gone) && store.KeysFit()
      modifies this, store, store.movieKeys
      ensures store.KeysFit()
      ensures ok <==> Apart(db, {targetId} + gone + {conflict})
      ensures ok ==> FoldingAt(db, store.Snapshot(), targetId, gone + {conflict}, kind, newMovieId)
      ensures ok ==> relations == DropRows(old(relations), {conflict})
    {
      ghost var mid := store.Snapshot();
      BeforeFold(db, mid, targetId, gone, conflict, kind, newMovieId);
      ok := store.Merge(targetId, conflict, kind, newMovieId);
      if ok {
        AfterFold(db, mid, store.Snapshot(), targetId, gone, conflict, kind, newMovieId);
        relations := DropRows(relations, {conflict});
      }
    }

    method SelectConflicts(targetId: Id, kind: Kind, provider: ProviderTitle) returns (conflicts: seq<Id>)
      ensures ToSet(conflicts) == Conflicting(store.titles, targetId, kind, provider)
      ensures forall i, j :: 0 <= i < j < |conflicts| ==> conflicts[i] != conflicts[j]
    {
      conflicts := [];
      var left := Conflicting(store.titles, targetId, kind, provider);
      while left != {}
        invariant ToSet(conflicts) !! left
        invariant ToSet(conflicts) + left == Conflicting(store.titles, targetId, kind, provider)
        invariant forall i, j :: 0 <= i < j < |conflicts| ==> conflicts[i] != conflicts[j]
        decreases left
      {
        var i :| i in left;
        assert i !in ToSet(conflicts);
        conflicts := conflicts + [i];
        left := left - {i};
      }
    }

    /** `deleteUnlockedRelations` over all seven relations. */
    method DeleteUnlockedRelations(targetId: Id, locked: set<string>)
      requires forall r :: r in relations
      modifies this, store`memberships
      ensures store.memberships == Kept(old(store.memberships), targetId, IsRelationLocked(locked, Collections))
      ensures relations == KeptSoFar(old(relations), targetId, locked, |ALL_RELATIONS|)
    {
      assert relations == KeptSoFar(relations, targetId, locked, 0);
      for i := 0 to |ALL_RELATIONS|
        invariant relations == KeptSoFar(old(relations), targetId, locked, i)
        invariant store.memberships == if Place(Collections) >= i then old(store.memberships)
                                       else Kept(old(store.memberships), targetId, IsRelationLocked(locked, Collections))
      {
        var r := ALL_RELATIONS[i];
        KeptNext(old(relations), targetId, locked, i);
        PlaceIsExact(Collections, i);
        if !IsRelationLocked(locked, r) {
          if r == Collections {
            store.memberships := RowsWithout(store.memberships, {targetId});
          } else {
            relations := relations[r := RowsWithout(relations[r], {targetId})];
          }
        }
      }
    }

    /** One relation processor: the provider's rows go in, unless the relation is locked. */
    method InsertUnlessLocked(relation: Relation, targetId: Id, locked: set<string>, incoming: map<Relation, map<Id, int>>)
      requires forall r :: r in relations && r in incoming
      modifies this, store`memberships
      ensures relations == JoinedOne(old(relations), relation, targetId, locked, incoming)
      ensures store.memberships == if relation == Collections && !IsRelationLocked(locked, Collections)
                                   then old(store.memberships) + RowsFor(targetId, incoming[Collections]) else old(store.memberships)
    {
      if IsRelationLocked(locked, relation) { return; }
      if relation == Collections {
        store.memberships := store.memberships + RowsFor(targetId, incoming[Collections]);
      } else {
        relations := relations[relation := relations[relation] + RowsFor(targetId, incoming[relation])];
      }
    }

    /** All processors, each on its turn: together they join every unlocked relation and touch no locked one. */
    method InsertUnlockedRelations(targetId: Id, locked: set<string>, incoming: map<Relation, map<Id, int>>)
      requires forall r :: r in relations && r in incoming
      modifies this, store`memberships
      ensures store.memberships == Joined(old(store.memberships), targetId, IsRelationLocked(locked, Collections), incoming[Collections])
      ensures relations == JoinedAll(old(relations), targetId, locked, incoming)
    {
      ghost var before := relations;
      JoinedByAll(before, targetId, locked, incoming);
      for n := 0 to |PROCESSORS|
        invariant relations == JoinedSoFar(before, targetId, locked, incoming, n)
        invariant store.memberships == if n == 0 then old(store.memberships)
                                       else Joined(old(store.memberships), targetId, IsRelationLocked(locked, Collections), incoming[Collections])
      {
        JoinedNext(before, targetId, locked, incoming, n);
        TurnIsExact(Collections, n);
        InsertUnlessLocked(PROCESSORS[n], targetId, locked, incoming);
      }
    }

    /** The merges and the update of the title row. */
    method FoldAndRewrite(targetId: Id, kind: Kind, provider: ProviderTitle, locked: set<string>, newMovieId: Id) returns (ok: bool)
      requires CanRematch(store.Snapshot(), targetId, kind, provider)
      requires RoomForMovie(store.Snapshot(), targetId, newMovieId) && store.KeysFit()
      modifies this, store, store.movieKeys
      ensures ok ==> store.KeysFit()
      ensures ok <==>
        && Apart(old(store.Snapshot()), {targetId} + Conflicting(old(store.titles), targetId, kind, provider))
        && !MixTaken(old(store.titles), targetId, kind, provider, locked)
      ensures ok ==> Renamed(old(store.Snapshot()), store.Snapshot(), targetId, kind, provider, locked)
      ensures ok ==> relations == DropRows(old(relations), Conflicting(old(store.titles), targetId, kind, provider))
    {
      ghost var db := store.Snapshot();
      var conflicts := SelectConflicts(targetId, kind, provider);
      forall i | 0 <= i < |conflicts|
        ensures conflicts[i] in store.titles && conflicts[i] != targetId && store.titles[conflicts[i]].kind == kind
      {
        assert conflicts[i] in ToSet(conflicts);
      }
      StartFolding(db, targetId, kind, newMovieId);
      ok := FoldConflicts(targetId, conflicts, kind, newMovieId);
      if !ok { return; }
      TitlesLeft(db, store.Snapshot(), targetId, ToSet(conflicts), kind, newMovieId);
      RewriteIsUnique(db.titles, targetId, kind, provider, locked);
      ghost var mid := store.Snapshot();
      store.titles := store.titles[targetId := Rewritten(store.titles[targetId], provider, locked)];
      ok := TitlesUnique(store.titles);
      assert store.Snapshot().(titles := mid.titles) == mid;
    }

    /** Unlocked relations are deleted, then filled with the provider's rows. */
    method ReplaceRelations(targetId: Id, locked: set<string>, incoming: map<Relation, map<Id, int>>)
      requires forall r :: r in relations && r in incoming
      modifies this, store`memberships
      ensures store.memberships == RelationAfter(old(store.memberships), targetId, IsRelationLocked(locked, Collections), incoming[Collections])
      ensures relations == JoinedAll(KeptSoFar(old(relations), targetId, locked, |ALL_RELATIONS|), targetId, locked, incoming)
    {
      DeleteUnlockedRelations(targetId, locked);
      InsertUnlockedRelations(targetId, locked, incoming);
    }

    /**
     `rematchProviderMetadata`. It commits exactly when no two of the titles to be folded have files competing for a slot
     and the identity the locks leave is free; otherwise nothing changes.
     */
    method RematchProviderMetadata(
        targetId: Id, kind: Kind, provider: ProviderTitle, locked: set<string>, incoming: map<Relation, map<Id, int>>,
        newMovieId: Id)
      returns (ok: bool)
      requires CanRematch(store.Snapshot(), targetId, kind, provider)
      requires RoomForMovie(store.Snapshot(), targetId, newMovieId)
      requires store.KeysFit() && forall r :: r in relations && r in incoming
      modifies this, store, store.movieKeys
      ensures store.KeysFit() && forall r :: r in relations
      ensures ok <==>
        && Apart(old(store.Snapshot()), {targetId} + Conflicting(old(store.titles), targetId, kind, provider))
        && !MixTaken(old(store.titles), targetId, kind, provider, locked)
      ensures ok ==> TitleRowsRematched(old(store.titles), store.titles, targetId, provider, locked)
      ensures ok ==> TablesRematched(old(store.Snapshot()), store.Snapshot(), targetId, kind, provider, locked, incoming[Collections])
      ensures ok ==> RelationsRematched(old(relations), relations, targetId,
                                        Conflicting(old(store.titles), targetId, kind, provider), locked, incoming)
      ensures ok ==> RelationLocksObeyed(old(relations), relations, targetId,
                                         Conflicting(old(store.titles), targetId, kind, provider), locked, incoming)
      ensures !ok ==> store.Snapshot() == old(store.Snapshot()) && store.movieKeys.of == old(store.movieKeys.of)
      ensures !ok ==> relations == old(relations)
    {
      var saved, savedKeys, savedRelations := store.Snapshot(), store.movieKeys.of, relations;
      ok := FoldAndRewrite(targetId, kind, provider, locked, newMovieId);
      if !ok {
        store.Store(saved);
        store.movieKeys.of := savedKeys;
        relations := savedRelations;
        return;
      }
      ghost var mid := store.Snapshot();
      ReplaceRelations(targetId, locked, incoming);
      RelationsLast(saved, mid, store.Snapshot(), targetId, kind, provider, locked, incoming[Collections]);
      ghost var gone := Conflicting(saved.titles, targetId, kind, provider);
      TitlesAfter(saved, store.Snapshot(), targetId, kind, provider, locked, incoming[Collections]);
      RowsAreRematched(saved.titles, targetId, gone, provider, locked);
      RelationsDone(savedRelations, targetId, gone, locked, incoming);
      RelationsFollowLocks(savedRelations, relations, targetId, gone, locked, incoming);
    }
  }

  /** The tables once the title row is rewritten: folded, except for that row. */
  ghost predicate Renamed(db: Tables, now: Tables, targetId: Id, kind: Kind, provider: ProviderTitle, locked: set<string>)
    requires targetId in db.titles
  {
    var gone := Conflicting(db.titles, targetId, kind, provider);
    && (exists newMovieId :: FoldingAt(db, now.(titles := Unblocked(db.titles, gone)), targetId, gone, kind, newMovieId))
    && now.titles == Unblocked(db.titles, gone)[targetId := Rewritten(db.titles[targetId], provider, locked)]
    && TitlesUnique(now.titles)
  }

  lemma TitlesLeft(db: Tables, mid: Tables, targetId: Id, gone: set<Id>, kind: Kind, newMovieId: Id)
    requires FoldingAt(db, mid, targetId, gone, kind, newMovieId)
    ensures mid.titles == Unblocked(db.titles, gone)
  {
    assert Key(true);
  }

  lemma RelationsDone(
      relations: map<Relation, Rows>, targetId: Id, gone: set<Id>, locked: set<string>, incoming: map<Relation, map<Id, int>>)
    requires forall r :: r in relations && r in incoming
    ensures var after := JoinedAll(KeptSoFar(DropRows(relations, gone), targetId, locked, |ALL_RELATIONS|), targetId, locked, incoming);
      (forall r :: r in after) && RelationsRematched(relations, after, targetId, gone, locked, incoming)
  {
  }

  /** Replacing the relation rows completes the rematch. */
  lemma RelationsLast(
      db: Tables, mid: Tables, now: Tables, targetId: Id, kind: Kind, provider: ProviderTitle, locked: set<string>,
      incoming: map<Id, int>)
    requires targetId in db.titles && Renamed(db, mid, targetId, kind, provider, locked)
    requires now == mid.(memberships := RelationAfter(mid.memberships, targetId, IsRelationLocked(locked, Collections), incoming))
    ensures TablesRematched(db, now, targetId, kind, provider, locked, incoming)
  {
    var gone := Conflicting(db.titles, targetId, kind, provider);
    var folded := mid.(titles := Unblocked(db.titles, gone));
    assert Key(true);
    FoldIgnoresTitles(db, folded, now, targetId, gone);
    RewriteKeepsIntegrity(folded, now, targetId, IsRelationLocked(locked, Collections), incoming);
    assert LinksFolded(db.memberships, folded.memberships, targetId, gone);
  }

  lemma RelationStaysHeld(rows: Rows, titles: set<Id>, targetId: Id, isLocked: bool, incoming: map<Id, int>)
    requires LinksHeld(rows, titles) && targetId in titles
    ensures LinksHeld(RelationAfter(rows, targetId, isLocked, incoming), titles)
  {
  }

  predicate KindsStay(before: map<Id, Title>, now: map<Id, Title>) {
    now.Keys == before.Keys && forall i :: i in before ==> now[i].kind == before[i].kind
  }

  lemma OneTitleStays(before: map<Id, Title>, targetId: Id, row: Title)
    requires targetId in before && row.kind == before[targetId].kind
    ensures KindsStay(before, before[targetId := row])
  {
  }

  /** Only a title row and the memberships differ: the same titles, of the same kinds. */
  predicate SameKinds(mid: Tables, now: Tables) {
    now == mid.(titles := now.titles, memberships := now.memberships) && KindsStay(mid.titles, now.titles)
  }

  lemma FilesStillFit(mid: Tables, now: Tables, f: Id)
    requires SameKinds(mid, now) && f in mid.files && FileKeys(mid, mid.files[f]) && FileFitsTitle(mid, mid.files[f])
    ensures FileKeys(now, now.files[f]) && FileFitsTitle(now, now.files[f])
  {
  }

  lemma SameKindsKeepIntegrity(mid: Tables, now: Tables)
    requires Integrity(mid) && SameKinds(mid, now) && LinksHeld(now.memberships, now.titles.Keys)
    ensures Integrity(now)
  {
    forall f | f in now.files ensures FileKeys(now, now.files[f]) && FileFitsTitle(now, now.files[f]) {
      FilesStillFit(mid, now, f);
    }
    assert ForeignKeys(now);
    assert UniqueKeys(now);
    assert Consistent(now);
  }

  lemma RewriteKeepsIntegrity(mid: Tables, now: Tables, targetId: Id, isLocked: bool, incoming: map<Id, int>)
    requires Integrity(mid) && targetId in mid.titles && targetId in now.titles
    requires now.titles == mid.titles[targetId := now.titles[targetId]]
    requires now.titles[targetId].kind == mid.titles[targetId].kind
    requires now == mid.(titles := now.titles, memberships := RelationAfter(mid.memberships, targetId, isLocked, incoming))
    ensures Integrity(now)
  {
    RelationStaysHeld(mid.memberships, mid.titles.Keys, targetId, isLocked, incoming);
    OneTitleStays(mid.titles, targetId, now.titles[targetId]);
    assert LinksHeld(now.memberships, now.titles.Keys);
    SameKindsKeepIntegrity(mid, now);
  }

  lemma FoldIgnoresTitles(db: Tables, mid: Tables, now: Tables, targetId: Id, gone: set<Id>)
    requires now == mid.(titles := now.titles, memberships := now.memberships)
    requires FilesFolded(db, mid, targetId, gone) && ContentFolded(db, mid, targetId, gone)
    ensures FilesFolded(db, now, targetId, gone) && ContentFolded(db, now, targetId, gone)
  {
    forall f | f in db.files ensures FileFolded(db, now, targetId, gone, db.files[f], now.files[f]) {
      assert FileFolded(db, mid, targetId, gone, db.files[f], mid.files[f]);
    }
    forall s | s in db.seasons ensures HasSeason(now, Home(targetId, gone, db.seasons[s].titleId), db.seasons[s].number) {
      assert HasSeason(mid, Home(targetId, gone, db.seasons[s].titleId), db.seasons[s].number);
    }
    forall e, t | EpisodeIn(db, e, t) ensures HasEpisode(now, Home(targetId, gone, t), EpisodeSlotOf(db, e)) {
      assert HasEpisode(mid, Home(targetId, gone, t), EpisodeSlotOf(db, e));
      var d :| EpisodeIn(mid, d, Home(targetId, gone, t)) && EpisodeSlotOf(mid, d) == EpisodeSlotOf(db, e);
      assert EpisodeIn(now, d, Home(targetId, gone, t)) && EpisodeSlotOf(now, d) == EpisodeSlotOf(db, e);
    }
  }

  /** `FoldedIn` with everything the next merge needs, kept folded up in the method proofs. */
  ghost predicate FoldingAt(db: Tables, mid: Tables, targetId: Id, gone: set<Id>, kind: Kind, newMovieId: Id) {
    forall u {:trigger Key(u)} :: Key(u) ==>
      && FoldedIn(db, mid, targetId, gone)
      && targetId in db.titles && targetId !in gone && db.titles[targetId].kind == kind
      && RoomForMovie(mid, targetId, newMovieId)
  }

  lemma NextConflict(targetId: Id, conflicts: seq<Id>, i: nat)
    requires i < |conflicts| && forall j, k :: 0 <= j < k < |conflicts| ==> conflicts[j] != conflicts[k]
    ensures conflicts[i] !in ToSet(conflicts[..i])
    ensures ToSet(conflicts[..i + 1]) == ToSet(conflicts[..i]) + {conflicts[i]}
    ensures {targetId} + ToSet(conflicts[..i]) + {conflicts[i]} == {targetId} + ToSet(conflicts[..i + 1])
    ensures {targetId} + ToSet(conflicts[..i + 1]) <= {targetId} + ToSet(conflicts)
  {
  }

  lemma StartFolding(db: Tables, targetId: Id, kind: Kind, newMovieId: Id)
    requires Integrity(db) && targetId in db.titles && db.titles[targetId].kind == kind
    requires RoomForMovie(db, targetId, newMovieId)
    ensures FoldingAt(db, db, targetId, {}, kind, newMovieId)
  {
    NothingFolded(db, targetId);
  }

  lemma BeforeFold(db: Tables, mid: Tables, targetId: Id, gone: set<Id>, conflict: Id, kind: Kind, newMovieId: Id)
    requires FoldingAt(db, mid, targetId, gone, kind, newMovieId)
    requires conflict in db.titles && conflict != targetId && conflict !in gone && db.titles[conflict].kind == kind
    requires Apart(db, {targetId} + gone)
    ensures CanMerge(mid, targetId, conflict, kind) && RoomForMovie(mid, targetId, newMovieId)
    ensures NoFileClash(mid, targetId, conflict) <==> Apart(db, {targetId} + gone + {conflict})
  {
    assert Key(true);
    ClashesAddUp(db, mid, targetId, gone, conflict);
    ApartOneMore(db, {targetId} + gone, conflict);
    assert {targetId} + gone == gone + {targetId};
  }

  lemma AfterFold(db: Tables, mid: Tables, now: Tables, targetId: Id, gone: set<Id>, conflict: Id, kind: Kind, newMovieId: Id)
    requires FoldingAt(db, mid, targetId, gone, kind, newMovieId)
    requires conflict != targetId && conflict !in gone && Merged(mid, now, targetId, conflict)
    ensures FoldingAt(db, now, targetId, gone + {conflict}, kind, newMovieId)
  {
    assert Key(true);
    FoldOneMore(db, mid, now, targetId, gone, conflict);
    if newMovieId in now.movies && newMovieId in mid.movies {
      var m :| m in mid.movies && mid.movies[m] == targetId;
      assert m in now.movies && now.movies[m] == targetId;
    }
  }

  lemma DroppedTwice(relations: map<Relation, Rows>, a: set<Id>, b: set<Id>)
    ensures DropRows(DropRows(relations, a), b) == DropRows(relations, a + b)
  {
    forall r | r in relations ensures RowsWithout(RowsWithout(relations[r], a), b) == RowsWithout(relations[r], a + b) {}
  }

  lemma NothingDropped(relations: map<Relation, Rows>)
    ensures DropRows(relations, {}) == relations
  {
    forall r | r in relations ensures RowsWithout(relations[r], {}) == relations[r] {}
  }

  // ----- any run of rematches

  /** A stable key says of what kind its title is. */
  ghost predicate KeysTellKind(titles: map<Id, Title>, kindOf: string -> Kind) {
    forall i :: i in titles ==> titles[i].kind == kindOf(titles[i].stableKey)
  }

  datatype Request = Request(
    targetId: Id, kind: Kind, provider: ProviderTitle, locked: set<string>, incoming: map<Relation, map<Id, int>>,
    newMovieId: Id)

  /** The request brings rows for every relation, and its stable key is built from its kind. */
  ghost predicate WellFormed(request: Request, kindOf: string -> Kind) {
    kindOf(request.provider.stableKey) == request.kind && forall r :: r in request.incoming
  }

  /** Every file is still there, with the path, the flag and the slot it had. */
  ghost predicate FilesKept(db: Tables, now: Tables) {
    && now.files.Keys == db.files.Keys
    && forall f :: f in db.files ==>
      && now.files[f].path == db.files[f].path && now.files[f].isDefault == db.files[f].isDefault
      && SlotOf(now, now.files[f]) == SlotOf(db, db.files[f])
  }

  /** What holds between two rematches. */
  ghost predicate Settled(db: Tables, now: Tables, kindOf: string -> Kind) {
    Integrity(now) && TitlesUnique(now.titles) && KeysTellKind(now.titles, kindOf) && FilesKept(db, now)
  }

  lemma FilesStayKept(db: Tables, mid: Tables, now: Tables, targetId: Id, gone: set<Id>)
    requires FilesKept(db, mid) && FilesFolded(mid, now, targetId, gone)
    ensures FilesKept(db, now)
  {
    forall f | f in db.files ensures f in now.files
      && now.files[f].path == db.files[f].path && now.files[f].isDefault == db.files[f].isDefault
      && SlotOf(now, now.files[f]) == SlotOf(db, db.files[f])
    {
      assert FileFolded(mid, now, targetId, gone, mid.files[f], now.files[f]);
    }
  }

  lemma KeysStillTell(before: map<Id, Title>, now: map<Id, Title>, kindOf: string -> Kind, request: Request, gone: set<Id>)
    requires KeysTellKind(before, kindOf) && WellFormed(request, kindOf)
    requires request.targetId in before && before[request.targetId].kind == request.kind
    requires now == Unblocked(before, gone)[request.targetId := Rewritten(before[request.targetId], request.provider, request.locked)]
    ensures KeysTellKind(now, kindOf)
  {
  }

  lemma StaysSettled(db: Tables, mid: Tables, now: Tables, kindOf: string -> Kind, request: Request)
    requires Settled(db, mid, kindOf) && WellFormed(request, kindOf)
    requires request.targetId in mid.titles && mid.titles[request.targetId].kind == request.kind
    requires TablesRematched(mid, now, request.targetId, request.kind, request.provider, request.locked, request.incoming[Collections])
    ensures Settled(db, now, kindOf)
  {
    var gone := Conflicting(mid.titles, request.targetId, request.kind, request.provider);
    FilesStayKept(db, mid, now, request.targetId, gone);
    KeysStillTell(mid.titles, now.titles, kindOf, request, gone);
  }

  /**
   Rematches in any order, some of which fail: integrity and the uniqueness of titles are kept throughout, and no file is
   lost or leaves its slot. A request for a title that is not stored, or of another kind, is not made.
   */
  method Run(repository: RematchRepository, requests: seq<Request>, ghost kindOf: string -> Kind)
    requires Integrity(repository.store.Snapshot()) && TitlesUnique(repository.store.titles)
    requires KeysTellKind(repository.store.titles, kindOf) && repository.store.KeysFit()
    requires forall r :: r in repository.relations
    requires forall request :: request in requests ==> WellFormed(request, kindOf)
    modifies repository, repository.store, repository.store.movieKeys
    ensures Settled(old(repository.store.Snapshot()), repository.store.Snapshot(), kindOf) && repository.store.KeysFit()
  {
    ghost var db := repository.store.Snapshot();
    for i := 0 to |requests|
      invariant Settled(db, repository.store.Snapshot(), kindOf) && repository.store.KeysFit()
      invariant forall r :: r in repository.relations
    {
      assert requests[i] in requests;
      RunOne(repository, requests[i], db, kindOf);
    }
  }

  method RunOne(repository: RematchRepository, request: Request, ghost db: Tables, ghost kindOf: string -> Kind)
    requires Settled(db, repository.store.Snapshot(), kindOf) && repository.store.KeysFit()
    requires WellFormed(request, kindOf) && forall r :: r in repository.relations
    modifies repository, repository.store, repository.store.movieKeys
    ensures Settled(db, repository.store.Snapshot(), kindOf) && repository.store.KeysFit()
    ensures forall r :: r in repository.relations
  {
    ghost var mid := repository.store.Snapshot();
    var titles, targetId := repository.store.titles, request.targetId;
    if targetId !in titles || titles[targetId].kind != request.kind { return; }
    if !RoomForMovie(repository.store.Snapshot(), targetId, request.newMovieId) { return; }
    var ok := repository.RematchProviderMetadata(
      targetId, request.kind, request.provider, request.locked, request.incoming, request.newMovieId);
    if ok { StaysSettled(db, mid, repository.store.Snapshot(), kindOf, request); }
  }
}
