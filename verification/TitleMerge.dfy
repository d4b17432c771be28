/**
 `MetadataMergeRepository.merge`: the whole transaction that folds one title into another. The class holds one field a
 table; every statement updates those fields and is checked against the constraints, and a failed statement rolls the
 transaction back. `history` records the tables after every statement.
 */
module TitleMerge {
  import opened Text
  import opened Catalog
  import opened Chunking
  import opened Folding
  import opened TvMerge
  import opened MergePlanner
  import opened LinkMerge
  import opened MovieRows

  // ----- what a merge promises

  /** No file is gone and no constraint is broken. */
  predicate Safe(before: Tables, now: Tables) {
    now.files.Keys == before.files.Keys && Enforced(now)
  }

  ghost predicate MovieUnion(db: Tables, now: Tables, targetId: Id, sourceId: Id) {
    && (forall m :: m in db.movies && db.movies[m] != sourceId ==> m in now.movies && now.movies[m] == db.movies[m])
    && (forall m :: m in now.movies ==> now.movies[m] != sourceId && (m !in db.movies ==> now.movies[m] == targetId))
  }

  /** The merged database, told without saying how it was reached. */
  ghost predicate Merged(db: Tables, now: Tables, targetId: Id, sourceId: Id)
    requires targetId != sourceId
  {
    && now.titles == (map i | i in db.titles && i != sourceId :: db.titles[i])
    && FilesCarriedOver(db, now, targetId, sourceId)
    && MovieUnion(db, now, targetId, sourceId)
    && SeasonUnion(db, now, targetId, sourceId)
    && EpisodeUnion(db, now, targetId, sourceId)
    && now.watchlist == JoinLinks(db.watchlist, targetId, sourceId)
    && now.ratings == JoinLinks(db.ratings, targetId, sourceId)
    && now.memberships == JoinLinks(db.memberships, targetId, sourceId)
    && Integrity(now)
  }

  /** What the callers check before merging: both titles exist, differ and are of the same kind. */
  ghost predicate CanMerge(db: Tables, targetId: Id, sourceId: Id, kind: Kind) {
    && Integrity(db) && targetId != sourceId
    && targetId in db.titles && sourceId in db.titles
    && db.titles[targetId].kind == kind && db.titles[sourceId].kind == kind
  }

  /** The id for a new movie row is fresh, unless the target has a movie row already. */
  predicate RoomForMovie(db: Tables, targetId: Id, newMovieId: Id) {
    newMovieId in db.movies ==> exists m :: m in db.movies && db.movies[m] == targetId
  }

  // ----- one statement of a show merge, as progress

  function Advance(done: Progress, statement: Statement, ids: set<Id>): Progress {
    match statement
    case RepointFiles(_, owner) => done.(repoints := done.repoints + Owned(ids, owner))
    case MoveEpisodes(owner) => done.(moves := done.moves + Owned(ids, owner))
    case TransferSeasons(_) => done.(transfers := done.transfers + ids)
    case DeleteEpisodes => done.(dropEpisodes := done.dropEpisodes + ids)
    case DeleteSeasons => done.(dropSeasons := done.dropSeasons + ids)
    case RetagFiles(_, _) => done.(retagged := true)
  }

  /** The statement is part of the plan and everything it relies on has run. */
  ghost predicate Due(targetId: Id, sourceId: Id, plan: Progress, done: Progress, statement: Statement, ids: set<Id>) {
    && !done.retagged
    && match statement
       case RepointFiles(title, owner) =>
         && title == targetId && done.dropEpisodes == {} && done.dropSeasons == {}
         && forall e :: e in ids ==> e in plan.repoints && plan.repoints[e] == owner
       case MoveEpisodes(owner) =>
         done.dropSeasons == {} && forall e :: e in ids ==> e in plan.moves && plan.moves[e] == owner
       case TransferSeasons(title) => title == targetId && ids <= plan.transfers
       case DeleteEpisodes => ids <= plan.dropEpisodes && done.repoints == plan.repoints
       case DeleteSeasons =>
         && ids <= plan.dropSeasons && done.repoints == plan.repoints
         && done.moves == plan.moves && done.dropEpisodes == plan.dropEpisodes
       case RetagFiles(target, source) =>
         target == targetId && source == sourceId && done.(retagged := true) == plan
  }

  lemma AdvanceInOrder(targetId: Id, sourceId: Id, plan: Progress, done: Progress, statement: Statement, ids: set<Id>)
    requires InOrder(plan, done) && Due(targetId, sourceId, plan, done, statement, ids)
    ensures InOrder(plan, Advance(done, statement, ids))
  {
  }

  lemma RepointAdvances(db: Tables, targetId: Id, sourceId: Id, plan: Progress, done: Progress, owner: Id, ids: set<Id>)
    requires Merging(db, targetId, sourceId, plan) && InOrder(plan, done) && !done.retagged
    requires forall e :: e in ids ==> e in plan.repoints && plan.repoints[e] == owner
    ensures Apply(At(db, targetId, sourceId, done), RepointFiles(targetId, owner), ids)
         == At(db, targetId, sourceId, done.(repoints := done.repoints + Owned(ids, owner)))
  {
    forall e | e in done.repoints ensures done.repoints[e] !in ids {
      SourceAndTargetApart(db, targetId, sourceId, plan, e);
    }
    RepointStep(db, targetId, sourceId, done, owner, ids);
  }

  lemma DropEpisodesAdvances(db: Tables, targetId: Id, sourceId: Id, plan: Progress, done: Progress, ids: set<Id>)
    requires Merging(db, targetId, sourceId, plan)
    requires done.repoints == plan.repoints && ids <= plan.dropEpisodes
    ensures Apply(At(db, targetId, sourceId, done), DeleteEpisodes, ids)
         == At(db, targetId, sourceId, done.(dropEpisodes := done.dropEpisodes + ids))
  {
    forall e | e in done.repoints ensures done.repoints[e] !in ids {
      SourceAndTargetApart(db, targetId, sourceId, plan, e);
    }
    DropEpisodesStep(db, targetId, sourceId, done, ids);
  }

  lemma DropSeasonsAdvances(db: Tables, targetId: Id, sourceId: Id, plan: Progress, done: Progress, ids: set<Id>)
    requires Merging(db, targetId, sourceId, plan)
    requires done.moves == plan.moves && done.dropEpisodes == plan.dropEpisodes && ids <= plan.dropSeasons
    ensures Apply(At(db, targetId, sourceId, done), DeleteSeasons, ids)
         == At(db, targetId, sourceId, done.(dropSeasons := done.dropSeasons + ids))
  {
    forall e | e in db.episodes && e !in done.dropEpisodes ensures EpisodeAt(e, db.episodes[e], done).seasonId !in ids {
      SeasonsAreEmpty(db, targetId, sourceId, plan, done, e);
    }
    DropSeasonsStep(db, targetId, sourceId, done, ids);
  }

  lemma StatementAdvances(db: Tables, targetId: Id, sourceId: Id, plan: Progress, done: Progress, statement: Statement, ids: set<Id>)
    requires Merging(db, targetId, sourceId, plan) && InOrder(plan, done)
    requires Due(targetId, sourceId, plan, done, statement, ids)
    ensures Apply(At(db, targetId, sourceId, done), statement, ids) == At(db, targetId, sourceId, Advance(done, statement, ids))
  {
    match statement
    case RepointFiles(_, owner) => RepointAdvances(db, targetId, sourceId, plan, done, owner, ids);
    case MoveEpisodes(owner) => MoveStep(db, targetId, sourceId, done, owner, ids);
    case TransferSeasons(_) => TransferStep(db, targetId, sourceId, done, ids);
    case DeleteEpisodes => DropEpisodesAdvances(db, targetId, sourceId, plan, done, ids);
    case DeleteSeasons => DropSeasonsAdvances(db, targetId, sourceId, plan, done, ids);
    case RetagFiles(_, _) => RetagStep(db, targetId, sourceId, done, ids);
  }

  /** A due statement keeps every file and constraint unless two files clash. */
  lemma DueStatementIsSafe(db: Tables, targetId: Id, sourceId: Id, plan: Progress, done: Progress, statement: Statement, ids: set<Id>)
    requires Merging(db, targetId, sourceId, plan) && InOrder(plan, done)
    requires Due(targetId, sourceId, plan, done, statement, ids)
    ensures NoFileClash(db, targetId, sourceId) ==> Safe(db, Apply(At(db, targetId, sourceId, done), statement, ids))
  {
    StatementAdvances(db, targetId, sourceId, plan, done, statement, ids);
    AdvanceInOrder(targetId, sourceId, plan, done, statement, ids);
    if NoFileClash(db, targetId, sourceId) {
      NoFileIsLost(db, targetId, sourceId, plan, Advance(done, statement, ids));
    }
  }

  lemma ChunksAreSafe(db: Tables, targetId: Id, sourceId: Id, plan: Progress, done: Progress, statement: Statement, ids: seq<Id>)
    requires Merging(db, targetId, sourceId, plan) && InOrder(plan, done)
    requires Due(targetId, sourceId, plan, done, statement, ToSet(ids))
    ensures NoFileClash(db, targetId, sourceId) ==>
      forall n :: 0 < n <= |ids| ==> Safe(db, Apply(At(db, targetId, sourceId, done), statement, ToSet(ids[..n])))
  {
    forall n | 0 < n <= |ids| && NoFileClash(db, targetId, sourceId)
      ensures Safe(db, Apply(At(db, targetId, sourceId, done), statement, ToSet(ids[..n])))
    {
      DueForFewer(targetId, sourceId, plan, done, statement, ToSet(ids), ToSet(ids[..n]));
      DueStatementIsSafe(db, targetId, sourceId, plan, done, statement, ToSet(ids[..n]));
    }
  }

  /** A name for `Merging` whose content stays folded until `Unfold` is called, to keep the method proofs small. */
  ghost predicate Underway(db: Tables, targetId: Id, sourceId: Id, plan: Progress) {
    forall u {:trigger Key(u)} :: Key(u) ==> Merging(db, targetId, sourceId, plan)
  }

  lemma Unfold(db: Tables, targetId: Id, sourceId: Id, plan: Progress)
    requires Underway(db, targetId, sourceId, plan)
    ensures Merging(db, targetId, sourceId, plan)
  {
    assert Key(true);
  }

  /** The same, once it is known that no files clash. */
  ghost predicate ClearlyUnderway(db: Tables, targetId: Id, sourceId: Id, plan: Progress) {
    forall u {:trigger Key(u)} :: Key(u) ==> Merging(db, targetId, sourceId, plan) && NoFileClash(db, targetId, sourceId)
  }

  lemma UnfoldClear(db: Tables, targetId: Id, sourceId: Id, plan: Progress)
    requires ClearlyUnderway(db, targetId, sourceId, plan)
    ensures Merging(db, targetId, sourceId, plan) && Underway(db, targetId, sourceId, plan)
    ensures NoFileClash(db, targetId, sourceId)
  {
    assert Key(true);
  }

  /** `now` is what a statement leaves after some of its chunks. */
  ghost predicate AfterSome(db: Tables, statement: Statement, ids: seq<Id>, now: Tables) {
    exists n :: 0 < n <= |ids| && now == Apply(db, statement, ToSet(ids[..n]))
  }

  lemma ChunkStep(db: Tables, statement: Statement, ids: seq<Id>, i: nat, j: nat)
    requires i < j <= |ids|
    ensures i == 0 ==> Apply(db, statement, ToSet(ids[i..j])) == Apply(db, statement, ToSet(ids[..j]))
    ensures Apply(Apply(db, statement, ToSet(ids[..i])), statement, ToSet(ids[i..j])) == Apply(db, statement, ToSet(ids[..j]))
    ensures AfterSome(db, statement, ids, Apply(db, statement, ToSet(ids[..j])))
  {
    ChunksCompose(db, statement, ToSet(ids[..i]), ToSet(ids[i..j]));
    assert ids[..j] == ids[..i] + ids[i..j];
    assert ToSet(ids[..i]) + ToSet(ids[i..j]) == ToSet(ids[..j]);
  }

  /** The tables once the statement has run over the first `i` ids. Kept folded until `Key(true)` is mentioned. */
  ghost predicate Reached(db: Tables, statement: Statement, ids: seq<Id>, i: nat, now: Tables)
    requires i <= |ids|
  {
    forall u {:trigger Key(u)} :: Key(u) ==> now == if i == 0 then db else Apply(db, statement, ToSet(ids[..i]))
  }

  lemma ReachNext(db: Tables, statement: Statement, ids: seq<Id>, i: nat, j: nat, now: Tables)
    requires i < j <= |ids| && Reached(db, statement, ids, i, now)
    ensures Reached(db, statement, ids, j, Apply(now, statement, ToSet(ids[i..j])))
    ensures AfterSome(db, statement, ids, Apply(now, statement, ToSet(ids[i..j])))
  {
    assert Key(true);
    ChunkStep(db, statement, ids, i, j);
  }

  lemma ReachedAll(db: Tables, statement: Statement, ids: seq<Id>, i: nat, now: Tables)
    requires i <= |ids| && Reached(db, statement, ids, i, now)
    ensures i == 0 ==> now == db
    ensures i == |ids| && i > 0 ==> now == Apply(db, statement, ToSet(ids))
  {
    assert Key(true);
    assert ids[..|ids|] == ids;
  }

  /** What the repository may rely on when it issues the next batched statement. */
  lemma NextStatement(db: Tables, targetId: Id, sourceId: Id, plan: Progress, done: Progress, statement: Statement, ids: seq<Id>)
    requires Underway(db, targetId, sourceId, plan) && InOrder(plan, done)
    requires Due(targetId, sourceId, plan, done, statement, ToSet(ids))
    ensures Apply(At(db, targetId, sourceId, done), statement, ToSet(ids)) == At(db, targetId, sourceId, Advance(done, statement, ToSet(ids)))
    ensures InOrder(plan, Advance(done, statement, ToSet(ids)))
    ensures NoFileClash(db, targetId, sourceId) ==>
      forall now :: AfterSome(At(db, targetId, sourceId, done), statement, ids, now) ==> Safe(db, now)
  {
    Unfold(db, targetId, sourceId, plan);
    StatementAdvances(db, targetId, sourceId, plan, done, statement, ToSet(ids));
    AdvanceInOrder(targetId, sourceId, plan, done, statement, ToSet(ids));
    ChunksAreSafe(db, targetId, sourceId, plan, done, statement, ids);
  }

  lemma DueForFewer(targetId: Id, sourceId: Id, plan: Progress, done: Progress, statement: Statement, ids: set<Id>, fewer: set<Id>)
    requires Due(targetId, sourceId, plan, done, statement, ids) && fewer <= ids
    ensures Due(targetId, sourceId, plan, done, statement, fewer)
  {
  }

  lemma AdvanceByNothing(done: Progress, statement: Statement)
    requires !statement.RetagFiles?
    ensures Advance(done, statement, ToSet([])) == done
  {
  }

  // ----- movies

  function WithMovie(db: Tables, movieId: Id, titleId: Id): Tables {
    db.(movies := db.movies[movieId := titleId])
  }

  /** `UPDATE media_files SET metadata_id, movie_id WHERE metadata_id = sourceId`. */
  function MovieFilesMoved(db: Tables, targetId: Id, movieId: Id, sourceId: Id): Tables {
    db.(files := map f | f in db.files ::
      if db.files[f].titleId == sourceId then db.files[f].(titleId := targetId, movieId := Some(movieId)) else db.files[f])
  }

  /** A movie merge once the target has a movie row. */
  ghost predicate MergingMovies(db: Tables, targetId: Id, sourceId: Id, movieId: Id) {
    CanMerge(db, targetId, sourceId, Movie) && movieId in db.movies && db.movies[movieId] == targetId
  }

  lemma FilmFile(db: Tables, titleId: Id, f: Id)
    requires Integrity(db) && f in db.files && db.files[f].titleId == titleId
    requires titleId in db.titles && db.titles[titleId].kind == Movie
    ensures db.files[f].episodeId.None? && db.files[f].movieId.Some?
    ensures db.files[f].movieId.value in db.movies && db.movies[db.files[f].movieId.value] == titleId
  {
  }

  /** Two movies compete for one slot only through their default files. */
  lemma MovedFilmsCollide(db: Tables, targetId: Id, sourceId: Id, movieId: Id, f: Id, g: Id)
    requires MergingMovies(db, targetId, sourceId, movieId)
    requires f in db.files && g in db.files && f != g
    ensures var moved := MovieFilesMoved(db, targetId, movieId, sourceId).files;
            FilesCollide(moved[f], moved[g]) ==>
              || (db.files[f].titleId == sourceId && db.files[g].titleId == targetId && SlotClash(db, db.files[f], db.files[g]))
              || (db.files[g].titleId == sourceId && db.files[f].titleId == targetId && SlotClash(db, db.files[g], db.files[f]))
    ensures db.files[f].titleId == sourceId && db.files[g].titleId == targetId && SlotClash(db, db.files[f], db.files[g]) ==>
              var moved := MovieFilesMoved(db, targetId, movieId, sourceId).files; FilesCollide(moved[f], moved[g])
  {
    var a, b := db.files[f], db.files[g];
    assert !FilesCollide(a, b);
    assert FileFitsTitle(db, a) && FileKeys(db, a) && FileFitsTitle(db, b) && FileKeys(db, b);
    if a.titleId == sourceId { FilmFile(db, sourceId, f); }
    if b.titleId == sourceId { FilmFile(db, sourceId, g); }
    if a.titleId == targetId { FilmFile(db, targetId, f); }
    if b.titleId == targetId { FilmFile(db, targetId, g); }
  }

  lemma MovieClashIsExact(db: Tables, targetId: Id, sourceId: Id, movieId: Id)
    requires MergingMovies(db, targetId, sourceId, movieId)
    ensures FilesUnique(MovieFilesMoved(db, targetId, movieId, sourceId).files) <==> NoFileClash(db, targetId, sourceId)
  {
    var moved := MovieFilesMoved(db, targetId, movieId, sourceId).files;
    forall f, g | f in db.files && g in db.files && f != g
      ensures FilesCollide(moved[f], moved[g]) ==>
        || (db.files[f].titleId == sourceId && db.files[g].titleId == targetId && SlotClash(db, db.files[f], db.files[g]))
        || (db.files[g].titleId == sourceId && db.files[f].titleId == targetId && SlotClash(db, db.files[g], db.files[f]))
      ensures db.files[f].titleId == sourceId && db.files[g].titleId == targetId && SlotClash(db, db.files[f], db.files[g]) ==>
        FilesCollide(moved[f], moved[g])
    {
      MovedFilmsCollide(db, targetId, sourceId, movieId, f, g);
    }
  }

  lemma MovedFilmKeepsItsPlace(db: Tables, targetId: Id, sourceId: Id, movieId: Id, f: Id)
    requires MergingMovies(db, targetId, sourceId, movieId) && f in db.files
    ensures var now := MovieFilesMoved(db, targetId, movieId, sourceId);
      && FileCarriedOver(db, now, targetId, sourceId, db.files[f], now.files[f])
      && FileKeys(now, now.files[f]) && FileFitsTitle(now, now.files[f])
      && (now.files[f].movieId.Some? ==> now.movies[now.files[f].movieId.value] != sourceId)
  {
    var a := db.files[f];
    assert FileFitsTitle(db, a) && FileKeys(db, a);
    if a.titleId == sourceId { FilmFile(db, sourceId, f); }
  }

  lemma MovedFilmsAreEnforced(db: Tables, targetId: Id, sourceId: Id, movieId: Id)
    requires MergingMovies(db, targetId, sourceId, movieId) && NoFileClash(db, targetId, sourceId)
    ensures Enforced(MovieFilesMoved(db, targetId, movieId, sourceId))
  {
    var now := MovieFilesMoved(db, targetId, movieId, sourceId);
    assert FilesUnique(now.files) by { MovieClashIsExact(db, targetId, sourceId, movieId); }
    forall f | f in db.files ensures FileKeys(now, now.files[f]) {
      MovedFilmKeepsItsPlace(db, targetId, sourceId, movieId, f);
    }
  }

  lemma MovedFilmsAreConsistent(db: Tables, targetId: Id, sourceId: Id, movieId: Id)
    requires MergingMovies(db, targetId, sourceId, movieId)
    ensures Consistent(MovieFilesMoved(db, targetId, movieId, sourceId))
  {
    var now := MovieFilesMoved(db, targetId, movieId, sourceId);
    forall f | f in db.files ensures FileFitsTitle(now, now.files[f]) {
      MovedFilmKeepsItsPlace(db, targetId, sourceId, movieId, f);
    }
  }

  /** Repointing the films is the one statement that can fail, and it fails exactly on a clash. */
  lemma MovingFilmsDecides(db: Tables, targetId: Id, sourceId: Id, movieId: Id)
    requires MergingMovies(db, targetId, sourceId, movieId)
    ensures Enforced(MovieFilesMoved(db, targetId, movieId, sourceId)) <==> NoFileClash(db, targetId, sourceId)
    ensures MovieFilesMoved(db, targetId, movieId, sourceId).files.Keys == db.files.Keys
  {
    MovieClashIsExact(db, targetId, sourceId, movieId);
    if NoFileClash(db, targetId, sourceId) { MovedFilmsAreEnforced(db, targetId, sourceId, movieId); }
  }

  // ----- the common end: links, then the source row

  /** Everything below the source title has been folded into the target; titles and links are still as they were. */
  ghost predicate Folded(db: Tables, mid: Tables, targetId: Id, sourceId: Id) {
    && mid.titles == db.titles && mid.watchlist == db.watchlist && mid.ratings == db.ratings && mid.memberships == db.memberships
    && FilesCarriedOver(db, mid, targetId, sourceId)
    && MovieUnion(db, mid, targetId, sourceId)
    && SeasonUnion(db, mid, targetId, sourceId)
    && EpisodeUnion(db, mid, targetId, sourceId)
    && Integrity(mid)
  }

  function Linked(mid: Tables, targetId: Id, sourceId: Id, memberships: map<Link, int>): Tables
    requires targetId != sourceId
  {
    mid.(watchlist := JoinLinks(mid.watchlist, targetId, sourceId), ratings := JoinLinks(mid.ratings, targetId, sourceId),
    memberships := memberships)
  }

  function Finished(mid: Tables, targetId: Id, sourceId: Id): Tables
    requires targetId != sourceId
  {
    mid.(titles := map i | i in mid.titles && i != sourceId :: mid.titles[i],
    watchlist := JoinLinks(mid.watchlist, targetId, sourceId), ratings := JoinLinks(mid.ratings, targetId, sourceId),
    memberships := JoinLinks(mid.memberships, targetId, sourceId))
  }

  lemma EmptyTitleGoesAlone(db: Tables, titleId: Id)
    requires forall m :: m in db.movies ==> db.movies[m] != titleId
    requires forall s :: s in db.seasons ==> db.seasons[s].titleId != titleId
    requires forall e :: e in db.episodes ==> db.episodes[e].seasonId in db.seasons
    ensures WithoutTitle(db, titleId) == db.(
      titles := map i | i in db.titles && i != titleId :: db.titles[i],
      watchlist := WithoutLinks(db.watchlist, titleId),
      ratings := WithoutLinks(db.ratings, titleId),
      memberships := WithoutLinks(db.memberships, titleId))
  {
    assert (set m | m in db.movies && db.movies[m] == titleId) == {};
    assert (set s | s in db.seasons && db.seasons[s].titleId == titleId) == {};
    NoMovieGoes(db);
    NoSeasonGoes(db);
  }

  lemma NoMovieGoes(db: Tables)
    ensures WithoutMovies(db, {}) == db
  {
  }

  lemma NoSeasonGoes(db: Tables)
    ensures Apply(db, DeleteSeasons, {}) == db
  {
  }

  lemma JoinedLinksStay(links: map<Link, int>, targetId: Id, sourceId: Id)
    requires targetId != sourceId
    ensures WithoutLinks(JoinLinks(links, targetId, sourceId), sourceId) == JoinLinks(links, targetId, sourceId)
  {
  }

  lemma SourceRowGoesAlone(db: Tables, mid: Tables, targetId: Id, sourceId: Id, memberships: map<Link, int>)
    requires targetId != sourceId && Folded(db, mid, targetId, sourceId)
    requires WithoutLinks(memberships, sourceId) == JoinLinks(db.memberships, targetId, sourceId)
    ensures WithoutTitle(Linked(mid, targetId, sourceId, memberships), sourceId) == Finished(mid, targetId, sourceId)
  {
    EmptyTitleGoesAlone(Linked(mid, targetId, sourceId, memberships), sourceId);
    JoinedLinksStay(db.watchlist, targetId, sourceId);
    JoinedLinksStay(db.ratings, targetId, sourceId);
  }

  lemma FinishedIsEnforced(db: Tables, mid: Tables, targetId: Id, sourceId: Id)
    requires targetId != sourceId && targetId in db.titles && Folded(db, mid, targetId, sourceId)
    ensures Enforced(Finished(mid, targetId, sourceId))
  {
    var now := Finished(mid, targetId, sourceId);
    JoinIsHeld(db.watchlist, targetId, sourceId, db.titles.Keys);
    JoinIsHeld(db.ratings, targetId, sourceId, db.titles.Keys);
    JoinIsHeld(db.memberships, targetId, sourceId, db.titles.Keys);
    assert now.titles.Keys == db.titles.Keys - {sourceId};
    forall f | f in now.files ensures FileKeys(now, now.files[f]) {
      assert FileKeys(mid, mid.files[f]);
      assert FileCarriedOver(db, mid, targetId, sourceId, db.files[f], mid.files[f]);
    }
  }

  lemma FinishedIsConsistent(mid: Tables, targetId: Id, sourceId: Id)
    requires targetId != sourceId && Integrity(mid)
    ensures Consistent(Finished(mid, targetId, sourceId))
  {
  }

  /** Titles and links do not decide where a file, season or episode sits. */
  lemma FoldedStaysFolded(db: Tables, mid: Tables, now: Tables, targetId: Id, sourceId: Id)
    requires Folded(db, mid, targetId, sourceId)
    requires now == mid.(titles := now.titles, watchlist := now.watchlist, ratings := now.ratings, memberships := now.memberships)
    ensures FilesCarriedOver(db, now, targetId, sourceId) && MovieUnion(db, now, targetId, sourceId)
    ensures SeasonUnion(db, now, targetId, sourceId) && EpisodeUnion(db, now, targetId, sourceId)
  {
    forall f | f in db.files ensures FileCarriedOver(db, now, targetId, sourceId, db.files[f], now.files[f]) {
      assert FileCarriedOver(db, mid, targetId, sourceId, db.files[f], mid.files[f]);
    }
    forall s | s in db.seasons && db.seasons[s].titleId == sourceId ensures HasSeason(now, targetId, db.seasons[s].number) {
      assert HasSeason(mid, targetId, db.seasons[s].number);
    }
    SameEpisodesStayFolded(db, mid, now, targetId, sourceId);
  }

  lemma SameEpisodesStayFolded(db: Tables, mid: Tables, now: Tables, targetId: Id, sourceId: Id)
    requires EpisodeUnion(db, mid, targetId, sourceId)
    requires now.seasons == mid.seasons && now.episodes == mid.episodes
    ensures EpisodeUnion(db, now, targetId, sourceId)
  {
    forall e | EpisodeIn(db, e, sourceId) ensures HasEpisode(now, targetId, EpisodeSlotOf(db, e)) {
      assert HasEpisode(mid, targetId, EpisodeSlotOf(db, e));
      var d :| EpisodeIn(mid, d, targetId) && EpisodeSlotOf(mid, d) == EpisodeSlotOf(db, e);
      assert EpisodeIn(now, d, targetId) && EpisodeSlotOf(now, d) == EpisodeSlotOf(db, e);
    }
    forall e | e in now.episodes ensures EpisodeSlotOf(now, e) == EpisodeSlotOf(db, e) {
      assert EpisodeSlotOf(now, e) == EpisodeSlotOf(mid, e);
    }
    forall e | e in now.episodes && EpisodeIn(db, e, sourceId) ensures EpisodeIn(now, e, targetId) {
      assert EpisodeIn(mid, e, targetId);
    }
  }

  lemma FinishedIsMerged(db: Tables, mid: Tables, targetId: Id, sourceId: Id)
    requires targetId != sourceId && targetId in db.titles && Folded(db, mid, targetId, sourceId)
    ensures Merged(db, Finished(mid, targetId, sourceId), targetId, sourceId)
  {
    FinishedIsEnforced(db, mid, targetId, sourceId);
    FinishedIsConsistent(mid, targetId, sourceId);
    FoldedStaysFolded(db, mid, Finished(mid, targetId, sourceId), targetId, sourceId);
  }

  lemma ShowsHaveNoMovies(db: Tables, targetId: Id, sourceId: Id, plan: Progress)
    requires CanMerge(db, targetId, sourceId, TvShow)
    ensures MovieUnion(db, At(db, targetId, sourceId, plan), targetId, sourceId)
  {
  }

  lemma ShowsAreFolded(db: Tables, targetId: Id, sourceId: Id, plan: Progress)
    requires CanMerge(db, targetId, sourceId, TvShow)
    requires Merging(db, targetId, sourceId, plan) && NoFileClash(db, targetId, sourceId)
    ensures Folded(db, At(db, targetId, sourceId, plan), targetId, sourceId)
  {
    var mid := At(db, targetId, sourceId, plan);
    assert FilesCarriedOver(db, mid, targetId, sourceId) by { FilesAreCarriedOver(db, targetId, sourceId, plan); }
    assert SeasonUnion(db, mid, targetId, sourceId) by { SeasonsAreUnion(db, targetId, sourceId, plan); }
    assert EpisodeUnion(db, mid, targetId, sourceId) by { EpisodesAreUnion(db, targetId, sourceId, plan); }
    assert MovieUnion(db, mid, targetId, sourceId) by { ShowsHaveNoMovies(db, targetId, sourceId, plan); }
    assert Integrity(mid) by {
      NoFileIsLost(db, targetId, sourceId, plan, plan);
      MergeStaysConsistent(db, targetId, sourceId, plan);
    }
  }

  /** Creating the missing movie row of the target changes nothing a merge depends on. */
  lemma NewMovieRow(db: Tables, targetId: Id, sourceId: Id, movieId: Id)
    requires CanMerge(db, targetId, sourceId, Movie)
    requires movieId !in db.movies && forall m :: m in db.movies ==> db.movies[m] != targetId
    ensures MergingMovies(WithMovie(db, movieId, targetId), targetId, sourceId, movieId)
  {
    var now := WithMovie(db, movieId, targetId);
    forall f | f in now.files ensures FileKeys(now, now.files[f]) && FileFitsTitle(now, now.files[f]) {
      assert FileKeys(db, db.files[f]) && FileFitsTitle(db, db.files[f]);
    }
    assert EpisodesUnique(now) by { assert now.episodes == db.episodes; }
    assert SeasonsUnique(now) by { assert now.seasons == db.seasons; }
  }

  lemma MovieRowsDoNotClash(db: Tables, targetId: Id, sourceId: Id, movies: map<Id, Id>)
    ensures NoFileClash(db.(movies := movies), targetId, sourceId) <==> NoFileClash(db, targetId, sourceId)
  {
  }

  function SourceMovies(db: Tables, sourceId: Id): set<Id> {
    set m | m in db.movies && db.movies[m] == sourceId
  }

  lemma UnusedMoviesGoAlone(db: Tables, ids: set<Id>)
    requires forall f :: f in db.files && db.files[f].movieId.Some? ==> db.files[f].movieId.value !in ids
    ensures WithoutMovies(db, ids) == db.(movies := map m | m in db.movies && m !in ids :: db.movies[m])
  {
  }

  /** Deleting the source's movie row takes no file along: its files were repointed. */
  lemma SourceMovieGoesAlone(db: Tables, targetId: Id, sourceId: Id, movieId: Id)
    requires MergingMovies(db, targetId, sourceId, movieId)
    ensures WithoutMovies(MovieFilesMoved(db, targetId, movieId, sourceId), SourceMovies(db, sourceId))
         == MovieFilesMoved(db, targetId, movieId, sourceId).(movies := OtherMovies(db, sourceId))
  {
    var moved := MovieFilesMoved(db, targetId, movieId, sourceId);
    forall f | f in moved.files && moved.files[f].movieId.Some? ensures moved.files[f].movieId.value !in SourceMovies(db, sourceId) {
      MovedFilmKeepsItsPlace(db, targetId, sourceId, movieId, f);
    }
    UnusedMoviesGoAlone(moved, SourceMovies(db, sourceId));
  }

  function OtherMovies(db: Tables, titleId: Id): map<Id, Id> {
    map m | m in db.movies && db.movies[m] != titleId :: db.movies[m]
  }

  lemma FilmsHaveNoSeasons(db: Tables, now: Tables, targetId: Id, sourceId: Id)
    requires CanMerge(db, targetId, sourceId, Movie)
    requires now.seasons == db.seasons && now.episodes == db.episodes
    ensures SeasonUnion(db, now, targetId, sourceId) && EpisodeUnion(db, now, targetId, sourceId)
  {
    forall e ensures !EpisodeIn(db, e, sourceId) {}
  }

  lemma MovieRowsFit(db: Tables, now: Tables)
    requires Integrity(db)
    requires now == db.(movies := now.movies)
    requires forall m :: m in now.movies ==> m in db.movies && now.movies[m] == db.movies[m]
    requires forall f :: f in db.files && db.files[f].movieId.Some? ==> db.files[f].movieId.value in now.movies
    ensures Integrity(now)
  {
    forall f | f in now.files ensures FileKeys(now, now.files[f]) && FileFitsTitle(now, now.files[f]) {
      assert FileKeys(db, db.files[f]) && FileFitsTitle(db, db.files[f]);
    }
  }

  /** The tables once the films of the source are folded into the target's movie row. */
  function FilmsFolded(db: Tables, targetId: Id, sourceId: Id, movieId: Id): Tables {
    WithoutMovies(MovieFilesMoved(db, targetId, movieId, sourceId), SourceMovies(db, sourceId))
  }

  lemma FoldedFilmsKeepIntegrity(db: Tables, targetId: Id, sourceId: Id, movieId: Id)
    requires MergingMovies(db, targetId, sourceId, movieId) && NoFileClash(db, targetId, sourceId)
    ensures Integrity(FilmsFolded(db, targetId, sourceId, movieId))
  {
    var moved := MovieFilesMoved(db, targetId, movieId, sourceId);
    SourceMovieGoesAlone(db, targetId, sourceId, movieId);
    assert Integrity(moved) by {
      MovedFilmsAreEnforced(db, targetId, sourceId, movieId);
      MovedFilmsAreConsistent(db, targetId, sourceId, movieId);
    }
    forall f | f in moved.files && moved.files[f].movieId.Some? ensures moved.files[f].movieId.value in OtherMovies(db, sourceId) {
      MovedFilmKeepsItsPlace(db, targetId, sourceId, movieId, f);
    }
    MovieRowsFit(moved, FilmsFolded(db, targetId, sourceId, movieId));
  }

  lemma FoldedFilmsCarryOver(db: Tables, withRow: Tables, targetId: Id, sourceId: Id, movieId: Id)
    requires withRow == db || withRow == WithMovie(db, movieId, targetId)
    requires MergingMovies(withRow, targetId, sourceId, movieId)
    ensures FilesCarriedOver(db, FilmsFolded(withRow, targetId, sourceId, movieId), targetId, sourceId)
  {
    var moved, mid := MovieFilesMoved(withRow, targetId, movieId, sourceId), FilmsFolded(withRow, targetId, sourceId, movieId);
    SourceMovieGoesAlone(withRow, targetId, sourceId, movieId);
    forall f | f in withRow.files ensures FileCarriedOver(withRow, moved, targetId, sourceId, withRow.files[f], moved.files[f]) {
      MovedFilmKeepsItsPlace(withRow, targetId, sourceId, movieId, f);
    }
    MovieRowsDoNotPlaceFiles(db, withRow, moved, mid, targetId, sourceId);
  }

  lemma MovieRowsDoNotPlaceFiles(db: Tables, withRow: Tables, moved: Tables, mid: Tables, targetId: Id, sourceId: Id)
    requires FilesCarriedOver(withRow, moved, targetId, sourceId)
    requires withRow == db.(movies := withRow.movies) && mid == moved.(movies := mid.movies)
    ensures FilesCarriedOver(db, mid, targetId, sourceId)
  {
    forall f | f in db.files ensures FileCarriedOver(db, mid, targetId, sourceId, db.files[f], mid.files[f]) {
      assert FileCarriedOver(withRow, moved, targetId, sourceId, withRow.files[f], moved.files[f]);
    }
  }

  lemma FoldedFilmsUniteMovies(db: Tables, withRow: Tables, targetId: Id, sourceId: Id, movieId: Id)
    requires withRow == db || (movieId !in db.movies && withRow == WithMovie(db, movieId, targetId))
    requires MergingMovies(withRow, targetId, sourceId, movieId)
    ensures MovieUnion(db, FilmsFolded(withRow, targetId, sourceId, movieId), targetId, sourceId)
  {
  }

  lemma FilmsAreFolded(db: Tables, withRow: Tables, targetId: Id, sourceId: Id, movieId: Id)
    requires CanMerge(db, targetId, sourceId, Movie)
    requires withRow == db || (movieId !in db.movies && withRow == WithMovie(db, movieId, targetId))
    requires MergingMovies(withRow, targetId, sourceId, movieId) && NoFileClash(withRow, targetId, sourceId)
    ensures Folded(db, FilmsFolded(withRow, targetId, sourceId, movieId), targetId, sourceId)
  {
    var mid := FilmsFolded(withRow, targetId, sourceId, movieId);
    assert Integrity(mid) by { FoldedFilmsKeepIntegrity(withRow, targetId, sourceId, movieId); }
    assert FilesCarriedOver(db, mid, targetId, sourceId) by { FoldedFilmsCarryOver(db, withRow, targetId, sourceId, movieId); }
    assert MovieUnion(db, mid, targetId, sourceId) by { FoldedFilmsUniteMovies(db, withRow, targetId, sourceId, movieId); }
    assert SeasonUnion(db, mid, targetId, sourceId) && EpisodeUnion(db, mid, targetId, sourceId) by {
      FilmsHaveNoSeasons(db, mid, targetId, sourceId);
    }
  }

  // ----- reading the rows of a show

  method SelectSeasons(db: Tables, titleId: Id) returns (rows: seq<SeasonRow>)
    ensures SeasonRowsOf(db, titleId, rows)
  {
    rows := [];
    var left := db.seasons.Keys;
    while left != {}
      invariant left <= db.seasons.Keys
      invariant forall i :: 0 <= i < |rows| ==> rows[i].id in db.seasons && db.seasons[rows[i].id] == Season(titleId, rows[i].number)
      invariant forall s :: s in db.seasons && s !in left && db.seasons[s].titleId == titleId ==> SeasonRow(s, db.seasons[s].number) in rows
      decreases left
    {
      var s :| s in left;
      if db.seasons[s].titleId == titleId { rows := rows + [SeasonRow(s, db.seasons[s].number)]; }
      left := left - {s};
    }
  }

  method SelectEpisodesOfSeasons(db: Tables, seasonIds: set<Id>) returns (rows: seq<EpisodeRow>)
    ensures forall r :: r in rows ==> r.id in db.episodes && r == EpisodeRowFor(db, r.id) && r.seasonId in seasonIds
    ensures forall e :: e in db.episodes && db.episodes[e].seasonId in seasonIds ==> EpisodeRowFor(db, e) in rows
  {
    rows := [];
    var left := db.episodes.Keys;
    while left != {}
      invariant left <= db.episodes.Keys
      invariant forall r :: r in rows ==> r.id in db.episodes && r == EpisodeRowFor(db, r.id) && r.seasonId in seasonIds
      invariant forall e :: e in db.episodes && e !in left && db.episodes[e].seasonId in seasonIds ==> EpisodeRowFor(db, e) in rows
      decreases left
    {
      var e :| e in left;
      if db.episodes[e].seasonId in seasonIds { rows := rows + [EpisodeRowFor(db, e)]; }
      left := left - {e};
    }
  }

  /** `groupBy(rows, seasonId)`. */
  method GroupBySeason(rows: seq<EpisodeRow>) returns (groups: map<Id, seq<EpisodeRow>>)
    ensures forall s, i :: s in groups && 0 <= i < |groups[s]| ==> groups[s][i] in rows && groups[s][i].seasonId == s
    ensures forall r :: r in rows ==> r in RowsOf(groups, r.seasonId)
  {
    groups := map[];
    for k := 0 to |rows|
      invariant forall s, i :: s in groups && 0 <= i < |groups[s]| ==> groups[s][i] in rows && groups[s][i].seasonId == s
      invariant forall j :: 0 <= j < k ==> rows[j] in RowsOf(groups, rows[j].seasonId)
    {
      var row := rows[k];
      if row.seasonId in groups {
        groups := groups[row.seasonId := groups[row.seasonId] + [row]];
      } else {
        groups := groups[row.seasonId := [row]];
      }
    }
  }

  /** The episodes of a title, grouped by season. */
  method EpisodesOfTitle(db: Tables, titleId: Id, seasons: seq<SeasonRow>) returns (groups: map<Id, seq<EpisodeRow>>)
    requires SeasonRowsOf(db, titleId, seasons)
    ensures EpisodeRowsOf(db, titleId, groups)
  {
    var ids := set i | 0 <= i < |seasons| :: seasons[i].id;
    var rows := SelectEpisodesOfSeasons(db, ids);
    groups := GroupBySeason(rows);
    forall s, i | s in groups && 0 <= i < |groups[s]| ensures EpisodeRowFits(db, titleId, s, groups[s][i]) {
      assert groups[s][i] in rows;
    }
    forall e | EpisodeIn(db, e, titleId) ensures EpisodeRowFor(db, e) in RowsOf(groups, db.episodes[e].seasonId) {
      assert SeasonRow(db.episodes[e].seasonId, db.seasons[db.episodes[e].seasonId].number) in seasons;
      assert db.episodes[e].seasonId in ids;
      assert EpisodeRowFor(db, e) in rows;
    }
  }

  /** Merging two shows leaves the movie rows alone. */
  lemma ShowRowsLeft(db: Tables, now: Tables, targetId: Id, sourceId: Id)
    requires CanMerge(db, targetId, sourceId, TvShow) && Merged(db, now, targetId, sourceId)
    ensures RowsLeft(db.movies, now.movies)
  {
    assert MovieUnion(db, now, targetId, sourceId) && Consistent(db) && Consistent(now);
  }

  // ----- the repository

  class MergeRepository {
    var titles: map<Id, Title>
    var movies: map<Id, Id>
    var seasons: map<Id, Season>
    var episodes: map<Id, Episode>
    var files: map<Id, MediaFile>
    var watchlist: map<Link, int>
    var ratings: map<Link, int>
    var memberships: map<Link, int>
    /** The stable keys of the movie rows. */
    const movieKeys: MovieKeys
    /** The tables after each statement so far. */
    ghost var history: seq<Tables>

    constructor (db: Tables, movieKeys: MovieKeys)
      ensures Snapshot() == db && history == [] && this.movieKeys == movieKeys
    {
      this.movieKeys := movieKeys;
      titles, movies, seasons, episodes, files := db.titles, db.movies, db.seasons, db.episodes, db.files;
      watchlist, ratings, memberships := db.watchlist, db.ratings, db.memberships;
      history := [];
    }

    function Snapshot(): Tables
      reads this
    {
      Tables(titles, movies, seasons, episodes, files, watchlist, ratings, memberships)
    }

    /** Movie rows have keys, unique ones, and keys made from ids name the title of their row. */
    ghost predicate KeysFit()
      reads this, movieKeys
    {
      KeyedRows(movies, movieKeys.of)
    }

    /** Every table recorded since `from` keeps the files and constraints of `before`. */
    ghost predicate SafeSince(before: Tables, from: nat)
      reads this
    {
      forall k :: from <= k < |history| ==> Safe(before, history[k])
    }

    method Store(db: Tables)
      modifies this
      ensures Snapshot() == db && history == old(history)
    {
      titles, movies, seasons, episodes, files := db.titles, db.movies, db.seasons, db.episodes, db.files;
      watchlist, ratings, memberships := db.watchlist, db.ratings, db.memberships;
    }

    /** Runs one statement; false means a constraint rejected it. */
    method Commit(db: Tables) returns (ok: bool)
      modifies this
      ensures Snapshot() == db && history == old(history) + [db]
      ensures ok == Enforced(db)
    {
      Store(db);
      history := history + [db];
      ok := Enforced(db);
    }

    /** One statement per chunk of ids, in order, stopping at the first rejected one. */
    method ForEachChunked(statement: Statement, ids: seq<Id>) returns (ok: bool)
      modifies this
      ensures old(history) <= history
      ensures forall k :: |old(history)| <= k < |history| ==> AfterSome(old(Snapshot()), statement, ids, history[k])
      ensures ok ==> if ids == [] then Snapshot() == old(Snapshot())
                     else Snapshot() == Apply(old(Snapshot()), statement, ToSet(ids)) && Enforced(Snapshot())
      ensures !ok ==> exists now :: AfterSome(old(Snapshot()), statement, ids, now) && !Enforced(now)
    {
      ghost var db := Snapshot();
      var i := 0;
      ok := true;
      while i < |ids| && ok
        invariant 0 <= i <= |ids|
        invariant old(history) <= history
        invariant forall k :: |old(history)| <= k < |history| ==> AfterSome(db, statement, ids, history[k])
        invariant Reached(db, statement, ids, i, Snapshot())
        invariant i == 0 ==> ok
        invariant i > 0 ==> ok == Enforced(Snapshot()) && AfterSome(db, statement, ids, Snapshot())
      {
        var j := ChunkEnd(i, |ids|);
        ghost var now := Snapshot();
        ReachNext(db, statement, ids, i, j, now);
        ok := CommitSlice(statement, ids[i..j]);
        i := j;
      }
      ReachedAll(db, statement, ids, i, Snapshot());
    }

    method CommitSlice(statement: Statement, slice: seq<Id>) returns (ok: bool)
      modifies this
      ensures Snapshot() == Apply(old(Snapshot()), statement, ToSet(slice)) && history == old(history) + [Snapshot()]
      ensures ok == Enforced(Snapshot())
    {
      ok := Commit(Apply(Snapshot(), statement, ToSet(slice)));
    }

    /** Runs the next batched statement of a show merge. */
    method RunDue(
        ghost db: Tables, ghost targetId: Id, ghost sourceId: Id, ghost plan: Progress, ghost done: Progress,
        statement: Statement, ids: seq<Id>)
      returns (ok: bool)
      requires Underway(db, targetId, sourceId, plan) && InOrder(plan, done)
      requires Due(targetId, sourceId, plan, done, statement, ToSet(ids)) && !statement.RetagFiles?
      requires Snapshot() == At(db, targetId, sourceId, done)
      modifies this
      ensures old(history) <= history
      ensures ok ==> Snapshot() == At(db, targetId, sourceId, Advance(done, statement, ToSet(ids)))
      ensures InOrder(plan, Advance(done, statement, ToSet(ids)))
      ensures ok && old(FilesUnique(files)) ==> FilesUnique(files)
      ensures NoFileClash(db, targetId, sourceId) ==> ok && SafeSince(db, |old(history)|)
    {
      NextStatement(db, targetId, sourceId, plan, done, statement, ids);
      ok := ForEachChunked(statement, ids);
      if ids == [] { AdvanceByNothing(done, statement); }
    }

    /** The repoint statements, one target episode after the other. */
    method RepointAll(ghost db: Tables, targetId: Id, ghost sourceId: Id, plan: Lists) returns (ok: bool)
      requires Underway(db, targetId, sourceId, AllOf(plan)) && OwnersAgree(plan.mediaFileRepoints)
      requires Snapshot() == db && FilesUnique(files)
      modifies this
      ensures old(history) <= history
      ensures ok ==> FilesUnique(files)
      ensures ok ==> Snapshot() == At(db, targetId, sourceId, NOTHING_DONE.(repoints := AllOf(plan).repoints))
      ensures NoFileClash(db, targetId, sourceId) ==> ok && SafeSince(db, |old(history)|)
    {
      ok := true;
      ghost var done := NOTHING_DONE;
      StartsUnchanged(db, targetId, sourceId);
      for i := 0 to |plan.mediaFileRepoints|
        invariant ok && old(history) <= history
        invariant done == NOTHING_DONE.(repoints := Flattened(plan.mediaFileRepoints[..i]))
        invariant InOrder(AllOf(plan), done)
        invariant Snapshot() == At(db, targetId, sourceId, done) && FilesUnique(files)
        invariant NoFileClash(db, targetId, sourceId) ==> SafeSince(db, |old(history)|)
      {
        var entry := plan.mediaFileRepoints[i];
        ok := RunDue(db, targetId, sourceId, AllOf(plan), done, RepointFiles(targetId, entry.owner), entry.ids);
        if !ok { return; }
        FlattenedNext(plan.mediaFileRepoints, i);
        done := Advance(done, RepointFiles(targetId, entry.owner), ToSet(entry.ids));
      }
      assert plan.mediaFileRepoints[..|plan.mediaFileRepoints|] == plan.mediaFileRepoints;
    }

    /** A batched statement once the repoints have shown that no files clash: it cannot fail. */
    method RunSafely(
        ghost db: Tables, ghost targetId: Id, ghost sourceId: Id, ghost plan: Progress, ghost done: Progress,
        statement: Statement, ids: seq<Id>, ghost from: nat)
      requires ClearlyUnderway(db, targetId, sourceId, plan)
      requires InOrder(plan, done) && Due(targetId, sourceId, plan, done, statement, ToSet(ids)) && !statement.RetagFiles?
      requires Snapshot() == At(db, targetId, sourceId, done)
      requires from <= |history| && SafeSince(db, from)
      modifies this
      ensures old(history) <= history && SafeSince(db, from)
      ensures Snapshot() == At(db, targetId, sourceId, Advance(done, statement, ToSet(ids)))
      ensures InOrder(plan, Advance(done, statement, ToSet(ids)))
    {
      UnfoldClear(db, targetId, sourceId, plan);
      var _ := RunDue(db, targetId, sourceId, plan, done, statement, ids);
    }

    /** The move statements, one target season after the other. */
    method MoveAll(ghost db: Tables, ghost targetId: Id, ghost sourceId: Id, plan: Lists, ghost from: nat)
      requires ClearlyUnderway(db, targetId, sourceId, AllOf(plan))
      requires OwnersAgree(plan.movesByTargetSeason)
      requires Snapshot() == At(db, targetId, sourceId, NOTHING_DONE.(repoints := AllOf(plan).repoints))
      requires from <= |history| && SafeSince(db, from)
      modifies this
      ensures old(history) <= history && SafeSince(db, from)
      ensures Snapshot() == At(db, targetId, sourceId, NOTHING_DONE.(repoints := AllOf(plan).repoints, moves := AllOf(plan).moves))
    {
      ghost var all := AllOf(plan);
      ghost var done := NOTHING_DONE.(repoints := all.repoints);
      for i := 0 to |plan.movesByTargetSeason|
        invariant done == NOTHING_DONE.(repoints := all.repoints, moves := Flattened(plan.movesByTargetSeason[..i]))
        invariant InOrder(all, done)
        invariant Snapshot() == At(db, targetId, sourceId, done)
        invariant old(history) <= history && SafeSince(db, from)
      {
        var entry := plan.movesByTargetSeason[i];
        RunSafely(db, targetId, sourceId, all, done, MoveEpisodes(entry.owner), entry.ids, from);
        FlattenedNext(plan.movesByTargetSeason, i);
        done := Advance(done, MoveEpisodes(entry.owner), ToSet(entry.ids));
      }
      assert plan.movesByTargetSeason[..|plan.movesByTargetSeason|] == plan.movesByTargetSeason;
    }

    method TransferAll(ghost db: Tables, targetId: Id, ghost sourceId: Id, plan: Lists, ghost from: nat)
      requires ClearlyUnderway(db, targetId, sourceId, AllOf(plan))
      requires Snapshot() == At(db, targetId, sourceId, NOTHING_DONE.(repoints := AllOf(plan).repoints, moves := AllOf(plan).moves))
      requires from <= |history| && SafeSince(db, from)
      modifies this
      ensures old(history) <= history && SafeSince(db, from)
      ensures Snapshot() == At(db, targetId, sourceId, AllOf(plan).(dropEpisodes := {}, dropSeasons := {}, retagged := false))
    {
      assert {} + ToSet(plan.transferSeasonIds) == AllOf(plan).transfers;
      RunSafely(db, targetId, sourceId, AllOf(plan), NOTHING_DONE.(repoints := AllOf(plan).repoints, moves := AllOf(plan).moves),
                TransferSeasons(targetId), plan.transferSeasonIds, from);
    }

    /** Destructive deletes last: episodes before seasons. */
    method DropAll(ghost db: Tables, ghost targetId: Id, ghost sourceId: Id, plan: Lists, ghost from: nat)
      requires ClearlyUnderway(db, targetId, sourceId, AllOf(plan))
      requires Snapshot() == At(db, targetId, sourceId, AllOf(plan).(dropEpisodes := {}, dropSeasons := {}, retagged := false))
      requires from <= |history| && SafeSince(db, from)
      modifies this
      ensures old(history) <= history && SafeSince(db, from)
      ensures Snapshot() == At(db, targetId, sourceId, AllOf(plan).(retagged := false))
    {
      ghost var all := AllOf(plan);
      assert {} + ToSet(plan.deleteEpisodeIds) == all.dropEpisodes && {} + ToSet(plan.deleteSeasonIds) == all.dropSeasons;
      RunSafely(db, targetId, sourceId, all, all.(dropEpisodes := {}, dropSeasons := {}, retagged := false),
                DeleteEpisodes, plan.deleteEpisodeIds, from);
      RunSafely(db, targetId, sourceId, all, all.(dropSeasons := {}, retagged := false), DeleteSeasons, plan.deleteSeasonIds, from);
    }

    /** Last, the files that kept their episode take the target's id. */
    method RetagLast(ghost db: Tables, targetId: Id, sourceId: Id, ghost plan: Progress, ghost from: nat)
      requires ClearlyUnderway(db, targetId, sourceId, plan)
      requires Snapshot() == At(db, targetId, sourceId, plan.(retagged := false))
      requires from <= |history| && SafeSince(db, from)
      modifies this
      ensures old(history) <= history && SafeSince(db, from)
      ensures Snapshot() == At(db, targetId, sourceId, plan)
    {
      ghost var done := plan.(retagged := false);
      UnfoldClear(db, targetId, sourceId, plan);
      StatementAdvances(db, targetId, sourceId, plan, done, RetagFiles(targetId, sourceId), {});
      DueStatementIsSafe(db, targetId, sourceId, plan, done, RetagFiles(targetId, sourceId), {});
      var _ := Commit(Apply(Snapshot(), RetagFiles(targetId, sourceId), {}));
    }

    /** `mergeTvShowData`. */
    method MergeTvShowData(targetId: Id, sourceId: Id) returns (ok: bool)
      requires CanMerge(Snapshot(), targetId, sourceId, TvShow)
      modifies this
      ensures old(history) <= history
      ensures ok <==> NoFileClash(old(Snapshot()), targetId, sourceId)
      ensures ok ==> FoldedAway(old(Snapshot()), Snapshot(), targetId, sourceId)
      ensures ok ==> SafeSince(old(Snapshot()), |old(history)|)
    {
      ghost var db := Snapshot();
      var sourceSeasons := SelectSeasons(Snapshot(), sourceId);
      var targetSeasons := SelectSeasons(Snapshot(), targetId);
      var sourceEps := EpisodesOfTitle(Snapshot(), sourceId, sourceSeasons);
      var targetEps := EpisodesOfTitle(Snapshot(), targetId, targetSeasons);
      var plan := PlanTvShowMerge(sourceSeasons, targetSeasons, sourceEps, targetEps);
      PlannerPlans(db, targetId, sourceId, sourceSeasons, targetSeasons, sourceEps, targetEps, plan);
      PlannerOwnersAgree(db, targetId, sourceId, sourceSeasons, targetSeasons, sourceEps, targetEps, plan);
      ok := RepointAll(db, targetId, sourceId, plan);
      if !ok { return; }
      RepointsRevealClashes(db, targetId, sourceId, AllOf(plan));
      MoveAll(db, targetId, sourceId, plan, |old(history)|);
      TransferAll(db, targetId, sourceId, plan, |old(history)|);
      DropAll(db, targetId, sourceId, plan, |old(history)|);
      RetagLast(db, targetId, sourceId, AllOf(plan), |old(history)|);
      ShowsAreFolded(db, targetId, sourceId, AllOf(plan));
    }

    /** The target's movie row, created when it has none; `newMovieId` is the id it would get. */
    method FindOrCreateMovie(ghost db: Tables, targetId: Id, ghost sourceId: Id, newMovieId: Id) returns (movieId: Id)
      requires CanMerge(db, targetId, sourceId, Movie) && Snapshot() == db && RoomForMovie(db, targetId, newMovieId)
      requires KeysFit()
      modifies this, movieKeys
      ensures FilmsUnderway(db, Snapshot(), targetId, sourceId, movieId)
      ensures old(history) <= history && SafeSince(db, |old(history)|)
      ensures KeysFit()
    {
      if m :| m in movies && movies[m] == targetId {
        movieId := m;
        RowExists(db, targetId, sourceId, m);
      } else {
        var rows := MovieRowsOf(movies, movieKeys.of);
        OwnIdIsFree(rows, targetId);
        var after, id := FindOrCreateByMetadataId(rows, targetId, OfId(targetId), newMovieId);
        movieId := id.value;
        RowCreated(db, targetId, sourceId, movieId);
        RowKeyed(movies, movieKeys.of, movieId, targetId);
        movieKeys.of := movieKeys.of[movieId := OfId(targetId)];
        var _ := Commit(WithMovie(Snapshot(), movieId, targetId));
      }
    }

    /** The repointing of the source's files and the deletion of its movie row. */
    method RepointFilms(ghost db: Tables, targetId: Id, sourceId: Id, movieId: Id, ghost from: nat) returns (ok: bool)
      requires FilmsUnderway(db, Snapshot(), targetId, sourceId, movieId)
      requires from <= |history| && SafeSince(db, from)
      modifies this
      ensures old(history) <= history
      ensures RowsLeft(old(movies), movies)
      ensures ok <==> NoFileClash(db, targetId, sourceId)
      ensures ok ==> FoldedAway(db, Snapshot(), targetId, sourceId)
      ensures ok ==> SafeSince(db, from)
    {
      FilmStatements(db, Snapshot(), targetId, sourceId, movieId);
      var withSource := SourceMovies(Snapshot(), sourceId);
      ghost var withRow := Snapshot();
      ok := Commit(MovieFilesMoved(Snapshot(), targetId, movieId, sourceId));
      if !ok { return; }
      if withSource != {} {
        var _ := Commit(WithoutMovies(Snapshot(), withSource));
      } else {
        NoMovieGoes(Snapshot());
      }
      assert Snapshot() == FilmsFolded(withRow, targetId, sourceId, movieId);
    }

    /** `mergeMovieMediaFiles`. */
    method MergeMovieMediaFiles(targetId: Id, sourceId: Id, newMovieId: Id) returns (ok: bool)
      requires CanMerge(Snapshot(), targetId, sourceId, Movie) && RoomForMovie(Snapshot(), targetId, newMovieId)
      requires KeysFit()
      modifies this, movieKeys
      ensures KeysFit()
      ensures old(history) <= history
      ensures ok <==> NoFileClash(old(Snapshot()), targetId, sourceId)
      ensures ok ==> FoldedAway(old(Snapshot()), Snapshot(), targetId, sourceId)
      ensures ok ==> SafeSince(old(Snapshot()), |old(history)|)
    {
      ghost var db := Snapshot();
      var movieId := FindOrCreateMovie(db, targetId, sourceId, newMovieId);
      ghost var withRow := movies;
      ok := RepointFilms(db, targetId, sourceId, movieId, |old(history)|);
      FewerRows(withRow, movies, movieKeys.of);
    }

    /** A statement that is known to pass. */
    method CommitSafely(ghost before: Tables, next: Tables, ghost from: nat)
      requires Safe(before, next) && from <= |history| && SafeSince(before, from)
      modifies this
      ensures Snapshot() == next
      ensures from <= |history| && old(history) <= history && SafeSince(before, from)
    {
      var _ := Commit(next);
    }

    /** Watchlist, ratings and collection memberships, then the source row. */
    method MergeLinksAndDelete(ghost db: Tables, targetId: Id, sourceId: Id, ghost from: nat)
      requires targetId != sourceId && FoldedAway(db, Snapshot(), targetId, sourceId)
      requires from <= |history| && SafeSince(db, from)
      modifies this
      ensures Snapshot() == Finished(old(Snapshot()), targetId, sourceId)
      ensures old(history) <= history && SafeSince(db, from)
    {
      ghost var mid := Snapshot();
      var toWatch := MergeJunctionTable(watchlist, targetId, sourceId);
      var rated := MergeJunctionTable(ratings, targetId, sourceId);
      var collected := MergeCollectionMemberships(memberships, targetId, sourceId);
      LinkStatements(db, mid, targetId, sourceId, collected);
      CommitSafely(db, Snapshot().(watchlist := toWatch), from);
      CommitSafely(db, Snapshot().(ratings := rated), from);
      CommitSafely(db, Snapshot().(memberships := collected), from);
      CommitSafely(db, WithoutTitle(Snapshot(), sourceId), from);
    }

    /**
     `merge`. It commits exactly when no file of the source competes with a file of the target for the same slot;
     otherwise a unique index rejects a repoint and the transaction leaves everything as it was.
     */
    method Merge(targetId: Id, sourceId: Id, kind: Kind, newMovieId: Id) returns (ok: bool)
      requires CanMerge(Snapshot(), targetId, sourceId, kind) && RoomForMovie(Snapshot(), targetId, newMovieId)
      requires KeysFit()
      modifies this, movieKeys
      ensures KeysFit()
      ensures ok <==> NoFileClash(old(Snapshot()), targetId, sourceId)
      ensures ok ==> Merged(old(Snapshot()), Snapshot(), targetId, sourceId)
      ensures !ok ==> Snapshot() == old(Snapshot()) && movieKeys.of == old(movieKeys.of)
      ensures ok ==> SafeSince(old(Snapshot()), |old(history)|)
    {
      var saved, savedKeys := Snapshot(), movieKeys.of;
      if kind == Movie {
        ok := MergeMovieMediaFiles(targetId, sourceId, newMovieId);
      } else {
        ok := MergeTvShowData(targetId, sourceId);
      }
      if ok {
        ghost var mid := Snapshot();
        MergeLinksAndDelete(saved, targetId, sourceId, |old(history)|);
        FoldThenFinish(saved, mid, targetId, sourceId);
        if kind == Movie {
          FewerRows(mid.movies, movies, movieKeys.of);
        } else {
          ShowRowsLeft(saved, Snapshot(), targetId, sourceId);
          FewerRows(saved.movies, movies, movieKeys.of);
        }
      } else {
        Store(saved);
        movieKeys.of := savedKeys;
      }
    }
  }

  /** `Folded`, kept folded up in the method proofs. */
  ghost predicate FoldedAway(db: Tables, mid: Tables, targetId: Id, sourceId: Id) {
    forall u {:trigger Key(u)} :: Key(u) ==> Folded(db, mid, targetId, sourceId) && targetId in db.titles
  }

  /** Changing link tables that stay within the titles keeps every file and constraint. */
  lemma LinksDoNotMatter(db: Tables, mid: Tables, now: Tables)
    requires Safe(db, mid)
    requires now == mid.(watchlist := now.watchlist, ratings := now.ratings, memberships := now.memberships)
    requires LinksHeld(now.watchlist, mid.titles.Keys) && LinksHeld(now.ratings, mid.titles.Keys) && LinksHeld(now.memberships, mid.titles.Keys)
    ensures Safe(db, now)
  {
    forall f | f in now.files ensures FileKeys(now, now.files[f]) {
      assert FileKeys(mid, mid.files[f]);
    }
  }

  /** The three link statements and the final delete are safe, and the last one completes the merge. */
  lemma LinkStatements(db: Tables, mid: Tables, targetId: Id, sourceId: Id, memberships: map<Link, int>)
    requires targetId != sourceId && FoldedAway(db, mid, targetId, sourceId)
    requires WithoutLinks(memberships, sourceId) == JoinLinks(mid.memberships, targetId, sourceId)
    requires forall l :: l in memberships ==> l in mid.memberships || l.titleId == targetId
    ensures Safe(db, mid.(watchlist := JoinLinks(mid.watchlist, targetId, sourceId)))
    ensures Safe(db, mid.(watchlist := JoinLinks(mid.watchlist, targetId, sourceId), ratings := JoinLinks(mid.ratings, targetId, sourceId)))
    ensures Safe(db, Linked(mid, targetId, sourceId, memberships))
    ensures Safe(db, WithoutTitle(Linked(mid, targetId, sourceId, memberships), sourceId))
    ensures WithoutTitle(Linked(mid, targetId, sourceId, memberships), sourceId) == Finished(mid, targetId, sourceId)
  {
    assert Key(true);
    JoinIsHeld(mid.watchlist, targetId, sourceId, mid.titles.Keys);
    JoinIsHeld(mid.ratings, targetId, sourceId, mid.titles.Keys);
    var watched := mid.(watchlist := JoinLinks(mid.watchlist, targetId, sourceId));
    LinksDoNotMatter(db, mid, watched);
    LinksDoNotMatter(db, mid, watched.(ratings := JoinLinks(mid.ratings, targetId, sourceId)));
    LinksDoNotMatter(db, mid, Linked(mid, targetId, sourceId, memberships));
    SourceRowGoesAlone(db, mid, targetId, sourceId, memberships);
    FinishedIsMerged(db, mid, targetId, sourceId);
  }

  lemma FoldThenFinish(db: Tables, mid: Tables, targetId: Id, sourceId: Id)
    requires targetId != sourceId && FoldedAway(db, mid, targetId, sourceId)
    ensures Merged(db, Finished(mid, targetId, sourceId), targetId, sourceId)
  {
    assert Key(true);
    FinishedIsMerged(db, mid, targetId, sourceId);
  }

  /** A movie merge whose target has its movie row, kept folded up in the method proofs. */
  ghost predicate FilmsUnderway(db: Tables, withRow: Tables, targetId: Id, sourceId: Id, movieId: Id) {
    forall u {:trigger Key(u)} :: Key(u) ==>
      && CanMerge(db, targetId, sourceId, Movie)
      && (withRow == db || (movieId !in db.movies && withRow == WithMovie(db, movieId, targetId)))
      && MergingMovies(withRow, targetId, sourceId, movieId)
  }

  lemma RowExists(db: Tables, targetId: Id, sourceId: Id, movieId: Id)
    requires CanMerge(db, targetId, sourceId, Movie) && movieId in db.movies && db.movies[movieId] == targetId
    ensures FilmsUnderway(db, db, targetId, sourceId, movieId)
  {
  }

  lemma RowCreated(db: Tables, targetId: Id, sourceId: Id, movieId: Id)
    requires CanMerge(db, targetId, sourceId, Movie)
    requires movieId !in db.movies && forall m :: m in db.movies ==> db.movies[m] != targetId
    ensures FilmsUnderway(db, WithMovie(db, movieId, targetId), targetId, sourceId, movieId)
    ensures Safe(db, WithMovie(db, movieId, targetId))
  {
    NewMovieRow(db, targetId, sourceId, movieId);
  }

  /** Repointing decides the outcome; after it, dropping the source's movie row is safe and completes the folding. */
  lemma FilmStatements(db: Tables, withRow: Tables, targetId: Id, sourceId: Id, movieId: Id)
    requires FilmsUnderway(db, withRow, targetId, sourceId, movieId)
    ensures Enforced(MovieFilesMoved(withRow, targetId, movieId, sourceId)) <==> NoFileClash(db, targetId, sourceId)
    ensures MovieFilesMoved(withRow, targetId, movieId, sourceId).files.Keys == db.files.Keys
    ensures NoFileClash(db, targetId, sourceId) ==>
      && Safe(db, FilmsFolded(withRow, targetId, sourceId, movieId))
      && FoldedAway(db, FilmsFolded(withRow, targetId, sourceId, movieId), targetId, sourceId)
  {
    assert Key(true);
    MovieRowsDoNotClash(db, targetId, sourceId, withRow.movies);
    MovingFilmsDecides(withRow, targetId, sourceId, movieId);
    if NoFileClash(db, targetId, sourceId) {
      FilmsAreFolded(db, withRow, targetId, sourceId, movieId);
    }
  }

  lemma RepointsRevealClashes(db: Tables, targetId: Id, sourceId: Id, plan: Progress)
    requires Merging(db, targetId, sourceId, plan)
    requires FilesUnique(At(db, targetId, sourceId, NOTHING_DONE.(repoints := plan.repoints)).files)
    ensures NoFileClash(db, targetId, sourceId)
  {
    forall f, g | f in db.files && g in db.files && db.files[f].titleId == sourceId && db.files[g].titleId == targetId
      ensures !SlotClash(db, db.files[f], db.files[g])
    {
      ClashIsCaught(db, targetId, sourceId, plan, NOTHING_DONE.(repoints := plan.repoints), f, g);
    }
  }

  lemma StartsUnchanged(db: Tables, targetId: Id, sourceId: Id)
    ensures At(db, targetId, sourceId, NOTHING_DONE) == db
  {
  }
}
