/**
 What the statements of a TV-show merge do to the tables, at every point of the transaction. `Progress` records which
 part of the plan has been executed, `At` is the state then; the two main results are that no point of the transaction
 loses a file or breaks a constraint, and that the end state is the union of the two shows by identity.
 */
module TvMerge {
  import opened Text
  import opened Catalog

  /** Two seasons with the same number, the second one in `titleId`. */
  predicate SeasonTwin(db: Tables, titleId: Id, s: Id, twin: Id) {
    && s in db.seasons && twin in db.seasons
    && db.seasons[twin].titleId == titleId
    && db.seasons[twin].number == db.seasons[s].number
  }

  /** Two episodes with the same season number, type and episode number, the second one in `titleId`. */
  predicate EpisodeTwin(db: Tables, titleId: Id, e: Id, twin: Id) {
    && EpisodeIn(db, twin, titleId)
    && EpisodeSlotOf(db, twin) == EpisodeSlotOf(db, e)
  }

  ghost predicate HasSeasonTwin(db: Tables, titleId: Id, s: Id) {
    exists twin :: SeasonTwin(db, titleId, s, twin)
  }

  ghost predicate HasEpisodeTwin(db: Tables, titleId: Id, e: Id) {
    exists twin :: EpisodeTwin(db, titleId, e, twin)
  }

  /** The executed part of a merge: repointed and moved episodes with their new owner, and the rows already changed. */
  datatype Progress = Progress(
    repoints: map<Id, Id>, moves: map<Id, Id>, transfers: set<Id>,
    dropEpisodes: set<Id>, dropSeasons: set<Id>, retagged: bool)

  const NOTHING_DONE := Progress(map[], map[], {}, {}, {}, false)

  /** The complete plan: every source season and episode is treated once, by whether the target has its identity. */
  ghost predicate IsPlan(db: Tables, targetId: Id, sourceId: Id, plan: Progress) {
    && (forall s {:trigger s in plan.transfers} :: s in plan.transfers <==>
        s in db.seasons && db.seasons[s].titleId == sourceId && !HasSeasonTwin(db, targetId, s))
    && (forall s {:trigger s in plan.dropSeasons} :: s in plan.dropSeasons <==>
        s in db.seasons && db.seasons[s].titleId == sourceId && HasSeasonTwin(db, targetId, s))
    && (forall e :: e in plan.repoints ==> EpisodeIn(db, e, sourceId) && EpisodeTwin(db, targetId, e, plan.repoints[e]))
    && plan.dropEpisodes == plan.repoints.Keys
    && (forall e :: e in plan.moves ==> EpisodeIn(db, e, sourceId) && SeasonTwin(db, targetId, db.episodes[e].seasonId, plan.moves[e]))
    && (forall e :: e in plan.moves ==> !HasEpisodeTwin(db, targetId, e))
    && (forall e :: EpisodeIn(db, e, sourceId) && db.episodes[e].seasonId in plan.dropSeasons ==> e in plan.repoints || e in plan.moves)
    && plan.retagged
  }

  ghost predicate PartOf<K, V>(part: map<K, V>, whole: map<K, V>) {
    forall k :: k in part ==> k in whole && part[k] == whole[k]
  }

  /** Some of the plan is done, and deletions only start once everything that protects the files is done. */
  ghost predicate InOrder(plan: Progress, done: Progress) {
    && PartOf(done.repoints, plan.repoints)
    && PartOf(done.moves, plan.moves)
    && done.transfers <= plan.transfers
    && done.dropEpisodes <= plan.dropEpisodes
    && done.dropSeasons <= plan.dropSeasons
    && (done.dropEpisodes != {} ==> done.repoints == plan.repoints)
    && (done.dropSeasons != {} ==> done.moves == plan.moves && done.dropEpisodes == plan.dropEpisodes)
    && (done.retagged ==> done == plan)
  }

  function SeasonAt(s: Id, row: Season, targetId: Id, done: Progress): Season {
    if s in done.transfers then row.(titleId := targetId) else row
  }

  function EpisodeAt(e: Id, row: Episode, done: Progress): Episode {
    if e in done.moves then row.(seasonId := done.moves[e]) else row
  }

  function FileAt(file: MediaFile, targetId: Id, sourceId: Id, done: Progress): MediaFile {
    if file.episodeId.Some? && file.episodeId.value in done.repoints
    then file.(titleId := targetId, episodeId := Some(done.repoints[file.episodeId.value]))
    else if done.retagged && file.titleId == sourceId then file.(titleId := targetId)
    else file
  }

  function SeasonsAt(db: Tables, targetId: Id, done: Progress): map<Id, Season> {
    map s | s in db.seasons && s !in done.dropSeasons :: SeasonAt(s, db.seasons[s], targetId, done)
  }

  function EpisodesAt(db: Tables, done: Progress): map<Id, Episode> {
    map e | e in db.episodes && e !in done.dropEpisodes :: EpisodeAt(e, db.episodes[e], done)
  }

  function At(db: Tables, targetId: Id, sourceId: Id, done: Progress): Tables {
    db.(
    seasons := SeasonsAt(db, targetId, done),
    episodes := EpisodesAt(db, done),
    files := map f | f in db.files :: FileAt(db.files[f], targetId, sourceId, done))
  }

  /** The situation every lemma below is about. */
  ghost predicate Merging(db: Tables, targetId: Id, sourceId: Id, plan: Progress) {
    && Integrity(db)
    && targetId in db.titles && sourceId in db.titles && targetId != sourceId
    && db.titles[targetId].kind == TvShow && db.titles[sourceId].kind == TvShow
    && IsPlan(db, targetId, sourceId, plan)
  }

  // ----- identities

  lemma EpisodeIdentity(db: Tables, titleId: Id, a: Id, b: Id)
    requires SeasonsUnique(db) && EpisodesUnique(db)
    requires EpisodeIn(db, a, titleId) && EpisodeIn(db, b, titleId)
    requires EpisodeSlotOf(db, a) == EpisodeSlotOf(db, b)
    ensures a == b
  {
  }

  // ----- no point of the transaction breaks a constraint

  lemma SeasonsStayUnique(db: Tables, targetId: Id, sourceId: Id, plan: Progress, done: Progress)
    requires Merging(db, targetId, sourceId, plan) && InOrder(plan, done)
    ensures SeasonsUnique(At(db, targetId, sourceId, done))
  {
    var now := At(db, targetId, sourceId, done);
    forall s, r | s in now.seasons && r in now.seasons && now.seasons[s] == now.seasons[r] ensures s == r {
      if s in done.transfers && r !in done.transfers {
        assert SeasonTwin(db, targetId, s, r);
      } else if r in done.transfers && s !in done.transfers {
        assert SeasonTwin(db, targetId, r, s);
      } else {
        assert db.seasons[s] == db.seasons[r];
      }
    }
  }

  /** A moved episode meets no episode of the same identity in its new season. */
  lemma MoveMeetsNoTwin(db: Tables, targetId: Id, sourceId: Id, plan: Progress, e: Id, d: Id)
    requires Merging(db, targetId, sourceId, plan)
    requires e in plan.moves && d in db.episodes && db.episodes[d].seasonId == plan.moves[e]
    ensures db.episodes[d] != db.episodes[e].(seasonId := plan.moves[e])
  {
    assert SeasonTwin(db, targetId, db.episodes[e].seasonId, plan.moves[e]);
    assert !EpisodeTwin(db, targetId, e, d);
  }

  /** Two moved episodes that end up equal were one episode. */
  lemma MovesStayApart(db: Tables, targetId: Id, sourceId: Id, plan: Progress, e: Id, d: Id)
    requires Merging(db, targetId, sourceId, plan)
    requires e in plan.moves && d in plan.moves
    requires db.episodes[e].(seasonId := plan.moves[e]) == db.episodes[d].(seasonId := plan.moves[d])
    ensures e == d
  {
  }

  lemma EpisodesStayUnique(db: Tables, targetId: Id, sourceId: Id, plan: Progress, done: Progress)
    requires Merging(db, targetId, sourceId, plan) && InOrder(plan, done)
    ensures EpisodesUnique(At(db, targetId, sourceId, done))
  {
    var now := At(db, targetId, sourceId, done);
    forall e, d | e in now.episodes && d in now.episodes && now.episodes[e] == now.episodes[d] ensures e == d {
      if e in done.moves && d !in done.moves {
        MoveMeetsNoTwin(db, targetId, sourceId, plan, e, d);
      } else if d in done.moves && e !in done.moves {
        MoveMeetsNoTwin(db, targetId, sourceId, plan, d, e);
      } else if e in done.moves {
        MovesStayApart(db, targetId, sourceId, plan, e, d);
      }
    }
  }

  /** A file repointed onto `d` does not collide with a file that `d` already had. */
  lemma RepointMeetsNoClash(db: Tables, targetId: Id, sourceId: Id, plan: Progress, f: Id, g: Id)
    requires Merging(db, targetId, sourceId, plan) && NoFileClash(db, targetId, sourceId)
    requires f in db.files && g in db.files
    requires db.files[f].episodeId.Some? && db.files[f].episodeId.value in plan.repoints
    requires db.files[g].episodeId == Some(plan.repoints[db.files[f].episodeId.value])
    ensures db.files[f].path != db.files[g].path && !(db.files[f].isDefault && db.files[g].isDefault)
    ensures db.files[f].movieId.None?
  {
  }

  /** Files repointed onto one episode came from one episode. */
  lemma RepointIsInjective(db: Tables, targetId: Id, sourceId: Id, plan: Progress, e: Id, d: Id)
    requires Merging(db, targetId, sourceId, plan)
    requires e in plan.repoints && d in plan.repoints && plan.repoints[e] == plan.repoints[d]
    ensures e == d
  {
  }

  lemma ApartAfterRepoint(a: MediaFile, b: MediaFile, targetId: Id, sourceId: Id, done: Progress)
    requires !FilesCollide(a, b)
    requires a.episodeId.Some? && b.episodeId.Some? ==>
        var e, d := a.episodeId.value, b.episodeId.value;
        && (e in done.repoints && d in done.repoints && done.repoints[e] == done.repoints[d] ==> e == d)
        && ((e in done.repoints && d !in done.repoints && done.repoints[e] == d)
            || (d in done.repoints && e !in done.repoints && done.repoints[d] == e)
            ==> a.path != b.path && !(a.isDefault && b.isDefault))
    ensures !FilesCollide(FileAt(a, targetId, sourceId, done), FileAt(b, targetId, sourceId, done))
  {
  }

  lemma PairStaysApart(db: Tables, targetId: Id, sourceId: Id, plan: Progress, done: Progress, f: Id, g: Id)
    requires Merging(db, targetId, sourceId, plan) && NoFileClash(db, targetId, sourceId)
    requires PartOf(done.repoints, plan.repoints)
    requires f in db.files && g in db.files && f != g
    ensures !FilesCollide(FileAt(db.files[f], targetId, sourceId, done), FileAt(db.files[g], targetId, sourceId, done))
  {
    var a, b := db.files[f], db.files[g];
    if a.episodeId.Some? && b.episodeId.Some? {
      var e, d := a.episodeId.value, b.episodeId.value;
      if e in done.repoints {
        if d in done.repoints {
          if done.repoints[e] == done.repoints[d] { RepointIsInjective(db, targetId, sourceId, plan, e, d); }
        } else if done.repoints[e] == d {
          RepointMeetsNoClash(db, targetId, sourceId, plan, f, g);
        }
      } else if d in done.repoints && done.repoints[d] == e {
        RepointMeetsNoClash(db, targetId, sourceId, plan, g, f);
      }
    }
    ApartAfterRepoint(a, b, targetId, sourceId, done);
  }

  lemma FilesStayUnique(db: Tables, targetId: Id, sourceId: Id, plan: Progress, done: Progress)
    requires Merging(db, targetId, sourceId, plan) && NoFileClash(db, targetId, sourceId)
    requires PartOf(done.repoints, plan.repoints)
    ensures FilesUnique(At(db, targetId, sourceId, done).files)
  {
    var now := At(db, targetId, sourceId, done);
    forall f, g | f in now.files && g in now.files && f != g ensures !FilesCollide(now.files[f], now.files[g]) {
      PairStaysApart(db, targetId, sourceId, plan, done, f, g);
    }
  }

  lemma EpisodeKeysStayHeld(db: Tables, targetId: Id, sourceId: Id, plan: Progress, done: Progress, e: Id)
    requires Merging(db, targetId, sourceId, plan) && InOrder(plan, done)
    requires e in db.episodes && e !in done.dropEpisodes
    ensures EpisodeAt(e, db.episodes[e], done).seasonId in At(db, targetId, sourceId, done).seasons
  {
    var s := db.episodes[e].seasonId;
    if e in done.moves {
      assert SeasonTwin(db, targetId, s, done.moves[e]);
    } else if s in done.dropSeasons {
      assert EpisodeIn(db, e, sourceId);
    }
  }

  lemma TwinIsNotDropped(db: Tables, targetId: Id, sourceId: Id, plan: Progress, done: Progress, e: Id)
    requires Merging(db, targetId, sourceId, plan) && InOrder(plan, done)
    requires e in done.repoints
    ensures done.repoints[e] in EpisodesAt(db, done)
  {
    assert EpisodeTwin(db, targetId, e, plan.repoints[e]);
    SourceAndTargetApart(db, targetId, sourceId, plan, e);
  }

  lemma FileKeysStayHeld(db: Tables, targetId: Id, sourceId: Id, plan: Progress, done: Progress, f: Id)
    requires Merging(db, targetId, sourceId, plan) && InOrder(plan, done)
    requires f in db.files
    ensures FileKeys(At(db, targetId, sourceId, done), FileAt(db.files[f], targetId, sourceId, done))
  {
    var a := db.files[f];
    assert FileKeys(db, a);
    if a.episodeId.Some? && a.episodeId.value in done.repoints {
      TwinIsNotDropped(db, targetId, sourceId, plan, done, a.episodeId.value);
    }
  }

  lemma KeysStayHeld(db: Tables, targetId: Id, sourceId: Id, plan: Progress, done: Progress)
    requires Merging(db, targetId, sourceId, plan) && InOrder(plan, done)
    ensures ForeignKeys(At(db, targetId, sourceId, done))
  {
    var now := At(db, targetId, sourceId, done);
    forall e | e in now.episodes ensures now.episodes[e].seasonId in now.seasons {
      EpisodeKeysStayHeld(db, targetId, sourceId, plan, done, e);
    }
    forall f | f in now.files ensures FileKeys(now, now.files[f]) {
      FileKeysStayHeld(db, targetId, sourceId, plan, done, f);
    }
  }

  /** Whatever part of the plan has run, every file is still there and every constraint holds. */
  lemma NoFileIsLost(db: Tables, targetId: Id, sourceId: Id, plan: Progress, done: Progress)
    requires Merging(db, targetId, sourceId, plan) && InOrder(plan, done)
    requires NoFileClash(db, targetId, sourceId)
    ensures At(db, targetId, sourceId, done).files.Keys == db.files.Keys
    ensures Enforced(At(db, targetId, sourceId, done))
  {
    SeasonsStayUnique(db, targetId, sourceId, plan, done);
    EpisodesStayUnique(db, targetId, sourceId, plan, done);
    FilesStayUnique(db, targetId, sourceId, plan, done);
    KeysStayHeld(db, targetId, sourceId, plan, done);
  }

  /** A source file that shares its slot with a target file is repointed onto that file's episode. */
  lemma SharedSlotIsRepointed(db: Tables, targetId: Id, sourceId: Id, plan: Progress, e: Id, d: Id)
    requires Merging(db, targetId, sourceId, plan)
    requires EpisodeIn(db, e, sourceId) && EpisodeTwin(db, targetId, e, d)
    ensures e in plan.repoints && plan.repoints[e] == d && d !in plan.repoints
  {
    assert SeasonTwin(db, targetId, db.episodes[e].seasonId, db.episodes[d].seasonId);
    assert HasSeasonTwin(db, targetId, db.episodes[e].seasonId) && HasEpisodeTwin(db, targetId, e);
    assert db.episodes[e].seasonId in plan.dropSeasons;
    EpisodeIdentity(db, targetId, d, plan.repoints[e]);
  }

  lemma EpisodeOfSlot(db: Tables, f: Id)
    requires Integrity(db) && f in db.files
    requires db.files[f].titleId in db.titles && db.titles[db.files[f].titleId].kind == TvShow
    ensures db.files[f].episodeId.Some? && EpisodeIn(db, db.files[f].episodeId.value, db.files[f].titleId)
  {
  }

  /** Once every repoint has run, a clash between the two titles shows as a unique-index violation. */
  lemma ClashIsCaught(db: Tables, targetId: Id, sourceId: Id, plan: Progress, done: Progress, f: Id, g: Id)
    requires Merging(db, targetId, sourceId, plan)
    requires done.repoints == plan.repoints
    requires FilesUnique(At(db, targetId, sourceId, done).files)
    requires f in db.files && g in db.files && db.files[f].titleId == sourceId && db.files[g].titleId == targetId
    ensures !SlotClash(db, db.files[f], db.files[g])
  {
    var a, b := db.files[f], db.files[g];
    EpisodeOfSlot(db, f);
    EpisodeOfSlot(db, g);
    if SlotOf(db, a) == SlotOf(db, b) {
      SharedSlotIsRepointed(db, targetId, sourceId, plan, a.episodeId.value, b.episodeId.value);
      var now := At(db, targetId, sourceId, done);
      assert !FilesCollide(now.files[f], now.files[g]);
    }
  }

  // ----- each statement advances the progress by exactly its rows

  function Owned(ids: set<Id>, owner: Id): map<Id, Id> {
    map e | e in ids :: owner
  }

  lemma SourceAndTargetApart(db: Tables, targetId: Id, sourceId: Id, plan: Progress, e: Id)
    requires Merging(db, targetId, sourceId, plan) && e in plan.repoints
    ensures plan.repoints[e] !in plan.repoints
  {
  }

  lemma FileRepointStep(file: MediaFile, targetId: Id, sourceId: Id, done: Progress, owner: Id, ids: set<Id>)
    requires !done.retagged
    requires forall e :: e in done.repoints ==> done.repoints[e] !in ids && (e in ids ==> done.repoints[e] == owner)
    ensures FileRepointed(FileAt(file, targetId, sourceId, done), targetId, owner, ids)
         == FileAt(file, targetId, sourceId, done.(repoints := done.repoints + Owned(ids, owner)))
  {
  }

  lemma FilesRepointStep(files: map<Id, MediaFile>, targetId: Id, sourceId: Id, done: Progress, owner: Id, ids: set<Id>)
    requires !done.retagged
    requires forall e :: e in done.repoints ==> done.repoints[e] !in ids && (e in ids ==> done.repoints[e] == owner)
    ensures (map f | f in files :: FileRepointed(FileAt(files[f], targetId, sourceId, done), targetId, owner, ids))
         == map f | f in files :: FileAt(files[f], targetId, sourceId, done.(repoints := done.repoints + Owned(ids, owner)))
  {
    forall f | f in files
      ensures FileRepointed(FileAt(files[f], targetId, sourceId, done), targetId, owner, ids)
           == FileAt(files[f], targetId, sourceId, done.(repoints := done.repoints + Owned(ids, owner)))
    {
      FileRepointStep(files[f], targetId, sourceId, done, owner, ids);
    }
  }

  lemma RepointStep(db: Tables, targetId: Id, sourceId: Id, done: Progress, owner: Id, ids: set<Id>)
    requires !done.retagged
    requires forall e :: e in done.repoints ==> done.repoints[e] !in ids && (e in ids ==> done.repoints[e] == owner)
    ensures Apply(At(db, targetId, sourceId, done), RepointFiles(targetId, owner), ids)
         == At(db, targetId, sourceId, done.(repoints := done.repoints + Owned(ids, owner)))
  {
    FilesRepointStep(db.files, targetId, sourceId, done, owner, ids);
    assert Apply(At(db, targetId, sourceId, done), RepointFiles(targetId, owner), ids).files
        == map f | f in db.files :: FileRepointed(FileAt(db.files[f], targetId, sourceId, done), targetId, owner, ids);
  }

  lemma MoveStep(db: Tables, targetId: Id, sourceId: Id, done: Progress, owner: Id, ids: set<Id>)
    ensures Apply(At(db, targetId, sourceId, done), MoveEpisodes(owner), ids)
         == At(db, targetId, sourceId, done.(moves := done.moves + Owned(ids, owner)))
  {
  }

  lemma TransferStep(db: Tables, targetId: Id, sourceId: Id, done: Progress, ids: set<Id>)
    ensures Apply(At(db, targetId, sourceId, done), TransferSeasons(targetId), ids)
         == At(db, targetId, sourceId, done.(transfers := done.transfers + ids))
  {
  }

  lemma UnusedEpisodesGoAlone(db: Tables, ids: set<Id>)
    requires forall f :: f in db.files && db.files[f].episodeId.Some? ==> db.files[f].episodeId.value !in ids
    ensures WithoutEpisodes(db, ids) == db.(episodes := map e | e in db.episodes && e !in ids :: db.episodes[e])
  {
  }

  /** Deleting the matched episodes takes no file along: their files were repointed. */
  lemma DropEpisodesStep(db: Tables, targetId: Id, sourceId: Id, done: Progress, ids: set<Id>)
    requires ids <= done.repoints.Keys
    requires forall e :: e in done.repoints ==> done.repoints[e] !in ids
    ensures Apply(At(db, targetId, sourceId, done), DeleteEpisodes, ids)
         == At(db, targetId, sourceId, done.(dropEpisodes := done.dropEpisodes + ids))
  {
    var now := At(db, targetId, sourceId, done);
    forall f | f in now.files && now.files[f].episodeId.Some? ensures now.files[f].episodeId.value !in ids {
      assert now.files[f] == FileAt(db.files[f], targetId, sourceId, done);
    }
    UnusedEpisodesGoAlone(now, ids);
    EpisodesWithout(db, done, ids);
  }

  lemma EpisodesWithout(db: Tables, done: Progress, ids: set<Id>)
    ensures (map e | e in EpisodesAt(db, done) && e !in ids :: EpisodesAt(db, done)[e])
         == EpisodesAt(db, done.(dropEpisodes := done.dropEpisodes + ids))
  {
  }

  /** A matched season is empty once its episodes were deleted or moved out. */
  lemma SeasonsAreEmpty(db: Tables, targetId: Id, sourceId: Id, plan: Progress, done: Progress, e: Id)
    requires Merging(db, targetId, sourceId, plan)
    requires done.moves == plan.moves && done.dropEpisodes == plan.dropEpisodes
    requires e in At(db, targetId, sourceId, done).episodes
    ensures At(db, targetId, sourceId, done).episodes[e].seasonId !in plan.dropSeasons
  {
    if e in plan.moves {
      assert SeasonTwin(db, targetId, db.episodes[e].seasonId, plan.moves[e]);
    } else if db.episodes[e].seasonId in plan.dropSeasons {
      assert EpisodeIn(db, e, sourceId);
    }
  }

  /** Deleting the matched seasons takes no episode along. */
  lemma DropSeasonsStep(db: Tables, targetId: Id, sourceId: Id, done: Progress, ids: set<Id>)
    requires forall e :: e in db.episodes && e !in done.dropEpisodes ==> EpisodeAt(e, db.episodes[e], done).seasonId !in ids
    ensures Apply(At(db, targetId, sourceId, done), DeleteSeasons, ids)
         == At(db, targetId, sourceId, done.(dropSeasons := done.dropSeasons + ids))
  {
    EmptySeasonsGoAlone(At(db, targetId, sourceId, done), ids);
    SeasonsWithout(db, targetId, done, ids);
  }

  lemma SeasonsWithout(db: Tables, targetId: Id, done: Progress, ids: set<Id>)
    ensures (map s | s in SeasonsAt(db, targetId, done) && s !in ids :: SeasonsAt(db, targetId, done)[s])
         == SeasonsAt(db, targetId, done.(dropSeasons := done.dropSeasons + ids))
  {
  }

  lemma EmptySeasonsGoAlone(db: Tables, ids: set<Id>)
    requires forall e :: e in db.episodes ==> db.episodes[e].seasonId !in ids
    ensures Apply(db, DeleteSeasons, ids) == db.(seasons := map s | s in db.seasons && s !in ids :: db.seasons[s])
  {
  }

  lemma RetagStep(db: Tables, targetId: Id, sourceId: Id, done: Progress, ids: set<Id>)
    requires targetId != sourceId
    ensures Apply(At(db, targetId, sourceId, done), RetagFiles(targetId, sourceId), ids)
         == At(db, targetId, sourceId, done.(retagged := true))
  {
  }

  // ----- the end state is the union of the two shows

  /** Seasons afterwards: other rows stay, every number of either title is in the target, and nothing is new. */
  ghost predicate SeasonUnion(db: Tables, now: Tables, targetId: Id, sourceId: Id) {
    && (forall s :: s in db.seasons && db.seasons[s].titleId != sourceId ==> s in now.seasons && now.seasons[s] == db.seasons[s])
    && (forall s :: s in now.seasons ==> s in db.seasons && now.seasons[s].number == db.seasons[s].number && now.seasons[s].titleId != sourceId)
    && (forall s :: s in now.seasons && db.seasons[s].titleId == sourceId ==> now.seasons[s].titleId == targetId)
    && (forall s :: s in db.seasons && db.seasons[s].titleId == sourceId ==> HasSeason(now, targetId, db.seasons[s].number))
  }

  ghost predicate HasSeason(db: Tables, titleId: Id, number: nat) {
    exists s :: s in db.seasons && db.seasons[s] == Season(titleId, number)
  }

  /** Episodes afterwards: the same, with season number, type and episode number as the identity. */
  ghost predicate EpisodeUnion(db: Tables, now: Tables, targetId: Id, sourceId: Id) {
    && (forall e :: e in db.episodes && !EpisodeIn(db, e, sourceId) ==> e in now.episodes && now.episodes[e] == db.episodes[e])
    && (forall e :: e in now.episodes ==> e in db.episodes && EpisodeSlotOf(now, e) == EpisodeSlotOf(db, e))
    && (forall e :: e in now.episodes && EpisodeIn(db, e, sourceId) ==> EpisodeIn(now, e, targetId))
    && (forall e :: EpisodeIn(db, e, sourceId) ==> HasEpisode(now, targetId, EpisodeSlotOf(db, e)))
  }

  ghost predicate HasEpisode(db: Tables, titleId: Id, slot: Slot) {
    exists e :: EpisodeIn(db, e, titleId) && EpisodeSlotOf(db, e) == slot
  }

  /** A source file ends under the target, everything else about it and the slot it plays in unchanged. */
  ghost predicate FileCarriedOver(db: Tables, now: Tables, targetId: Id, sourceId: Id, was: MediaFile, kept: MediaFile) {
    && kept.path == was.path && kept.isDefault == was.isDefault
    && kept.titleId == (if was.titleId == sourceId then targetId else was.titleId)
    && SlotOf(now, kept) == SlotOf(db, was)
    && (was.titleId != sourceId ==> kept == was)
  }

  ghost predicate FilesCarriedOver(db: Tables, now: Tables, targetId: Id, sourceId: Id) {
    && now.files.Keys == db.files.Keys
    && forall f :: f in db.files ==> FileCarriedOver(db, now, targetId, sourceId, db.files[f], now.files[f])
  }

  lemma SeasonsAreUnion(db: Tables, targetId: Id, sourceId: Id, plan: Progress)
    requires Merging(db, targetId, sourceId, plan)
    ensures SeasonUnion(db, At(db, targetId, sourceId, plan), targetId, sourceId)
  {
    var now := At(db, targetId, sourceId, plan);
    forall s | s in db.seasons && db.seasons[s].titleId == sourceId
      ensures HasSeason(now, targetId, db.seasons[s].number)
    {
      if s in plan.transfers {
        assert now.seasons[s] == Season(targetId, db.seasons[s].number);
      } else {
        var twin :| SeasonTwin(db, targetId, s, twin);
        assert now.seasons[twin] == Season(targetId, db.seasons[s].number);
      }
    }
  }

  lemma EpisodesAreUnion(db: Tables, targetId: Id, sourceId: Id, plan: Progress)
    requires Merging(db, targetId, sourceId, plan)
    ensures EpisodeUnion(db, At(db, targetId, sourceId, plan), targetId, sourceId)
  {
    var now := At(db, targetId, sourceId, plan);
    forall e | e in db.episodes && e !in plan.repoints
      ensures EpisodeSlotOf(now, e) == EpisodeSlotOf(db, e)
      ensures EpisodeIn(db, e, sourceId) ==> EpisodeIn(now, e, targetId)
      ensures !EpisodeIn(db, e, sourceId) ==> now.episodes[e] == db.episodes[e]
    {
      EpisodeCarriedOver(db, targetId, sourceId, plan, e);
    }
    forall e | EpisodeIn(db, e, sourceId) ensures HasEpisode(now, targetId, EpisodeSlotOf(db, e)) {
      if e in plan.repoints {
        TwinStays(db, targetId, sourceId, plan, e);
      }
    }
  }

  lemma FilesAreCarriedOver(db: Tables, targetId: Id, sourceId: Id, plan: Progress)
    requires Merging(db, targetId, sourceId, plan)
    ensures FilesCarriedOver(db, At(db, targetId, sourceId, plan), targetId, sourceId)
  {
    var now := At(db, targetId, sourceId, plan);
    forall f | f in db.files ensures FileCarriedOver(db, now, targetId, sourceId, db.files[f], now.files[f]) {
      FileIsCarriedOver(db, targetId, sourceId, plan, f);
    }
  }

  lemma MergeStaysConsistent(db: Tables, targetId: Id, sourceId: Id, plan: Progress)
    requires Merging(db, targetId, sourceId, plan)
    ensures Consistent(At(db, targetId, sourceId, plan))
  {
    var now := At(db, targetId, sourceId, plan);
    forall s | s in now.seasons && now.seasons[s].titleId in now.titles
      ensures now.titles[now.seasons[s].titleId].kind == TvShow
    {
      assert db.seasons[s].titleId in db.titles;
    }
    forall f | f in now.files ensures FileFitsTitle(now, now.files[f]) {
      FileIsCarriedOver(db, targetId, sourceId, plan, f);
    }
  }

  lemma EpisodeCarriedOver(db: Tables, targetId: Id, sourceId: Id, plan: Progress, e: Id)
    requires Merging(db, targetId, sourceId, plan)
    requires e in db.episodes && e !in plan.repoints
    ensures EpisodeSlotOf(At(db, targetId, sourceId, plan), e) == EpisodeSlotOf(db, e)
    ensures EpisodeIn(db, e, sourceId) ==> EpisodeIn(At(db, targetId, sourceId, plan), e, targetId)
    ensures !EpisodeIn(db, e, sourceId) ==> At(db, targetId, sourceId, plan).episodes[e] == db.episodes[e]
    ensures forall t :: t != sourceId && EpisodeIn(db, e, t) ==> EpisodeIn(At(db, targetId, sourceId, plan), e, t)
  {
    if e in plan.moves {
      assert SeasonTwin(db, targetId, db.episodes[e].seasonId, plan.moves[e]);
    }
  }

  /** The twin of a repointed episode is untouched. */
  lemma TwinStays(db: Tables, targetId: Id, sourceId: Id, plan: Progress, e: Id)
    requires Merging(db, targetId, sourceId, plan) && e in plan.repoints
    ensures EpisodeIn(At(db, targetId, sourceId, plan), plan.repoints[e], targetId)
    ensures EpisodeSlotOf(At(db, targetId, sourceId, plan), plan.repoints[e]) == EpisodeSlotOf(db, e)
  {
    assert EpisodeTwin(db, targetId, e, plan.repoints[e]);
    SourceAndTargetApart(db, targetId, sourceId, plan, e);
    EpisodeCarriedOver(db, targetId, sourceId, plan, plan.repoints[e]);
  }

  lemma FileIsCarriedOver(db: Tables, targetId: Id, sourceId: Id, plan: Progress, f: Id)
    requires Merging(db, targetId, sourceId, plan) && f in db.files
    ensures var now := At(db, targetId, sourceId, plan);
            FileCarriedOver(db, now, targetId, sourceId, db.files[f], now.files[f]) && FileFitsTitle(now, now.files[f])
  {
    var was := db.files[f];
    assert FileKeys(db, was) && FileFitsTitle(db, was);
    if was.episodeId.Some? {
      EpisodeOfFile(db, targetId, sourceId, plan, was.episodeId.value, was.titleId);
      FileFollowsEpisode(At(db, targetId, sourceId, plan), db, targetId, sourceId, plan, was);
    } else {
      assert db.movies[was.movieId.value] == was.titleId;
    }
  }

  /** Where the episode of a file is found after the merge. */
  lemma EpisodeOfFile(db: Tables, targetId: Id, sourceId: Id, plan: Progress, e: Id, titleId: Id)
    requires Merging(db, targetId, sourceId, plan) && EpisodeIn(db, e, titleId)
    ensures var now := At(db, targetId, sourceId, plan);
            var d := if e in plan.repoints then plan.repoints[e] else e;
            && EpisodeIn(now, d, if titleId == sourceId then targetId else titleId)
            && EpisodeSlotOf(now, d) == EpisodeSlotOf(db, e)
    ensures e in plan.repoints ==> titleId == sourceId
  {
    if e in plan.repoints {
      TwinStays(db, targetId, sourceId, plan, e);
    } else {
      EpisodeCarriedOver(db, targetId, sourceId, plan, e);
    }
  }

  lemma FileFollowsEpisode(now: Tables, db: Tables, targetId: Id, sourceId: Id, plan: Progress, was: MediaFile)
    requires plan.retagged && was.episodeId.Some? && was.movieId.None?
    requires var e := was.episodeId.value;
             var d := if e in plan.repoints then plan.repoints[e] else e;
             && EpisodeIn(now, d, if was.titleId == sourceId then targetId else was.titleId)
             && EpisodeSlotOf(now, d) == EpisodeSlotOf(db, e)
             && (e in plan.repoints ==> was.titleId == sourceId)
    ensures var kept := FileAt(was, targetId, sourceId, plan);
            FileCarriedOver(db, now, targetId, sourceId, was, kept) && FileFitsTitle(now, kept)
  {
  }
}
