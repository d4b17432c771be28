/**
 The part of the relational store that title merging touches: titles, movies, seasons, episodes and media files as
 finite maps from row id to row, the three title link tables keyed by (title, other id), and the meaning of each SQL
 statement the merge issues, with `ON DELETE CASCADE` followed through to the media files.
 */
module Catalog {
  import opened Text

  datatype Kind = Movie | TvShow

  datatype Title = Title(
    name: string, kind: Kind, releaseDate: string, stableKey: string,
    originalTitle: Option<string>, overview: Option<string>, tagline: Option<string>, status: Option<string>,
    budget: Option<nat>, revenue: Option<nat>)

  datatype Season = Season(titleId: Id, number: nat)

  datatype Episode = Episode(seasonId: Id, kind: string, number: nat)

  datatype MediaFile = MediaFile(titleId: Id, movieId: Option<Id>, episodeId: Option<Id>, path: string, isDefault: bool)

  /** The unique key of a link row: a title and a profile (watchlist, rating) or a collection (membership). */
  datatype Link = Link(titleId: Id, otherId: Id)

  datatype Tables = Tables(
    titles: map<Id, Title>,
    movies: map<Id, Id>, // movie row id -> its title
    seasons: map<Id, Season>,
    episodes: map<Id, Episode>,
    files: map<Id, MediaFile>,
    watchlist: map<Link, int>,
    ratings: map<Link, int>,
    memberships: map<Link, int>)

  // ----- constraints the database enforces

  predicate ForeignKeys(db: Tables) {
    && (forall m :: m in db.movies ==> db.movies[m] in db.titles)
    && (forall s :: s in db.seasons ==> db.seasons[s].titleId in db.titles)
    && (forall e :: e in db.episodes ==> db.episodes[e].seasonId in db.seasons)
    && (forall f :: f in db.files ==> FileKeys(db, db.files[f]))
    && LinksHeld(db.watchlist, db.titles.Keys)
    && LinksHeld(db.ratings, db.titles.Keys)
    && LinksHeld(db.memberships, db.titles.Keys)
  }

  predicate FileKeys(db: Tables, file: MediaFile) {
    && file.titleId in db.titles
    && (file.movieId.Some? ==> file.movieId.value in db.movies)
    && (file.episodeId.Some? ==> file.episodeId.value in db.episodes)
  }

  predicate LinksHeld(links: map<Link, int>, titles: set<Id>) {
    forall l :: l in links ==> l.titleId in titles
  }

  predicate MoviesUnique(db: Tables) {
    forall m, n :: m in db.movies && n in db.movies && db.movies[m] == db.movies[n] ==> m == n
  }

  predicate SeasonsUnique(db: Tables) {
    forall s, r :: s in db.seasons && r in db.seasons && db.seasons[s] == db.seasons[r] ==> s == r
  }

  predicate EpisodesUnique(db: Tables) {
    forall e, d :: e in db.episodes && d in db.episodes && db.episodes[e] == db.episodes[d] ==> e == d
  }

  /** The two unique indexes of titles: name, kind and release date together, and the stable key. */
  predicate TitlesUnique(titles: map<Id, Title>) {
    forall i, j :: i in titles && j in titles && i != j ==> !TitlesCollide(titles[i], titles[j])
  }

  predicate TitlesCollide(a: Title, b: Title) {
    (a.name == b.name && a.kind == b.kind && a.releaseDate == b.releaseDate) || a.stableKey == b.stableKey
  }

  /** The four unique indexes of media files: plain paths, paths per episode, default per movie, default per episode. */
  predicate FilesCollide(a: MediaFile, b: MediaFile) {
    || (a.episodeId.None? && b.episodeId.None? && a.path == b.path)
    || (a.episodeId.Some? && a.episodeId == b.episodeId && (a.path == b.path || (a.isDefault && b.isDefault)))
    || (a.movieId.Some? && a.movieId == b.movieId && a.isDefault && b.isDefault)
  }

  predicate FilesUnique(files: map<Id, MediaFile>) {
    forall f, g :: f in files && g in files && f != g ==> !FilesCollide(files[f], files[g])
  }

  predicate UniqueKeys(db: Tables) {
    MoviesUnique(db) && SeasonsUnique(db) && EpisodesUnique(db) && FilesUnique(db.files)
  }

  /** What the database checks after every statement; a violation makes the statement fail. */
  predicate Enforced(db: Tables) {
    ForeignKeys(db) && UniqueKeys(db)
  }

  // ----- what the application keeps true beyond the constraints

  /** A file names exactly one of movie and episode, and its title is the title of that movie or episode. */
  predicate FileFitsTitle(db: Tables, file: MediaFile) {
    && (file.movieId.Some? <==> file.episodeId.None?)
    && (file.movieId.Some? && file.movieId.value in db.movies ==> db.movies[file.movieId.value] == file.titleId)
    && (file.episodeId.Some? && file.episodeId.value in db.episodes ==> EpisodeIn(db, file.episodeId.value, file.titleId))
  }

  predicate EpisodeIn(db: Tables, e: Id, titleId: Id) {
    && e in db.episodes
    && db.episodes[e].seasonId in db.seasons
    && db.seasons[db.episodes[e].seasonId].titleId == titleId
  }

  /** Movie rows belong to movies, seasons to shows, and every file fits its title. */
  predicate Consistent(db: Tables) {
    && (forall m :: m in db.movies && db.movies[m] in db.titles ==> db.titles[db.movies[m]].kind == Movie)
    && (forall s :: s in db.seasons && db.seasons[s].titleId in db.titles ==> db.titles[db.seasons[s].titleId].kind == TvShow)
    && (forall f :: f in db.files ==> FileFitsTitle(db, db.files[f]))
  }

  predicate Integrity(db: Tables) {
    Enforced(db) && Consistent(db)
  }

  // ----- where a file sits inside its title

  datatype Slot = FilmSlot | EpisodeSlot(season: nat, kind: string, number: nat)

  function EpisodeSlotOf(db: Tables, e: Id): Slot {
    if e in db.episodes && db.episodes[e].seasonId in db.seasons
    then EpisodeSlot(db.seasons[db.episodes[e].seasonId].number, db.episodes[e].kind, db.episodes[e].number)
    else FilmSlot
  }

  function SlotOf(db: Tables, file: MediaFile): Slot {
    if file.episodeId.Some? then EpisodeSlotOf(db, file.episodeId.value) else FilmSlot
  }

  /** Two files that could not both sit in this slot of one title. */
  predicate SlotClash(db: Tables, a: MediaFile, b: MediaFile) {
    && SlotOf(db, a) == SlotOf(db, b)
    && ((a.isDefault && b.isDefault) || (SlotOf(db, a).EpisodeSlot? && a.path == b.path))
  }

  /** No file of one title competes with a file of the other for the same slot. */
  predicate NoFileClash(db: Tables, targetId: Id, sourceId: Id) {
    forall f, g :: f in db.files && g in db.files && db.files[f].titleId == sourceId && db.files[g].titleId == targetId
      ==> !SlotClash(db, db.files[f], db.files[g])
  }

  // ----- statements

  /** The batched statements of a merge; each takes a set of row ids. */
  datatype Statement =
    | RepointFiles(titleId: Id, episodeId: Id) // UPDATE media_files SET metadata_id, episode_id WHERE episode_id IN ids
    | MoveEpisodes(seasonId: Id) // UPDATE episodes SET season_id WHERE id IN ids
    | TransferSeasons(newTitle: Id) // UPDATE seasons SET metadata_id WHERE id IN ids
    | DeleteEpisodes // DELETE FROM episodes WHERE id IN ids
    | DeleteSeasons // DELETE FROM seasons WHERE id IN ids
    | RetagFiles(targetId: Id, sourceId: Id) // UPDATE media_files SET metadata_id = target WHERE metadata_id = source

  /** What a statement does to the tables. Deletes cascade: seasons into episodes, episodes into media files. */
  function Apply(db: Tables, statement: Statement, ids: set<Id>): Tables {
    match statement
    case RepointFiles(titleId, episodeId) =>
      db.(files := map f | f in db.files :: FileRepointed(db.files[f], titleId, episodeId, ids))
    case MoveEpisodes(seasonId) =>
      db.(episodes := map e | e in db.episodes ::
        if e in ids then db.episodes[e].(seasonId := seasonId) else db.episodes[e])
    case TransferSeasons(titleId) =>
      db.(seasons := map s | s in db.seasons ::
        if s in ids then db.seasons[s].(titleId := titleId) else db.seasons[s])
    case DeleteEpisodes => WithoutEpisodes(db, ids)
    case DeleteSeasons =>
      WithoutEpisodes(db, EpisodesIn(db, ids)).(seasons := map s | s in db.seasons && s !in ids :: db.seasons[s])
    case RetagFiles(targetId, sourceId) =>
      db.(files := map f | f in db.files ::
        if db.files[f].titleId == sourceId then db.files[f].(titleId := targetId) else db.files[f])
  }

  function FileRepointed(file: MediaFile, targetId: Id, owner: Id, ids: set<Id>): MediaFile {
    if file.episodeId.Some? && file.episodeId.value in ids then file.(titleId := targetId, episodeId := Some(owner)) else file
  }

  function EpisodesIn(db: Tables, seasonIds: set<Id>): set<Id> {
    set e | e in db.episodes && db.episodes[e].seasonId in seasonIds
  }

  function WithoutEpisodes(db: Tables, ids: set<Id>): Tables {
    db.(
    episodes := map e | e in db.episodes && e !in ids :: db.episodes[e],
    files := map f | f in db.files && !(db.files[f].episodeId.Some? && db.files[f].episodeId.value in ids) :: db.files[f])
  }

  function WithoutMovies(db: Tables, ids: set<Id>): Tables {
    db.(
    movies := map m | m in db.movies && m !in ids :: db.movies[m],
    files := map f | f in db.files && !(db.files[f].movieId.Some? && db.files[f].movieId.value in ids) :: db.files[f])
  }

  function WithoutLinks(links: map<Link, int>, titleId: Id): map<Link, int> {
    map l | l in links && l.titleId != titleId :: links[l]
  }

  /** `DELETE FROM metadata WHERE id = titleId`: movies, seasons and link rows cascade, media files do not. */
  function WithoutTitle(db: Tables, titleId: Id): Tables {
    var noMovies := WithoutMovies(db, set m | m in db.movies && db.movies[m] == titleId);
    var noSeasons := Apply(noMovies, DeleteSeasons, set s | s in db.seasons && db.seasons[s].titleId == titleId);
    noSeasons.(
    titles := map i | i in db.titles && i != titleId :: db.titles[i],
    watchlist := WithoutLinks(db.watchlist, titleId),
    ratings := WithoutLinks(db.ratings, titleId),
    memberships := WithoutLinks(db.memberships, titleId))
  }

  /** Running a statement for one chunk of ids and then for another is running it for both. */
  lemma ChunksCompose(db: Tables, statement: Statement, a: set<Id>, b: set<Id>)
    ensures Apply(Apply(db, statement, a), statement, b) == Apply(db, statement, a + b)
  {
    var twice, once := Apply(Apply(db, statement, a), statement, b), Apply(db, statement, a + b);
    match statement
    case RepointFiles(_, _) => assert twice.files == once.files;
    case MoveEpisodes(_) => assert twice.episodes == once.episodes;
    case TransferSeasons(_) => assert twice.seasons == once.seasons;
    case DeleteEpisodes => WithoutTwice(db, a, b);
    case DeleteSeasons => SeasonsDeletedTwice(db, a, b);
    case RetagFiles(_, _) => assert twice.files == once.files;
  }

  lemma SeasonsDeletedTwice(db: Tables, a: set<Id>, b: set<Id>)
    ensures Apply(Apply(db, DeleteSeasons, a), DeleteSeasons, b) == Apply(db, DeleteSeasons, a + b)
  {
    var first := Apply(db, DeleteSeasons, a);
    WithoutTwice(db, EpisodesIn(db, a), EpisodesIn(first, b));
    assert EpisodesIn(db, a) + EpisodesIn(first, b) == EpisodesIn(db, a + b);
    assert Apply(first, DeleteSeasons, b).seasons == Apply(db, DeleteSeasons, a + b).seasons;
  }

  lemma WithoutTwice(db: Tables, a: set<Id>, b: set<Id>)
    ensures WithoutEpisodes(WithoutEpisodes(db, a), b) == WithoutEpisodes(db, a + b)
  {
  }
}
