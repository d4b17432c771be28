/**
 Image rows and the six kinds of pointers that keep them: join rows, seasons, episodes, people, companies and avatar
 URLs. Replacing an image stores the new row, repoints the owner and removes the rows nothing points at any more.
 */
module ImageStore {
  import opened Text

  datatype Image = Image(stableKey: string, localPath: string, contentType: string, width: nat, height: nat, fileSize: nat)

  datatype JoinRow = JoinRow(metadataId: Id, imageType: string, imageId: Id)

  datatype Owner = Season(id: Id) | Episode(id: Id) | Person(id: Id) | Company(id: Id)

  /** An owner's pointer; seasons and episodes also name the metadata entry they belong to. */
  datatype OwnerRow = OwnerRow(imageId: Option<Id>, metadataId: Option<Id>)

  datatype Store = Store(
    images: map<Id, Image>, joins: set<JoinRow>, owners: map<Owner, OwnerRow>, profiles: map<Id, Option<string>>,
    metadata: set<Id>)

  datatype Outcome = NotFound | Conflict | Saved(imageId: Id)

  const AVATAR_URL_IMAGE_PREFIX := "/v1/images/"

  /** The image an avatar URL names, if it names one of ours. */
  function AvatarImage(url: Option<string>): Option<Id> {
    if url.Some? && AVATAR_URL_IMAGE_PREFIX < url.value then Some(url.value[|AVATAR_URL_IMAGE_PREFIX|..]) else None
  }

  lemma AvatarOf(imageId: Id)
    requires imageId != ""
    ensures AvatarImage(Some(AVATAR_URL_IMAGE_PREFIX + imageId)) == Some(imageId)
  {
  }

  // ----- references

  function JoinRefs(joins: set<JoinRow>): set<Id> {
    set row | row in joins :: row.imageId
  }

  function OwnerRefs(owners: map<Owner, OwnerRow>): set<Id> {
    set owner | owner in owners && owners[owner].imageId.Some? :: owners[owner].imageId.value
  }

  function AvatarRefs(profiles: map<Id, Option<string>>): set<Id> {
    set profile | profile in profiles && AvatarImage(profiles[profile]).Some? :: AvatarImage(profiles[profile]).value
  }

  /** Every image id some pointer names. */
  function Refs(store: Store): set<Id> {
    JoinRefs(store.joins) + OwnerRefs(store.owners) + AvatarRefs(store.profiles)
  }

  /** No pointer dangles. */
  predicate Linked(store: Store) {
    Refs(store) <= store.images.Keys
  }

  /** No row is kept for nothing. */
  predicate NoOrphans(store: Store) {
    store.images.Keys <= Refs(store)
  }

  /** The unique indexes on path and stable key. */
  predicate Unique(images: map<Id, Image>) {
    forall a, b :: a in images && b in images && a != b ==>
      images[a].stableKey != images[b].stableKey && images[a].localPath != images[b].localPath
  }

  predicate Sound(store: Store) {
    Linked(store) && Unique(store.images) && "" !in store.images
  }

  // ----- storing a row

  predicate SameImage(row: Image, image: Image) {
    row.stableKey == image.stableKey || row.localPath == image.localPath
  }

  predicate Matching(images: map<Id, Image>, id: Id, image: Image) {
    id in images && SameImage(images[id], image)
  }

  /** One row has the stable key and another the path: writing both into either breaks an index. */
  ghost predicate TwoRowsMatch(images: map<Id, Image>, image: Image) {
    exists a, b :: Matching(images, a, image) && Matching(images, b, image) && a != b
  }

  predicate NoneMatches(images: map<Id, Image>, image: Image) {
    forall id :: id in images ==> !Matching(images, id, image)
  }

  /** The write that breaks a unique index or the primary key. */
  ghost predicate Rejected(images: map<Id, Image>, image: Image, newId: Id) {
    TwoRowsMatch(images, image) || (NoneMatches(images, image) && newId in images)
  }

  /** The row an upsert writes: the one that matches, or a new one. */
  predicate Chosen(images: map<Id, Image>, image: Image, newId: Id, id: Id) {
    if NoneMatches(images, image) then id == newId && newId !in images else Matching(images, id, image)
  }

  /** The upsert keeps the indexes exactly when no second row matches. */
  lemma UpsertIsUniqueIff(images: map<Id, Image>, image: Image, newId: Id, id: Id)
    requires Unique(images) && Chosen(images, image, newId, id)
    ensures Unique(images[id := image]) <==> !TwoRowsMatch(images, image)
  {
    var after := images[id := image];
    if !Unique(after) {
      var a, b :| a in after && b in after && a != b
        && !(after[a].stableKey != after[b].stableKey && after[a].localPath != after[b].localPath);
      var other := if a == id then b else a;
      assert Matching(images, other, image) && other != id;
    }
    if TwoRowsMatch(images, image) {
      var a, b :| Matching(images, a, image) && Matching(images, b, image) && a != b;
      var other := if a == id then b else a;
      assert other in after && id in after && SameImage(after[other], after[id]);
    }
  }

  // ----- removing a row

  /** One row has the new image's key, another its path: the upsert is rejected. */
  lemma TwoRowsMayMatch()
    ensures var images := map["1" := Image("k1", "/a.webp", "image/webp", 1, 1, 1), "2" := Image("k2", "/b.webp", "image/webp", 1, 1, 1)];
      Unique(images) && TwoRowsMatch(images, Image("k1", "/b.webp", "image/webp", 1, 1, 1))
  {
    var images := map["1" := Image("k1", "/a.webp", "image/webp", 1, 1, 1), "2" := Image("k2", "/b.webp", "image/webp", 1, 1, 1)];
    var image := Image("k1", "/b.webp", "image/webp", 1, 1, 1);
    assert Matching(images, "1", image) && Matching(images, "2", image);
  }

  /** Deleting an image row: join rows go with it, owner pointers become null, avatar URLs are plain text. */
  function WithoutImage(store: Store, id: Id): Store {
    store.(
      images := store.images - {id},
      joins := (set row | row in store.joins && row.imageId != id),
      owners := (map owner | owner in store.owners :: Released(store.owners[owner], id)))
  }

  function Released(row: OwnerRow, id: Id): OwnerRow {
    if row.imageId == Some(id) then row.(imageId := None) else row
  }

  function Purged(store: Store, id: Id): Store {
    if id in Refs(store) then store else WithoutImage(store, id)
  }

  /** Purging removes nothing but the row itself: the cascades find nothing to do. */
  lemma PurgeIsQuiet(store: Store, id: Id)
    ensures Purged(store, id) == if id in Refs(store) then store else store.(images := store.images - {id})
  {
    if id !in Refs(store) {
      forall row | row in store.joins ensures row.imageId != id {
        assert row.imageId in JoinRefs(store.joins);
      }
      assert (set row | row in store.joins && row.imageId != id) == store.joins;
      forall owner | owner in store.owners ensures Released(store.owners[owner], id) == store.owners[owner] {
        assert store.owners[owner].imageId.Some? ==> store.owners[owner].imageId.value in OwnerRefs(store.owners);
      }
      assert (map owner | owner in store.owners :: Released(store.owners[owner], id)) == store.owners;
    }
  }

  /** The rows of `ids` other than `keep`, purged one after the other. */
  function PurgedAll(store: Store, ids: seq<Id>, keep: Id): Store {
    if ids == [] then store
    else
      var rest, last := PurgedAll(store, ids[..|ids| - 1], keep), ids[|ids| - 1];
      if last == keep then rest else Purged(rest, last)
  }

  /** Purging keeps every pointer and exactly the rows that are not listed, are kept, or are still pointed at. */
  lemma {:induction false} PurgeIsExact(store: Store, ids: seq<Id>, keep: Id)
    ensures var after := PurgedAll(store, ids, keep);
      && after == store.(images := after.images)
      && Refs(after) == Refs(store)
      && after.images == map id | id in store.images && (id !in ids || id == keep || id in Refs(store)) :: store.images[id]
  {
    if ids == [] {
      assert (map id | id in store.images && (id !in ids || id == keep || id in Refs(store)) :: store.images[id]) == store.images;
    } else {
      var before, last := ids[..|ids| - 1], ids[|ids| - 1];
      assert ids == before + [last];
      PurgeIsExact(store, before, keep);
      PurgeIsQuiet(PurgedAll(store, before, keep), last);
    }
  }

  /**
   The heart of every replacement: a row stored at `id`, one pointer moved to it, the ids it left in `stale` purged.
   Nothing dangles afterwards, a removed row was stale and is pointed at by nothing, and no orphan appears.
   */
  lemma ReplacementIsSafe(before: Store, stored: Store, id: Id, image: Image, stale: seq<Id>)
    requires Sound(before) && id != "" && Unique(before.images[id := image])
    requires stored.images == before.images[id := image]
    requires id in Refs(stored) && Refs(stored) <= Refs(before) + {id}
    requires forall x :: x in Refs(before) ==> x in Refs(stored) || x in stale
    ensures var after := PurgedAll(stored, stale, id);
      && Sound(after) && id in after.images && after.images[id] == image
      && (forall x :: x in before.images && x !in after.images ==> x in stale && x !in Refs(after))
      && (forall x :: x in after.images && x != id ==> x in before.images && after.images[x] == before.images[x])
      && (NoOrphans(before) ==> NoOrphans(after))
  {
    var after := PurgedAll(stored, stale, id);
    PurgeIsExact(stored, stale, id);
    assert after.images.Keys <= stored.images.Keys;
    forall x | x in Refs(after) ensures x in after.images {
      assert x in before.images || x == id;
    }
    if NoOrphans(before) {
      forall x | x in after.images ensures x in Refs(after) {
        if x != id {
          assert x in Refs(before);
        }
      }
    }
  }

  // ----- what each replacement does to the pointers

  function PointedOwner(store: Store, owner: Owner, image: Image, id: Id): Store
    requires owner in store.owners
  {
    store.(images := store.images[id := image], owners := store.owners[owner := store.owners[owner].(imageId := Some(id))])
  }

  function StaleOf(pointer: Option<Id>): seq<Id> {
    if pointer.Some? && pointer.value != "" then [pointer.value] else []
  }

  lemma OwnerRefsMove(owners: map<Owner, OwnerRow>, owner: Owner, id: Id)
    requires owner in owners
    ensures var after := owners[owner := owners[owner].(imageId := Some(id))];
      && id in OwnerRefs(after) && OwnerRefs(after) <= OwnerRefs(owners) + {id}
      && forall x :: x in OwnerRefs(owners) ==> x in OwnerRefs(after) || owners[owner].imageId == Some(x)
  {
    var after := owners[owner := owners[owner].(imageId := Some(id))];
    assert after[owner].imageId == Some(id);
    forall x | x in OwnerRefs(owners) && owners[owner].imageId != Some(x) ensures x in OwnerRefs(after) {
      var o :| o in owners && owners[o].imageId.Some? && owners[o].imageId.value == x;
      assert after[o] == owners[o];
    }
    forall x | x in OwnerRefs(after) && x != id ensures x in OwnerRefs(owners) {
      var o :| o in after && after[o].imageId.Some? && after[o].imageId.value == x;
      assert owners[o] == after[o];
    }
  }

  function PointedAvatar(store: Store, profile: Id, image: Image, id: Id): Store {
    store.(images := store.images[id := image], profiles := store.profiles[profile := Some(AVATAR_URL_IMAGE_PREFIX + id)])
  }

  lemma AvatarRefsMove(profiles: map<Id, Option<string>>, profile: Id, id: Id)
    requires profile in profiles && id != ""
    ensures var after := profiles[profile := Some(AVATAR_URL_IMAGE_PREFIX + id)];
      && id in AvatarRefs(after) && AvatarRefs(after) <= AvatarRefs(profiles) + {id}
      && forall x :: x in AvatarRefs(profiles) ==> x in AvatarRefs(after) || AvatarImage(profiles[profile]) == Some(x)
  {
    var after := profiles[profile := Some(AVATAR_URL_IMAGE_PREFIX + id)];
    AvatarOf(id);
    assert AvatarImage(after[profile]) == Some(id);
    forall x | x in AvatarRefs(profiles) && AvatarImage(profiles[profile]) != Some(x) ensures x in AvatarRefs(after) {
      var p :| p in profiles && AvatarImage(profiles[p]).Some? && AvatarImage(profiles[p]).value == x;
      assert after[p] == profiles[p];
    }
    forall x | x in AvatarRefs(after) && x != id ensures x in AvatarRefs(profiles) {
      var p :| p in after && AvatarImage(after[p]).Some? && AvatarImage(after[p]).value == x;
      assert profiles[p] == after[p];
    }
  }

  function InSlot(joins: set<JoinRow>, metadataId: Id, imageType: string): set<JoinRow> {
    set row | row in joins && row.metadataId == metadataId && row.imageType == imageType
  }

  /** The images a slot points at. */
  lemma SlotRefs(joins: set<JoinRow>, metadataId: Id, imageType: string)
    ensures forall x :: x in JoinRefs(InSlot(joins, metadataId, imageType)) <==> JoinRow(metadataId, imageType, x) in joins
  {
    forall x ensures x in JoinRefs(InSlot(joins, metadataId, imageType)) <==> JoinRow(metadataId, imageType, x) in joins {
      if JoinRow(metadataId, imageType, x) in joins {
        assert JoinRow(metadataId, imageType, x) in InSlot(joins, metadataId, imageType);
      }
    }
  }

  function PointedSlot(store: Store, metadataId: Id, imageType: string, image: Image, id: Id): Store {
    store.(
      images := store.images[id := image],
      joins := store.joins - InSlot(store.joins, metadataId, imageType) + {JoinRow(metadataId, imageType, id)})
  }

  lemma JoinRefsMove(joins: set<JoinRow>, metadataId: Id, imageType: string, id: Id)
    ensures var slot := InSlot(joins, metadataId, imageType);
      var after := joins - slot + {JoinRow(metadataId, imageType, id)};
      && id in JoinRefs(after) && JoinRefs(after) <= JoinRefs(joins) + {id}
      && forall x :: x in JoinRefs(joins) ==> x in JoinRefs(after) || x in JoinRefs(slot)
  {
  }

  // ----- the repository

  datatype FileRead = FileRead(localPath: string, contentType: string)

  function ReadOf(image: Image): FileRead {
    FileRead(image.localPath, image.contentType)
  }

  predicate Readable(read: FileRead) {
    read.localPath != "" && read.contentType != ""
  }

  /** What the file cache may say: the path and type of a row that exists. */
  predicate Fresh(cache: map<Id, FileRead>, images: map<Id, Image>) {
    forall id :: id in cache ==> id in images && cache[id] == ReadOf(images[id]) && Readable(cache[id])
  }

  /** What a caller can look up before a replacement: a cached row that the upsert will reuse is stale or reads the same. */
  predicate StaysFresh(cache: map<Id, FileRead>, images: map<Id, Image>, stale: seq<Id>, image: Image, newId: Id) {
    forall id :: id in cache && id !in stale && Chosen(images, image, newId, id) ==> cache[id] == ReadOf(image)
  }

  /** The cache after a replacement has lost the stale ids, and is fresh exactly when it stays so. */
  predicate CacheFollows(cache: map<Id, FileRead>, before: map<Id, Image>, kept: map<Id, FileRead>, after: map<Id, Image>,
                         stale: seq<Id>, image: Image, newId: Id)
  {
    && kept == cache - (set x | x in stale)
    && (Fresh(cache, before) ==> (Fresh(kept, after) <==> StaysFresh(cache, before, stale, image, newId)))
  }

  /** After a replacement the cache can be wrong about one row only: the reused one, when its owner did not hold it before. */
  lemma CacheIsFreshIff(
      cache: map<Id, FileRead>, before: map<Id, Image>, after: map<Id, Image>, id: Id, image: Image, newId: Id, stale: seq<Id>)
    requires !Rejected(before, image, newId) && Chosen(before, image, newId, id)
    requires id in after && after[id] == image
    requires forall x :: x in before && x !in after ==> x in stale
    requires forall x :: x in after && x != id ==> x in before && after[x] == before[x]
    ensures CacheFollows(cache, before, cache - (set x | x in stale), after, stale, image, newId)
  {
    var kept := cache - (set x | x in stale);
    forall x | Chosen(before, image, newId, x) ensures x == id {
    }
    if Fresh(cache, before) && id in kept && cache[id] != ReadOf(image) {
      assert !Fresh(kept, after);
    }
  }

  class ImageRepository {
    var images: map<Id, Image>
    var joins: set<JoinRow>
    var owners: map<Owner, OwnerRow>
    var profiles: map<Id, Option<string>>
    const metadata: set<Id>
    var fileReadCache: map<Id, FileRead>

    function Now(): Store
      reads this
    {
      Store(images, joins, owners, profiles, metadata)
    }

    constructor (store: Store)
      ensures Now() == store && fileReadCache == map[]
    {
      images, joins, owners, profiles := store.images, store.joins, store.owners, store.profiles;
      metadata := store.metadata;
      fileReadCache := map[];
    }

    /** `upsertImageOnce`: `None` is the constraint violation that aborts the transaction. */
    method UpsertImageOnce(image: Image, newId: Id) returns (saved: Option<Id>)
      requires Unique(images) && newId != "" && "" !in images
      modifies this`images
      ensures saved.None? ==> images == old(images)
      ensures saved.None? <==> Rejected(old(images), image, newId)
      ensures saved.Some? ==> saved.value != "" && Chosen(old(images), image, newId, saved.value)
      ensures saved.Some? ==> images == old(images)[saved.value := image] && Unique(images)
    {
      var id := newId;
      if existing :| existing in images && SameImage(images[existing], image) {
        assert Matching(images, existing, image);
        id := existing;
        if other :| other in images && other != existing && SameImage(images[other], image) {
          assert Matching(images, other, image);
          return None;
        }
      } else if newId in images {
        return None;
      }
      UpsertIsUniqueIff(images, image, newId, id);
      images := images[id := image];
      return Some(id);
    }

    /** `deleteImageIfUnreferenced`: six probes, then the delete with its cascades. */
    method DeleteImageIfUnreferenced(imageId: Id)
      modifies this`images, this`joins, this`owners
      ensures Now() == Purged(old(Now()), imageId)
    {
      if exists row :: row in joins && row.imageId == imageId {
        var row :| row in joins && row.imageId == imageId;
        assert imageId in JoinRefs(joins);
        return;
      }
      if exists owner :: owner in owners && owners[owner].imageId == Some(imageId) {
        var owner :| owner in owners && owners[owner].imageId == Some(imageId);
        assert imageId in OwnerRefs(owners);
        return;
      }
      if exists profile :: profile in profiles && AvatarImage(profiles[profile]) == Some(imageId) {
        var profile :| profile in profiles && AvatarImage(profiles[profile]) == Some(imageId);
        assert imageId in AvatarRefs(profiles);
        return;
      }
      ghost var before := Now();
      images := images - {imageId};
      joins := set row | row in joins && row.imageId != imageId;
      owners := map owner | owner in owners :: Released(owners[owner], imageId);
      assert Now() == WithoutImage(before, imageId);
    }

    /** The loop over stale ids inside the transaction. */
    method PurgeStale(stale: seq<Id>, keep: Id)
      modifies this`images, this`joins, this`owners
      ensures Now() == PurgedAll(old(Now()), stale, keep)
    {
      ghost var before := Now();
      for i := 0 to |stale|
        invariant Now() == PurgedAll(before, stale[..i], keep)
      {
        assert stale[..i + 1][..i] == stale[..i];
        if stale[i] != keep { DeleteImageIfUnreferenced(stale[i]); }
      }
      assert stale[..|stale|] == stale;
    }

    /** After the commit every previous image leaves the file cache. */
    method ForgetFiles(stale: seq<Id>)
      modifies this`fileReadCache
      ensures fileReadCache == old(fileReadCache) - (set x | x in stale)
    {
      for i := 0 to |stale|
        invariant fileReadCache == old(fileReadCache) - (set x | x in stale[..i])
      {
        assert stale[..i + 1] == stale[..i] + [stale[i]];
        fileReadCache := fileReadCache - {stale[i]};
      }
      assert stale[..|stale|] == stale;
    }

    /** `findForFileRead`: with a fresh cache, what the row says; the cache stays fresh. A cached entry is not checked again. */
    method FindForFileRead(imageId: Id) returns (read: Option<FileRead>)
      modifies this`fileReadCache
      ensures imageId in old(fileReadCache) ==> read == Some(old(fileReadCache)[imageId]) && fileReadCache == old(fileReadCache)
      ensures read.Some? ==> fileReadCache == old(fileReadCache)[imageId := read.value]
      ensures Fresh(old(fileReadCache), images) ==> Fresh(fileReadCache, images)
      ensures Fresh(old(fileReadCache), images) ==>
        && (read.Some? <==> imageId in images && images[imageId].localPath != "" && images[imageId].contentType != "")
        && (read.Some? ==> read.value == FileRead(images[imageId].localPath, images[imageId].contentType))
    {
      if imageId in fileReadCache { return Some(fileReadCache[imageId]); }
      if imageId in images && images[imageId].localPath != "" && images[imageId].contentType != "" {
        fileReadCache := fileReadCache[imageId := ReadOf(images[imageId])];
        return Some(ReadOf(images[imageId]));
      }
      return None;
    }

    /** `replaceReferencedImage`, for a season or an episode of `metadataId`, or for a person. */
    method ReplaceReferencedImage(owner: Owner, metadataId: Option<Id>, image: Image, newId: Id) returns (outcome: Outcome)
      requires Sound(Now()) && newId != ""
      modifies this
      ensures outcome.NotFound? <==> !(owner in old(owners) && old(owners[owner]).metadataId == metadataId)
      ensures !outcome.Saved? ==> Now() == old(Now()) && fileReadCache == old(fileReadCache)
      ensures outcome.Conflict? <==> !outcome.NotFound? && Rejected(old(images), image, newId)
      ensures outcome.Saved? ==>
        Settled(old(Now()), Now(), outcome.imageId, image, StaleOf(old(owners)[owner].imageId))
      ensures outcome.Saved? ==>
        owner in owners && owners == old(owners)[owner := OwnerRow(Some(outcome.imageId), metadataId)]
          && joins == old(joins) && profiles == old(profiles)
      ensures outcome.Saved? ==> CacheFollows(old(fileReadCache), old(images), fileReadCache, images,
        StaleOf(old(owners)[owner].imageId), image, newId)
      ensures outcome.Saved? ==> Chosen(old(images), image, newId, outcome.imageId)
    {
      if owner !in owners || owners[owner].metadataId != metadataId { return NotFound; }
      ghost var before := Now();
      var previous := owners[owner].imageId;
      var persisted := UpsertImageOnce(image, newId);
      if persisted.None? { return Conflict; }
      var id := persisted.value;
      owners := owners[owner := owners[owner].(imageId := Some(id))];
      ghost var stored := Now();
      assert stored == PointedOwner(before, owner, image, id);
      OwnerMoveIsSafe(before, owner, image, id);
      PurgeStale(StaleOf(previous), id);
      PurgeIsExact(stored, StaleOf(previous), id);
      ForgetFiles(StaleOf(previous));
      CacheIsFreshIff(old(fileReadCache), before.images, images, id, image, newId, StaleOf(previous));
      return Saved(id);
    }

    /** `replaceMetadataImage`: the slot's rows make way for one. */
    method ReplaceMetadataImage(metadataId: Id, imageType: string, image: Image, newId: Id)
      returns (outcome: Outcome, ghost stale: seq<Id>)
      requires Sound(Now()) && newId != ""
      modifies this
      ensures outcome.NotFound? <==> metadataId !in metadata
      ensures !outcome.Saved? ==> Now() == old(Now()) && fileReadCache == old(fileReadCache)
      ensures outcome.Conflict? <==> !outcome.NotFound? && Rejected(old(images), image, newId)
      ensures outcome.Saved? ==> Settled(old(Now()), Now(), outcome.imageId, image, stale)
      ensures outcome.Saved? ==> forall x :: x in stale <==> JoinRow(metadataId, imageType, x) in old(joins)
      ensures outcome.Saved? ==> forall row :: row in joins <==>
        if row.metadataId == metadataId && row.imageType == imageType then row.imageId == outcome.imageId else row in old(joins)
      ensures outcome.Saved? ==> owners == old(owners) && profiles == old(profiles)
      ensures outcome.Saved? ==>
        CacheFollows(old(fileReadCache), old(images), fileReadCache, images, stale, image, newId)
          && Chosen(old(images), image, newId, outcome.imageId)
    {
      stale := [];
      if metadataId !in metadata { return NotFound, []; }
      ghost var before := Now();
      var persisted, previous := PointSlot(metadataId, imageType, image, newId);
      if persisted.None? { return Conflict, []; }
      SlotRefs(before.joins, metadataId, imageType);
      ForgetFiles(previous);
      CacheIsFreshIff(old(fileReadCache), before.images, images, persisted.value, image, newId, previous);
      return Saved(persisted.value), previous;
    }

    /** The transaction of `replaceMetadataImage`. */
    method PointSlot(metadataId: Id, imageType: string, image: Image, newId: Id)
      returns (persisted: Option<Id>, previous: seq<Id>)
      requires Sound(Now()) && newId != ""
      modifies this`images, this`joins, this`owners
      ensures persisted.None? <==> Rejected(old(images), image, newId)
      ensures persisted.None? ==> Now() == old(Now())
      ensures persisted.Some? ==> Chosen(old(images), image, newId, persisted.value)
      ensures persisted.Some? ==> Settled(old(Now()), Now(), persisted.value, image, previous) && owners == old(owners)
      ensures forall x :: x in previous <==> x in JoinRefs(InSlot(old(joins), metadataId, imageType))
      ensures persisted.Some? ==>
        joins == old(joins) - InSlot(old(joins), metadataId, imageType) + {JoinRow(metadataId, imageType, persisted.value)}
    {
      ghost var before := Now();
      var slot := InSlot(joins, metadataId, imageType);
      previous := ListImages(slot);
      persisted := UpsertImageOnce(image, newId);
      if persisted.None? { return; }
      var id := persisted.value;
      joins := joins - slot + {JoinRow(metadataId, imageType, id)};
      ghost var stored := Now();
      assert stored == PointedSlot(before, metadataId, imageType, image, id);
      SlotMoveIsSafe(before, metadataId, imageType, image, id, previous);
      PurgeStale(previous, id);
      PurgeIsExact(stored, previous, id);
    }

    method ListImages(rows: set<JoinRow>) returns (ids: seq<Id>)
      ensures forall x :: x in ids <==> x in JoinRefs(rows)
    {
      ids := [];
      var left := rows;
      while left != {}
        invariant left <= rows
        invariant forall x :: x in ids <==> x in JoinRefs(rows - left)
        decreases |left|
      {
        var row :| row in left;
        assert rows - (left - {row}) == rows - left + {row};
        assert JoinRefs(rows - left + {row}) == JoinRefs(rows - left) + {row.imageId};
        ids := ids + [row.imageId];
        left := left - {row};
      }
      assert rows - {} == rows;
    }

    /** `replaceProfileAvatar`. */
    method ReplaceProfileAvatar(profileId: Id, image: Image, newId: Id) returns (outcome: Outcome)
      requires Sound(Now()) && newId != ""
      modifies this
      ensures outcome.NotFound? <==> profileId !in old(profiles)
      ensures !outcome.Saved? ==> Now() == old(Now()) && fileReadCache == old(fileReadCache)
      ensures outcome.Conflict? <==> !outcome.NotFound? && Rejected(old(images), image, newId)
      ensures outcome.Saved? ==>
        Settled(old(Now()), Now(), outcome.imageId, image, StaleOf(AvatarImage(old(profiles)[profileId])))
      ensures outcome.Saved? ==>
        profiles == old(profiles)[profileId := Some(AVATAR_URL_IMAGE_PREFIX + outcome.imageId)]
          && joins == old(joins) && owners == old(owners)
      ensures outcome.Saved? ==> CacheFollows(old(fileReadCache), old(images), fileReadCache, images,
        StaleOf(AvatarImage(old(profiles)[profileId])), image, newId)
      ensures outcome.Saved? ==> Chosen(old(images), image, newId, outcome.imageId)
    {
      if profileId !in profiles { return NotFound; }
      ghost var before := Now();
      var avatarUrl := profiles[profileId];
      var persisted := UpsertImageOnce(image, newId);
      if persisted.None? { return Conflict; }
      var id := persisted.value;
      profiles := profiles[profileId := Some(AVATAR_URL_IMAGE_PREFIX + id)];
      ghost var stored := Now();
      assert stored == PointedAvatar(before, profileId, image, id);
      AvatarMoveIsSafe(before, profileId, image, id);
      var stale := StaleOf(AvatarImage(avatarUrl));
      PurgeStale(stale, id);
      PurgeIsExact(stored, stale, id);
      ForgetFiles(stale);
      CacheIsFreshIff(old(fileReadCache), before.images, images, id, image, newId, stale);
      return Saved(id);
    }
  }

  // ----- any number of replacements

  datatype Target = ForOwner(owner: Owner, metadataId: Option<Id>) | ForSlot(metadata: Id, imageType: string) | ForAvatar(profile: Id)

  datatype Replacement = Replacement(target: Target, image: Image, newId: Id)

  /** After any run of replacements no pointer dangles, and a store without orphans still has none. */
  method Run(repository: ImageRepository, replacements: seq<Replacement>)
    requires Sound(repository.Now()) && forall r :: r in replacements ==> r.newId != ""
    modifies repository
    ensures Sound(repository.Now())
    ensures NoOrphans(old(repository.Now())) ==> NoOrphans(repository.Now())
  {
    for i := 0 to |replacements|
      invariant Sound(repository.Now())
      invariant NoOrphans(old(repository.Now())) ==> NoOrphans(repository.Now())
    {
      assert replacements[i] in replacements;
      var image, newId := replacements[i].image, replacements[i].newId;
      match replacements[i].target
      case ForOwner(owner, metadataId) => var _ := repository.ReplaceReferencedImage(owner, metadataId, image, newId);
      case ForSlot(metadata, imageType) => var _, _ := repository.ReplaceMetadataImage(metadata, imageType, image, newId);
      case ForAvatar(profile) => var _ := repository.ReplaceProfileAvatar(profile, image, newId);
    }
  }

  /**
   A season without an image takes over a row that an episode shows and the cache holds, under a new path. Reads of that
   row go on answering with the old one.
   */
  method CacheMayGoStale() returns (repository: ImageRepository, read: Option<FileRead>)
    ensures "1" in repository.images && repository.images["1"].localPath == "/b.webp"
    ensures read == Some(FileRead("/a.webp", "image/webp"))
    ensures Sound(repository.Now())
  {
    var was, image := Image("k1", "/a.webp", "image/webp", 1, 1, 1), Image("k1", "/b.webp", "image/webp", 1, 1, 1);
    var episode, season := OwnerRow(Some("1"), Some("m")), OwnerRow(None, Some("m"));
    var store := Store(map["1" := was], {}, map[Episode("e") := episode, Season("s") := season], map[], {"m"});
    forall x | x in OwnerRefs(store.owners) ensures x == "1" {
    }
    assert Sound(store);
    repository := new ImageRepository(store);
    var first := repository.FindForFileRead("1");
    assert Matching(store.images, "1", image);
    assert StaleOf(repository.owners[Season("s")].imageId) == [];
    var outcome := repository.ReplaceReferencedImage(Season("s"), Some("m"), image, "2");
    read := repository.FindForFileRead("1");
  }

  /** What every successful replacement leaves behind. */
  predicate Settled(before: Store, after: Store, id: Id, image: Image, stale: seq<Id>) {
    && Sound(after) && id in after.images && after.images[id] == image
    && (forall x :: x in before.images && x !in after.images ==> x in stale && x !in Refs(after))
    && (forall x :: x in after.images && x != id ==> x in before.images && after.images[x] == before.images[x])
    && (NoOrphans(before) ==> NoOrphans(after))
  }

  lemma OwnerMoveIsSafe(before: Store, owner: Owner, image: Image, id: Id)
    requires Sound(before) && owner in before.owners && id != "" && Unique(before.images[id := image])
    ensures var stored := PointedOwner(before, owner, image, id);
      Settled(before, PurgedAll(stored, StaleOf(before.owners[owner].imageId), id), id, image, StaleOf(before.owners[owner].imageId))
  {
    var stored := PointedOwner(before, owner, image, id);
    OwnerRefsMove(before.owners, owner, id);
    forall x | x in Refs(before) ensures x in Refs(stored) || x in StaleOf(before.owners[owner].imageId) {
    }
    ReplacementIsSafe(before, stored, id, image, StaleOf(before.owners[owner].imageId));
  }

  lemma AvatarMoveIsSafe(before: Store, profile: Id, image: Image, id: Id)
    requires Sound(before) && profile in before.profiles && id != "" && Unique(before.images[id := image])
    ensures var stored := PointedAvatar(before, profile, image, id);
      Settled(before, PurgedAll(stored, StaleOf(AvatarImage(before.profiles[profile])), id), id, image,
        StaleOf(AvatarImage(before.profiles[profile])))
  {
    var stored := PointedAvatar(before, profile, image, id);
    AvatarRefsMove(before.profiles, profile, id);
    forall x | x in Refs(before) ensures x in Refs(stored) || x in StaleOf(AvatarImage(before.profiles[profile])) {
    }
    ReplacementIsSafe(before, stored, id, image, StaleOf(AvatarImage(before.profiles[profile])));
  }

  lemma SlotMoveIsSafe(before: Store, metadataId: Id, imageType: string, image: Image, id: Id, stale: seq<Id>)
    requires Sound(before) && id != "" && Unique(before.images[id := image])
    requires forall x :: x in stale <==> x in JoinRefs(InSlot(before.joins, metadataId, imageType))
    ensures var stored := PointedSlot(before, metadataId, imageType, image, id);
      Settled(before, PurgedAll(stored, stale, id), id, image, stale)
  {
    var stored := PointedSlot(before, metadataId, imageType, image, id);
    JoinRefsMove(before.joins, metadataId, imageType, id);
    ReplacementIsSafe(before, stored, id, image, stale);
  }
}
