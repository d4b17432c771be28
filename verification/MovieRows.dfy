/**
 The rows of the movies table: one for each title that has films, under a stable key made from the stable key the title
 had at the time, or from its id. `findOrCreateByMetadataId` finds, takes over, repairs or inserts such a row.
 */
module MovieRows {
  import opened Text

  /** What the key of a row is made from. Keys made from ids and keys made from stable keys never coincide. */
  datatype RowKey = OfId(titleId: Id) | OfStableKey(stableKey: string)

  datatype Row = Row(titleId: Id, key: RowKey)

  type Rows = map<Id, Row>

  /** The two unique indexes. */
  predicate Unique(rows: Rows) {
    forall m, n :: m in rows && n in rows && m != n ==> rows[m].titleId != rows[n].titleId && rows[m].key != rows[n].key
  }

  predicate HasRow(rows: Rows, titleId: Id) {
    exists m :: m in rows && rows[m].titleId == titleId
  }

  predicate HasKey(rows: Rows, key: RowKey) {
    exists m :: m in rows && rows[m].key == key
  }

  /** Another title holds the key. */
  predicate HeldByOther(rows: Rows, titleId: Id, key: RowKey) {
    exists m :: m in rows && rows[m].key == key && rows[m].titleId != titleId
  }

  /** The row a call comes back with: the one with the key, else the one of the title, else the new one. */
  predicate Chosen(rows: Rows, titleId: Id, key: RowKey, newId: Id, id: Id) {
    if HasKey(rows, key) then id in rows && rows[id].key == key
    else if HasRow(rows, titleId) then id in rows && rows[id].titleId == titleId
    else id == newId
  }

  /** The keys made from ids name the title of their row. */
  predicate OwnIds(rows: Rows) {
    forall m :: m in rows && rows[m].key.OfId? ==> rows[m].key.titleId == rows[m].titleId
  }

  /**
   `findOrCreateByMetadataId`. It fails exactly when another title holds the key and the title has a row already: moving
   the keyed row violates the index on titles, and repairing the key of the title's row the index on keys.
   */
  method FindOrCreateByMetadataId(rows: Rows, titleId: Id, key: RowKey, newId: Id) returns (after: Rows, id: Option<Id>)
    requires Unique(rows) && newId !in rows
    ensures id.None? <==> HeldByOther(rows, titleId, key) && HasRow(rows, titleId)
    ensures id.None? ==> after == rows
    ensures id.Some? ==> Chosen(rows, titleId, key, newId, id.value) && after == rows[id.value := Row(titleId, key)]
    ensures Unique(after)
  {
    if m :| m in rows && rows[m].key == key {
      // the insert conflicts on the key, and becomes an update of the title
      if rows[m].titleId == titleId { return rows, Some(m); }
      if e :| e in rows && rows[e].titleId == titleId { return rows, None; }
      return rows[m := Row(titleId, key)], Some(m);
    }
    if e :| e in rows && rows[e].titleId == titleId {
      // the insert is rejected by the index on titles, and the key of the row found is repaired
      return rows[e := Row(titleId, key)], Some(e);
    }
    return rows[newId := Row(titleId, key)], Some(newId);
  }

  /** A call takes the row of another title exactly when that title holds the key and the caller has no row. */
  lemma TakesOverIff(rows: Rows, titleId: Id, key: RowKey, newId: Id, id: Id)
    requires Unique(rows) && newId !in rows && Chosen(rows, titleId, key, newId, id)
    requires !(HeldByOther(rows, titleId, key) && HasRow(rows, titleId))
    ensures id in rows && rows[id].titleId != titleId <==> HeldByOther(rows, titleId, key)
  {
  }

  /** Whatever key is used, keys made from ids stay with their titles. */
  lemma OwnIdsStay(rows: Rows, titleId: Id, key: RowKey, id: Id)
    requires OwnIds(rows) && (key.OfId? ==> key.titleId == titleId)
    ensures OwnIds(rows[id := Row(titleId, key)])
  {
  }

  /** So a title without a row gets a new one when the key is made from its id. */
  lemma OwnIdIsFree(rows: Rows, titleId: Id)
    requires OwnIds(rows) && !HasRow(rows, titleId)
    ensures !HasKey(rows, OfId(titleId))
  {
  }

  // ----- keys made from stable keys

  /** Every key made from a stable key is made from the one its title has now. */
  predicate Current(rows: Rows, keyOf: map<Id, string>) {
    forall m :: m in rows && rows[m].key.OfStableKey? ==>
      rows[m].titleId in keyOf && keyOf[rows[m].titleId] == rows[m].key.stableKey
  }

  predicate KeysDiffer(keyOf: map<Id, string>) {
    forall i, j :: i in keyOf && j in keyOf && i != j ==> keyOf[i] != keyOf[j]
  }

  /** As long as the keys are current, no title takes over the row of another, and the call keeps them current. */
  lemma CurrentTakesNothing(rows: Rows, keyOf: map<Id, string>, titleId: Id, id: Id)
    requires Current(rows, keyOf) && KeysDiffer(keyOf) && titleId in keyOf
    ensures !HeldByOther(rows, titleId, OfStableKey(keyOf[titleId]))
    ensures Current(rows[id := Row(titleId, OfStableKey(keyOf[titleId]))], keyOf)
  {
  }

  /** A title that changes its stable key, as in a rematch, leaves the keys current exactly when its row is not made from one. */
  lemma StaysCurrentIff(rows: Rows, keyOf: map<Id, string>, titleId: Id, stableKey: string)
    requires Current(rows, keyOf) && titleId in keyOf && keyOf[titleId] != stableKey
    ensures Current(rows, keyOf[titleId := stableKey]) <==> !KeyedRow(rows, titleId)
  {
  }

  predicate KeyedRow(rows: Rows, titleId: Id) {
    exists m :: m in rows && rows[m].titleId == titleId && rows[m].key.OfStableKey?
  }

  /**
   Title "a" got its row under the stable key "k" and was then given another key. A new title "b" with the key "k" takes
   the row, and with it the films of "a".
   */
  method OldKeyTakesRow() returns (after: Rows)
    ensures after == map["m" := Row("b", OfStableKey("k"))] && !HasRow(after, "a")
  {
    var rows := map["m" := Row("a", OfStableKey("k"))];
    assert rows["m"].key == OfStableKey("k") && HasKey(rows, OfStableKey("k"));
    var id;
    after, id := FindOrCreateByMetadataId(rows, "b", OfStableKey("k"), "n");
    assert id == Some("m");
  }

  // ----- the table as a column of titles and a column of keys

  class MovieKeys {
    var of: map<Id, RowKey>

    constructor (of: map<Id, RowKey>)
      ensures this.of == of
    {
      this.of := of;
    }
  }

  function MovieRowsOf(movies: map<Id, Id>, keys: map<Id, RowKey>): Rows {
    map m | m in movies && m in keys :: Row(movies[m], keys[m])
  }

  ghost predicate KeyedRows(movies: map<Id, Id>, keys: map<Id, RowKey>) {
    movies.Keys <= keys.Keys && Unique(MovieRowsOf(movies, keys)) && OwnIds(MovieRowsOf(movies, keys))
  }

  /** Rows may be gone; none is new or another title's. */
  predicate RowsLeft(before: map<Id, Id>, now: map<Id, Id>) {
    forall m :: m in now ==> m in before && now[m] == before[m]
  }

  lemma FewerRows(before: map<Id, Id>, now: map<Id, Id>, keys: map<Id, RowKey>)
    requires KeyedRows(before, keys) && RowsLeft(before, now)
    ensures KeyedRows(now, keys)
  {
    forall m | m in now ensures m in MovieRowsOf(before, keys) && MovieRowsOf(now, keys)[m] == MovieRowsOf(before, keys)[m] {
    }
  }

  lemma RowKeyed(movies: map<Id, Id>, keys: map<Id, RowKey>, movieId: Id, titleId: Id)
    requires KeyedRows(movies, keys) && movieId !in movies && forall m :: m in movies ==> movies[m] != titleId
    ensures KeyedRows(movies[movieId := titleId], keys[movieId := OfId(titleId)])
  {
    assert MovieRowsOf(movies[movieId := titleId], keys[movieId := OfId(titleId)])
        == MovieRowsOf(movies, keys)[movieId := Row(titleId, OfId(titleId))];
  }
}
