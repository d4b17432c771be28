/** Merging the link tables of two titles (watchlist, ratings, collection memberships): the target's own entry wins. */
module LinkMerge {
  import opened Catalog
  import opened Text

  /** The links after the merge and the deletion of the source title. */
  function JoinLinks(links: map<Link, int>, targetId: Id, sourceId: Id): map<Link, int>
    requires targetId != sourceId
  {
    map l | l in links.Keys + MovedLinks(links, targetId, sourceId) && l.titleId != sourceId ::
      if l in links then links[l] else links[Link(sourceId, l.otherId)]
  }

  function MovedLinks(links: map<Link, int>, targetId: Id, sourceId: Id): set<Link> {
    set l | l in links && l.titleId == sourceId :: Link(targetId, l.otherId)
  }

  /** Who is linked afterwards, and with which value: nothing of either title is lost and other titles are untouched. */
  lemma JoinKeepsEveryLink(links: map<Link, int>, targetId: Id, sourceId: Id, other: Id)
    requires targetId != sourceId
    ensures var joined := JoinLinks(links, targetId, sourceId);
            var mine, theirs := Link(targetId, other), Link(sourceId, other);
      && (mine in joined <==> mine in links || theirs in links)
      && (mine in links ==> joined[mine] == links[mine])
      && (mine !in links && theirs in links ==> joined[mine] == links[theirs])
      && theirs !in joined
      && (forall l: Link :: l.titleId != targetId && l.titleId != sourceId ==> (l in joined <==> l in links) && (l in links ==> joined[l] == links[l]))
  {
    if Link(sourceId, other) in links {
      assert Link(targetId, other) in MovedLinks(links, targetId, sourceId);
    }
  }

  lemma JoinIsHeld(links: map<Link, int>, targetId: Id, sourceId: Id, titles: set<Id>)
    requires targetId != sourceId && targetId in titles && LinksHeld(links, titles)
    ensures LinksHeld(JoinLinks(links, targetId, sourceId), titles - {sourceId})
  {
  }

  /** The ids linked to a title, in whatever order the database returns them. */
  method SelectOthers(links: map<Link, int>, titleId: Id) returns (others: seq<Id>)
    ensures forall o :: o in others <==> Link(titleId, o) in links
  {
    others := [];
    var left := links.Keys;
    while left != {}
      invariant left <= links.Keys
      invariant forall o :: o in others <==> Link(titleId, o) in links.Keys - left
      decreases left
    {
      var l :| l in left;
      if l.titleId == titleId { others := others + [l.otherId]; }
      left := left - {l};
    }
  }

  /** `mergeJunctionTable`: duplicates are deleted from the source, the rest is re-keyed to the target. */
  method MergeJunctionTable(links: map<Link, int>, targetId: Id, sourceId: Id) returns (merged: map<Link, int>)
    requires targetId != sourceId
    ensures merged == JoinLinks(links, targetId, sourceId)
  {
    var targetOthers := SelectOthers(links, targetId);
    var sourceOthers := SelectOthers(links, sourceId);
    var existing := set o | o in targetOthers;
    var duplicates: seq<Id>, transfers: seq<Id> := [], [];
    for i := 0 to |sourceOthers|
      invariant forall o :: o in duplicates <==> o in sourceOthers[..i] && o in existing
      invariant forall o :: o in transfers <==> o in sourceOthers[..i] && o !in existing
    {
      if sourceOthers[i] in existing {
        duplicates := duplicates + [sourceOthers[i]];
      } else {
        transfers := transfers + [sourceOthers[i]];
      }
    }
    assert sourceOthers[..|sourceOthers|] == sourceOthers;
    merged := map l | l in links && !(l.titleId == sourceId && l.otherId in duplicates) :: links[l];
    merged := Rekey(merged, targetId, sourceId, transfers);
    SplitJoin(links, targetId, sourceId, duplicates, transfers);
  }

  /** `UPDATE ... SET metadata_id = target WHERE metadata_id = source AND other_id IN others`. */
  function Rekey(links: map<Link, int>, targetId: Id, sourceId: Id, others: seq<Id>): map<Link, int> {
    (map l | l in links && !(l.titleId == sourceId && l.otherId in others) :: links[l])
    + (map o | o in others && Link(sourceId, o) in links :: Link(targetId, o) := links[Link(sourceId, o)])
  }

  lemma SplitJoin(links: map<Link, int>, targetId: Id, sourceId: Id, duplicates: seq<Id>, transfers: seq<Id>)
    requires targetId != sourceId
    requires forall o :: o in duplicates <==> Link(sourceId, o) in links && Link(targetId, o) in links
    requires forall o :: o in transfers <==> Link(sourceId, o) in links && Link(targetId, o) !in links
    ensures Rekey(map l | l in links && !(l.titleId == sourceId && l.otherId in duplicates) :: links[l], targetId, sourceId, transfers)
         == JoinLinks(links, targetId, sourceId)
  {
  }

  /** `mergeCollectionMemberships`: re-keys the entries that do not collide; the others go when their row is deleted. */
  method MergeCollectionMemberships(links: map<Link, int>, targetId: Id, sourceId: Id) returns (merged: map<Link, int>)
    requires targetId != sourceId
    ensures WithoutLinks(merged, sourceId) == JoinLinks(links, targetId, sourceId)
    ensures forall l :: l in merged ==> l in links || (l.titleId == targetId && Link(sourceId, l.otherId) in links)
    ensures forall l :: l in merged && l.titleId == sourceId ==> Link(targetId, l.otherId) in links
  {
    var targetOthers := SelectOthers(links, targetId);
    var sourceOthers := SelectOthers(links, sourceId);
    var existing := set o | o in targetOthers;
    var transfers: seq<Id> := [];
    for i := 0 to |sourceOthers|
      invariant forall o :: o in transfers <==> o in sourceOthers[..i] && o !in existing
    {
      if sourceOthers[i] !in existing { transfers := transfers + [sourceOthers[i]]; }
    }
    assert sourceOthers[..|sourceOthers|] == sourceOthers;
    if transfers == [] {
      merged := links;
      NothingToMove(links, targetId, sourceId);
      return;
    }
    merged := Rekey(links, targetId, sourceId, transfers);
    MoveThenDrop(links, targetId, sourceId, transfers);
  }

  lemma NothingToMove(links: map<Link, int>, targetId: Id, sourceId: Id)
    requires targetId != sourceId
    requires forall o :: Link(sourceId, o) in links ==> Link(targetId, o) in links
    ensures WithoutLinks(links, sourceId) == JoinLinks(links, targetId, sourceId)
  {
  }

  lemma MoveThenDrop(links: map<Link, int>, targetId: Id, sourceId: Id, transfers: seq<Id>)
    requires targetId != sourceId
    requires forall o :: o in transfers <==> Link(sourceId, o) in links && Link(targetId, o) !in links
    ensures WithoutLinks(Rekey(links, targetId, sourceId, transfers), sourceId) == JoinLinks(links, targetId, sourceId)
    ensures forall l :: l in Rekey(links, targetId, sourceId, transfers) && l.titleId == sourceId ==> l in links && Link(targetId, l.otherId) in links
  {
    var dropped, joined := WithoutLinks(Rekey(links, targetId, sourceId, transfers), sourceId), JoinLinks(links, targetId, sourceId);
    forall l ensures l in dropped <==> l in joined {
      if l.titleId == targetId && Link(sourceId, l.otherId) in links {
        assert l in MovedLinks(links, targetId, sourceId);
      }
    }
  }
}
